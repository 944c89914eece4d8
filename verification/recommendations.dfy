/**
 The `/api/recommendations` route: the line parser applied to the chat
 model's reply (`generateSongSuggestions`) and the `POST` handler's loop
 that looks each suggestion up and keeps at most ten playable results.
 The chat reply and the video lookup are inputs: the reply's `content`
 field, and a function from query text to embed link (or `null`).
 */
module Recommendations {
  import opened Wrappers
  import opened JsStrings
  import opened Candidates
  import opened Selection
  import opened YouTubeEmbed
  import ValidVideo

  /** Each reply line is split on this separator into title and artist. */
  const Separator: string := " - "

  /** Reply lines are separated by this. */
  const LineBreak: string := "\n"

  /**
   One trimmed, non-blank line. The title is the trimmed text before the
   first separator; the artist is every later piece re-joined with the
   separator and trimmed, which is the trimmed text after the first
   separator. A line without a separator is all title, with artist "".
   Title and artist come out trimmed, and a trimmed non-blank line always
   gives a non-empty title: it cannot start with the separator's space.
   */
  function ParseLine(line: string): (c: Candidate)
    ensures match IndexOf(line, Separator)
            case None => c == Candidate(Trim(line), "")
            case Some(i) => c == Candidate(Trim(line[..i]), Trim(line[i + |Separator|..]))
    ensures IsTrimmed(c.title) && IsTrimmed(c.artist)
    ensures IsTrimmed(line) && line != "" ==> c.title != ""
  {
    SplitAtFirst(line, Separator);
    TitleOfVisibleLine(line);
    var parts := Split(line, Separator);
    Candidate(Trim(parts[0]), Trim(Join(parts[1..], Separator)))
  }

  /** In a trimmed non-blank line the text before the first separator has a visible character. */
  lemma TitleOfVisibleLine(line: string)
    ensures IsTrimmed(line) && line != "" ==>
              match IndexOf(line, Separator)
              case None => !AllWhitespace(line)
              case Some(i) => i > 0 && !AllWhitespace(line[..i])
  {
    if IsTrimmed(line) && line != "" {
      match IndexOf(line, Separator)
      case None =>
        assert !IsWhitespace(line[0]);
      case Some(i) =>
        assert line[i..i + |Separator|][0] == ' ';
        assert i > 0;
        assert line[..i][0] == line[0];
    }
  }

  /** What every parsed suggestion satisfies: a non-empty title, and title and artist trimmed. */
  predicate Tidy(c: Candidate) {
    c.title != "" && IsTrimmed(c.title) && IsTrimmed(c.artist)
  }

  /** The suggestions of one raw line: none exactly when it is all whitespace, otherwise one tidy suggestion. */
  function LineSuggestions(line: string): (r: seq<Candidate>)
    ensures |r| <= 1 && forall k :: 0 <= k < |r| ==> Tidy(r[k])
    ensures |r| == 0 <==> AllWhitespace(line)
  {
    var t := Trim(line);
    if t == "" then [] else [ParseLine(t)]
  }

  /** `.map(trim).filter(Boolean).map(parse)` over the lines, in order: at most one tidy suggestion per line. */
  function ParseLines(lines: seq<string>): (r: seq<Candidate>)
    ensures |r| <= |lines|
    ensures forall k :: 0 <= k < |r| ==> Tidy(r[k])
  {
    if |lines| == 0 then [] else LineSuggestions(lines[0]) + ParseLines(lines[1..])
  }

  /** `generateSongSuggestions` after the chat call: at most one suggestion per reply line, each tidy. */
  function ParseSuggestions(raw: string): (r: seq<Candidate>)
    ensures |r| <= |Split(raw, LineBreak)|
    ensures forall k :: 0 <= k < |r| ==> Tidy(r[k])
  {
    ParseLines(Split(raw, LineBreak))
  }

  /** An empty reply has no suggestions. */
  lemma EmptyReplyHasNoSuggestions()
    ensures ParseSuggestions("") == []
  {
    assert Split("", LineBreak) == [""];
    OneSuggestionPerVisibleLine("");
  }

  /** A blank line yields nothing; any other line yields exactly its own suggestion. */
  lemma OneSuggestionPerVisibleLine(line: string)
    ensures AllWhitespace(line) ==> ParseLines([line]) == []
    ensures !AllWhitespace(line) ==> ParseLines([line]) == [ParseLine(Trim(line))]
  {
    assert [line][1..] == [];
  }

  /** Parsing distributes over the lines: line order is preserved and lines do not interact. */
  lemma {:induction false} ParseLinesAppend(a: seq<string>, b: seq<string>)
    ensures ParseLines(a + b) == ParseLines(a) + ParseLines(b)
    decreases |a|
  {
    if |a| == 0 {
      assert a + b == b;
    } else {
      assert (a + b)[1..] == a[1..] + b;
      ParseLinesAppend(a[1..], b);
    }
  }

  /** A line with no separator is kept, as a suggestion with an empty artist. */
  lemma LineWithoutSeparator(line: string)
    requires !AllWhitespace(line) && Lacks(Trim(line), Separator)
    ensures ParseLines([line]) == [Candidate(Trim(line), "")]
  {
    OneSuggestionPerVisibleLine(line);
  }

  /** The `Title - Artist` line format the prompt asks the model for. */
  function FormatLine(c: Candidate): string {
    c.title + Separator + c.artist
  }

  function FormatLines(cs: seq<Candidate>): seq<string> {
    if |cs| == 0 then [] else [FormatLine(cs[0])] + FormatLines(cs[1..])
  }

  /** A reply in the requested format: one formatted line per suggestion. */
  function Render(cs: seq<Candidate>): string {
    Join(FormatLines(cs), LineBreak)
  }

  /**
   A suggestion that survives the round trip: title and artist are trimmed,
   non-empty and on one line, and the title has no dash (so no separator can
   start inside it).
   */
  predicate WellFormed(c: Candidate) {
    && c.title != "" && IsTrimmed(c.title) && '\n' !in c.title && '-' !in c.title
    && c.artist != "" && IsTrimmed(c.artist) && '\n' !in c.artist
  }

  /** Parsing a formatted line gives back its title and artist, even when the artist contains the separator. */
  lemma ParseFormattedLine(c: Candidate)
    requires WellFormed(c)
    ensures ParseLines([FormatLine(c)]) == [c]
  {
    var line := FormatLine(c);
    assert line[0] == c.title[0];
    assert line[|line| - 1] == c.artist[|c.artist| - 1];
    assert Trim(line) == line;
    assert Separator[1] == '-' && '-' !in Separator[..1];
    FirstOccurrenceAfter(c.title, Separator, c.artist, 1);
    assert line[..|c.title|] == c.title;
    assert line[|c.title| + |Separator|..] == c.artist;
    OneSuggestionPerVisibleLine(line);
  }

  lemma {:induction false} ParseFormattedLines(cs: seq<Candidate>)
    requires forall i :: 0 <= i < |cs| ==> WellFormed(cs[i])
    ensures ParseLines(FormatLines(cs)) == cs
    decreases |cs|
  {
    if |cs| > 0 {
      assert FormatLines(cs) == [FormatLine(cs[0])] + FormatLines(cs[1..]);
      ParseFormattedLines(cs[1..]);
      ParseFormattedCons(cs[0], FormatLines(cs[1..]), cs[1..]);
      assert cs == [cs[0]] + cs[1..];
    }
  }

  /** One more well-formed line in front of lines that parse to `rest` parses to one more suggestion in front. */
  lemma ParseFormattedCons(c: Candidate, lines: seq<string>, rest: seq<Candidate>)
    requires WellFormed(c) && ParseLines(lines) == rest
    ensures ParseLines([FormatLine(c)] + lines) == [c] + rest
  {
    ParseLinesAppend([FormatLine(c)], lines);
    ParseFormattedLine(c);
  }

  lemma {:induction false} FormattedLinesAreSingleLines(cs: seq<Candidate>)
    requires forall i :: 0 <= i < |cs| ==> WellFormed(cs[i])
    ensures |FormatLines(cs)| == |cs|
    ensures forall k :: 0 <= k < |cs| ==> LineBreak[0] !in FormatLines(cs)[k]
    decreases |cs|
  {
    if |cs| > 0 {
      FormattedLinesAreSingleLines(cs[1..]);
      assert FormatLines(cs)[0] == cs[0].title + Separator + cs[0].artist;
      assert forall k :: 1 <= k < |cs| ==> FormatLines(cs)[k] == FormatLines(cs[1..])[k - 1];
    }
  }

  /** Round trip: a reply in the requested format parses back to exactly the suggestions it lists. */
  lemma ParseRender(cs: seq<Candidate>)
    requires forall i :: 0 <= i < |cs| ==> WellFormed(cs[i])
    ensures ParseSuggestions(Render(cs)) == cs
  {
    if |cs| == 0 {
      EmptyReplyHasNoSuggestions();
    } else {
      FormattedLinesAreSingleLines(cs);
      SplitJoin(FormatLines(cs), LineBreak, 0);
      ParseFormattedLines(cs);
    }
  }

  /** One element of the `results` array. */
  datatype Recommendation = Recommendation(id: string, title: string, artist: string, youtubeEmbedUrl: string)

  /** The handler's answer, and the lookups it made, in order. */
  datatype Response = Response(results: seq<Recommendation>, lookups: seq<string>)

  /**
   One iteration of the loop: the suggestion is kept exactly when the lookup
   of its search text gives a truthy link, and then carries that link as both
   id and embed link, with its own title and artist.
   */
  function Resolve(lookup: string -> Option<string>, c: Candidate): (r: Option<Recommendation>)
    ensures r.Some? <==> lookup(SearchText(c)).Some? && lookup(SearchText(c)).value != ""
    ensures r.Some? ==> FromLookup(lookup, r.value) && r.value.title == c.title && r.value.artist == c.artist
  {
    match lookup(SearchText(c))
    case Some(url) => if url != "" then Some(Recommendation(url, c.title, c.artist, url)) else None
    case None => None
  }

  function Resolver(lookup: string -> Option<string>): Candidate -> Option<Recommendation> {
    c => Resolve(lookup, c)
  }

  /** What every result satisfies: id and embed link agree and are the lookup's answer for its own title and artist. */
  predicate FromLookup(lookup: string -> Option<string>, rec: Recommendation) {
    && rec.id == rec.youtubeEmbedUrl
    && rec.id != ""
    && lookup(SearchText(Candidate(rec.title, rec.artist))) == Some(rec.id)
  }

  /**
   The loop of `POST` over the parsed suggestions. The lookups are the
   suggestions' search texts, a prefix of them in order; there are at most
   ten results, which are exactly the hits among the suggestions looked up;
   no lookup happens once ten are held; and when fewer than ten resolve,
   every suggestion is looked up exactly once.
   */
  function LookUpAll(suggestions: seq<Candidate>, lookup: string -> Option<string>): (r: Response)
    ensures && |r.lookups| <= |suggestions|
            && r.lookups == SearchTexts(suggestions[..|r.lookups|])
            && |r.results| <= ResultCap
            && r.results == Hits(suggestions[..|r.lookups|], Resolver(lookup))
            && (|r.lookups| > 0 ==> |Hits(suggestions[..|r.lookups| - 1], Resolver(lookup))| < ResultCap)
            && (|r.results| < ResultCap ==> |r.lookups| == |suggestions|)
    ensures forall rec :: rec in r.results ==> FromLookup(lookup, rec)
  {
    var selected := Select(suggestions, Resolver(lookup), ResultCap);
    HitsSatisfy(suggestions[..selected.examined], Resolver(lookup), rec => FromLookup(lookup, rec));
    Response(selected.results, SearchTexts(suggestions[..selected.examined]))
  }

  /**
   `POST`: parse the reply, a missing one counting as "", then run the loop.
   No reply means no lookups and no results; otherwise the lookups are a
   prefix of the parsed suggestions' search texts, the results are the hits
   among them, at most ten, each carrying the lookup's answer for its own
   title and artist; no lookup happens once ten are held, and fewer than ten
   means every suggestion was looked up.
   */
  function Post(content: Option<string>, lookup: string -> Option<string>): (r: Response)
    ensures content.None? ==> r == Response([], [])
    ensures var suggestions := ParseSuggestions(OrElse(content, ""));
            && |r.lookups| <= |suggestions|
            && r.lookups == SearchTexts(suggestions[..|r.lookups|])
            && r.results == Hits(suggestions[..|r.lookups|], Resolver(lookup))
            && (|r.lookups| > 0 ==> |Hits(suggestions[..|r.lookups| - 1], Resolver(lookup))| < ResultCap)
            && (|r.results| < ResultCap ==> |r.lookups| == |suggestions|)
    ensures |r.results| <= ResultCap
    ensures forall rec :: rec in r.results ==> FromLookup(lookup, rec)
  {
    EmptyReplyHasNoSuggestions();
    NothingToLookUp(lookup);
    LookUpAll(ParseSuggestions(OrElse(content, "")), lookup)
  }

  /** With no suggestions the loop looks nothing up and returns nothing. */
  lemma NothingToLookUp(lookup: string -> Option<string>)
    ensures LookUpAll([], lookup) == Response([], [])
  {
    var r := LookUpAll([], lookup);
    assert r.lookups == [];
    assert r.results == Hits([], Resolver(lookup));
  }

  /** The lookup the deployed route uses: `getValidYouTubeVideoId` with the given key and API responses. */
  function YouTubeLookup(apiKey: Option<string>,
                         search: string -> ValidVideo.SearchResponse,
                         details: string -> ValidVideo.DetailsResponse): string -> Option<string> {
    q => ValidVideo.GetValidVideoId(apiKey, q, search, details).embedUrl
  }

  /** Without a YouTube key every lookup is `null`: every suggestion is looked up and nothing is returned. */
  lemma MissingKeyGivesNoResults(content: Option<string>, apiKey: Option<string>,
                                 search: string -> ValidVideo.SearchResponse,
                                 details: string -> ValidVideo.DetailsResponse)
    requires !ValidVideo.HasKey(apiKey)
    ensures var r := Post(content, YouTubeLookup(apiKey, search, details));
            r.results == [] && |r.lookups| == |ParseSuggestions(OrElse(content, ""))|
  {
    var lookup := YouTubeLookup(apiKey, search, details);
    var suggestions := ParseSuggestions(OrElse(content, ""));
    var r := Post(content, lookup);
    forall c ensures Resolver(lookup)(c).None? {
      assert lookup(SearchText(c)).None?;
    }
    HitsOfNothing(suggestions[..|r.lookups|], Resolver(lookup));
  }

  lemma LookupAnswerProperty(lookup: string -> Option<string>, rec: Recommendation, P: string -> bool)
    requires FromLookup(lookup, rec)
    requires forall q :: lookup(q).Some? ==> P(lookup(q).value)
    ensures rec.id == rec.youtubeEmbedUrl && P(rec.id)
  {
    assert lookup(SearchText(Candidate(rec.title, rec.artist))).Some?;
  }

  /** Every result carries a link the lookup produced, so a property of all the lookup's answers holds of all result ids. */
  lemma ResultsCarryLookupAnswers(content: Option<string>, lookup: string -> Option<string>, P: string -> bool)
    requires forall q :: lookup(q).Some? ==> P(lookup(q).value)
    ensures forall rec :: rec in Post(content, lookup).results ==> rec.id == rec.youtubeEmbedUrl && P(rec.id)
  {
    var r := Post(content, lookup);
    forall rec | rec in r.results
      ensures rec.id == rec.youtubeEmbedUrl && P(rec.id)
    {
      LookupAnswerProperty(lookup, rec, P);
    }
  }

  /** With the deployed lookup every result's id is a YouTube embed link. */
  lemma YouTubeResultsAreEmbeds(content: Option<string>, apiKey: Option<string>,
                                search: string -> ValidVideo.SearchResponse,
                                details: string -> ValidVideo.DetailsResponse)
    ensures forall rec :: rec in Post(content, YouTubeLookup(apiKey, search, details)).results
              ==> rec.id == rec.youtubeEmbedUrl && IsEmbedLink(rec.id)
  {
    var lookup := YouTubeLookup(apiKey, search, details);
    forall q | lookup(q).Some?
      ensures IsEmbedLink(lookup(q).value)
    {
      ValidVideo.AnswerIsEmbedLink(apiKey, q, search, details);
    }
    ResultsCarryLookupAnswers(content, lookup, IsEmbedLink);
  }
}

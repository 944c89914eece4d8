/**
 `getYouTubeSongRecommendations`: decode the chat model's reply as a JSON
 array of songs, then for each song scrape the YouTube results page for the
 first `"videoId":"…"` and keep at most ten songs that yield a non-empty id.
 The reply's `content` field, `JSON.parse` (`decode`, `None` when it throws)
 and the results-page fetch (`page`, from the unencoded search text to the
 page body) are inputs.
 */
module YouTubeScrape {
  import opened Wrappers
  import opened JsStrings
  import opened Candidates
  import opened Selection
  import opened YouTubeEmbed

  /** The literal text in front of the capture group of `/"videoId":"(.*?)"/`. */
  const VideoIdKey: string := "\"videoId\":\""

  /** What a missing or empty reply is replaced by before decoding. */
  const EmptyReply: string := "[]"

  /** A character the lazy `(.*?)` can take: `.` excludes line terminators, and the closing `"` ends it. */
  predicate IsIdChar(c: char) {
    c != '"' && !IsLineTerminator(c)
  }

  predicate IsIdText(s: string) {
    forall i :: 0 <= i < |s| ==> IsIdChar(s[i])
  }

  /** `id` followed by a closing quote starts at index `j` of `text`. */
  predicate ClosesAt(text: string, j: nat, id: string) {
    j + |id| < |text| && text[j..j + |id|] == id && text[j + |id|] == '"'
  }

  /** The regular expression matches at `pos` with `id` as its capture. */
  predicate MatchesAt(text: string, pos: nat, id: string) {
    OccursAt(text, VideoIdKey, pos) && IsIdText(id) && ClosesAt(text, pos + |VideoIdKey|, id)
  }

  /** A match: where it starts and what the group captured. */
  datatype Match = Match(pos: nat, id: string)

  /**
   The index of the quote that closes a capture starting at `j`: the first
   quote, provided no line terminator comes before it.
   */
  function CaptureEnd(text: string, j: nat): (r: Option<nat>)
    ensures r.Some? ==> j <= r.value < |text| && IsIdText(text[j..r.value]) && text[r.value] == '"'
    decreases |text| - j
  {
    if j >= |text| then None
    else if text[j] == '"' then Some(j)
    else if IsLineTerminator(text[j]) then None
    else
      IdTextExtends(text, j);
      CaptureEnd(text, j + 1)
  }

  /** A capture character in front of a capture text gives a longer capture text. */
  lemma IdTextExtends(text: string, j: nat)
    requires j < |text| && IsIdChar(text[j])
    ensures forall k :: j < k <= |text| && IsIdText(text[j + 1..k]) ==> IsIdText(text[j..k])
  {
    forall k | j < k <= |text| && IsIdText(text[j + 1..k])
      ensures IsIdText(text[j..k])
    {
      assert forall i :: 1 <= i < k - j ==> text[j..k][i] == text[j + 1..k][i - 1];
    }
  }

  /** The lazy group cannot stop anywhere but the first quote: every capture at `j` ends where `CaptureEnd` says. */
  lemma {:induction false} CaptureEndIsTheCapture(text: string, j: nat, id: string)
    requires IsIdText(id) && ClosesAt(text, j, id)
    ensures CaptureEnd(text, j) == Some(j + |id|)
    decreases |id|
  {
    if |id| > 0 {
      assert text[j] == text[j..j + |id|][0] == id[0];
      assert IsIdText(id[1..]);
      assert text[j + 1..j + 1 + |id[1..]|] == text[j..j + |id|][1..];
      CaptureEndIsTheCapture(text, j + 1, id[1..]);
    }
  }

  lemma NoCaptureNoMatch(text: string, j: nat)
    ensures CaptureEnd(text, j).None? ==> forall id :: IsIdText(id) ==> !ClosesAt(text, j, id)
  {
    forall id | IsIdText(id) && ClosesAt(text, j, id)
      ensures CaptureEnd(text, j).Some?
    {
      CaptureEndIsTheCapture(text, j, id);
    }
  }

  /** The leftmost match at or after `pos`. */
  function FindFrom(text: string, pos: nat): (r: Option<Match>)
    ensures r.Some? ==> pos <= r.value.pos && MatchesAt(text, r.value.pos, r.value.id)
    ensures r.Some? ==> forall q: nat, id :: pos <= q < r.value.pos ==> !MatchesAt(text, q, id)
    ensures r.None? ==> forall q: nat, id :: pos <= q ==> !MatchesAt(text, q, id)
    decreases |text| - pos
  {
    if pos + |VideoIdKey| >= |text| then
      None
    else if OccursAt(text, VideoIdKey, pos) && CaptureEnd(text, pos + |VideoIdKey|).Some? then
      var j := pos + |VideoIdKey|;
      Some(Match(pos, text[j..CaptureEnd(text, j).value]))
    else
      NoCaptureNoMatch(text, pos + |VideoIdKey|);
      FindFrom(text, pos + 1)
  }

  /**
   `text.match(/"videoId":"(.*?)"/)`: the leftmost position where the key is
   followed by a run of characters with no quote or line break and then a
   quote; `None` when there is no such position.
   */
  function ExtractVideoId(text: string): (r: Option<Match>)
    ensures r.Some? ==> MatchesAt(text, r.value.pos, r.value.id)
    ensures r.Some? ==> forall q: nat, id :: q < r.value.pos ==> !MatchesAt(text, q, id)
    ensures r.None? ==> forall q: nat, id :: !MatchesAt(text, q, id)
  {
    FindFrom(text, 0)
  }

  lemma CaptureIsUnique(text: string, j: nat, id1: string, id2: string)
    requires IsIdText(id1) && ClosesAt(text, j, id1)
    requires IsIdText(id2) && ClosesAt(text, j, id2)
    ensures id1 == id2
  {
    CaptureEndIsTheCapture(text, j, id1);
    CaptureEndIsTheCapture(text, j, id2);
    assert id1 == text[j..j + |id1|];
  }

  /** At a given position the capture is unique: it stops at the first quote. */
  lemma MatchIsUnique(text: string, pos: nat, id1: string, id2: string)
    requires MatchesAt(text, pos, id1) && MatchesAt(text, pos, id2)
    ensures id1 == id2
  {
    CaptureIsUnique(text, pos + |VideoIdKey|, id1, id2);
  }

  /**
   Round trip: in a page whose text before the key has no quote, the
   extracted id is exactly the one written after the key, up to its closing
   quote, whatever follows.
   */
  lemma ExtractRoundTrip(prefix: string, id: string, rest: string)
    requires '"' !in prefix && IsIdText(id)
    ensures ExtractVideoId(prefix + VideoIdKey + id + "\"" + rest) == Some(Match(|prefix|, id))
  {
    var text := prefix + VideoIdKey + id + "\"" + rest;
    WrittenIdMatches(prefix, id, rest);
    assert text[..|prefix|] == prefix;
    NoMatchInQuotelessPrefix(text, |prefix|);
    LeftmostMatchIsExtracted(text, |prefix|, id);
  }

  /** A match with none to its left is what the extraction returns. */
  lemma LeftmostMatchIsExtracted(text: string, p: nat, id: string)
    requires MatchesAt(text, p, id)
    requires forall q: nat, id' :: q < p ==> !MatchesAt(text, q, id')
    ensures ExtractVideoId(text) == Some(Match(p, id))
  {
    var r := ExtractVideoId(text);
    MatchIsUnique(text, p, id, r.value.id);
  }

  lemma WrittenIdMatches(prefix: string, id: string, rest: string)
    requires IsIdText(id)
    ensures MatchesAt(prefix + VideoIdKey + id + "\"" + rest, |prefix|, id)
  {
    var text := prefix + VideoIdKey + id + "\"" + rest;
    var p := |prefix|;
    var j := p + |VideoIdKey|;
    assert text[p..p + |VideoIdKey|] == VideoIdKey;
    assert text[j..j + |id|] == id;
    assert text[j + |id|] == '"';
  }

  /** Every match starts with a quote, so none starts where the text has no quote. */
  lemma NoMatchInQuotelessPrefix(text: string, p: nat)
    requires p <= |text| && '"' !in text[..p]
    ensures forall q: nat, id :: q < p ==> !MatchesAt(text, q, id)
  {
    forall q: nat, id | q < p
      ensures !MatchesAt(text, q, id)
    {
      assert text[q] == text[..p][q];
    }
  }

  /** One entry of the returned list: the song's own title and artist, and the embed link. */
  datatype Verified = Verified(title: string, artist: string, url: string)

  /**
   One iteration: the song is kept exactly when its results page has a match
   with a non-empty capture, and then keeps its own title and artist with the
   embed link of that capture.
   */
  function Verify(page: string -> string, song: Candidate): (r: Option<Verified>)
    ensures r.Some? <==> var m := ExtractVideoId(page(SearchText(song))); m.Some? && m.value.id != ""
    ensures r.Some? ==> FromPage(page, r.value) && r.value.title == song.title && r.value.artist == song.artist
  {
    match ExtractVideoId(page(SearchText(song)))
    case Some(m) => if m.id != "" then Some(Verified(song.title, song.artist, EmbedUrl(m.id))) else None
    case None => None
  }

  function Verifier(page: string -> string): Candidate -> Option<Verified> {
    song => Verify(page, song)
  }

  /** What every entry satisfies: its link embeds a non-empty id the song's own results page offered. */
  predicate FromPage(page: string -> string, v: Verified) {
    |v.url| > |EmbedPrefix|
    && v.url[..|EmbedPrefix|] == EmbedPrefix
    && var m := ExtractVideoId(page(SearchText(Candidate(v.title, v.artist))));
       m.Some? && m.value.id == v.url[|EmbedPrefix|..]
  }

  /** The returned list, and the search texts of the results pages fetched, in order. */
  datatype Scrape = Scrape(verified: seq<Verified>, searches: seq<string>)

  /**
   The verification loop over the decoded songs. Pages are fetched for a
   prefix of the songs, in order; the entries are exactly the songs whose page
   yields a non-empty id, at most ten of them; no page is fetched once ten are
   held; and when fewer than ten verify, every song's page is fetched once.
   */
  function VerifySongs(songs: seq<Candidate>, page: string -> string): (r: Scrape)
    ensures && |r.searches| <= |songs|
            && r.searches == SearchTexts(songs[..|r.searches|])
            && |r.verified| <= ResultCap
            && r.verified == Hits(songs[..|r.searches|], Verifier(page))
            && (|r.searches| > 0 ==> |Hits(songs[..|r.searches| - 1], Verifier(page))| < ResultCap)
            && (|r.verified| < ResultCap ==> |r.searches| == |songs|)
    ensures forall v :: v in r.verified ==> FromPage(page, v)
  {
    var selected := Select(songs, Verifier(page), ResultCap);
    HitsSatisfy(songs[..selected.examined], Verifier(page), v => FromPage(page, v));
    Scrape(selected.results, SearchTexts(songs[..selected.examined]))
  }

  /**
   The function: a reply that does not decode gives `[]` before any page is
   fetched. Otherwise pages are fetched for a prefix of the decoded songs, in
   order; the entries are exactly the hits among them; no page is fetched once
   ten are held; and fewer than ten means every song's page was fetched.
   Either way there are at most ten entries, each embedding an id its song's
   page offered.
   */
  function GetYouTubeSongRecommendations(content: Option<string>,
                                         decode: string -> Option<seq<Candidate>>,
                                         page: string -> string): (r: Scrape)
    ensures decode(OrElse(content, EmptyReply)).None? ==> r == Scrape([], [])
    ensures decode(OrElse(content, EmptyReply)).Some? ==>
              var songs := decode(OrElse(content, EmptyReply)).value;
              && |r.searches| <= |songs|
              && r.searches == SearchTexts(songs[..|r.searches|])
              && r.verified == Hits(songs[..|r.searches|], Verifier(page))
              && (|r.searches| > 0 ==> |Hits(songs[..|r.searches| - 1], Verifier(page))| < ResultCap)
              && (|r.verified| < ResultCap ==> |r.searches| == |songs|)
    ensures |r.verified| <= ResultCap
    ensures forall v :: v in r.verified ==> FromPage(page, v)
  {
    match decode(OrElse(content, EmptyReply))
    case None => Scrape([], [])
    case Some(songs) => VerifySongs(songs, page)
  }

  /** A missing reply decodes as the empty array, so nothing is fetched and nothing returned. */
  lemma MissingReplyGivesNothing(decode: string -> Option<seq<Candidate>>, page: string -> string)
    requires decode(EmptyReply) == Some([])
    ensures GetYouTubeSongRecommendations(None, decode, page) == Scrape([], [])
  {
    var selected := Select([], Verifier(page), ResultCap);
    assert selected.examined == 0;
  }
}

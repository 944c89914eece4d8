/**
 `searchSpotifyTrack`: search Spotify for one track by title and artist and
 return the id of the first hit, or `null`. The HTTP call is the parameter
 `fetch`, from request to response; URL encoding of the query is part of that
 call and not modelled.
 */
module SpotifySearch {
  import opened Wrappers
  import opened JsStrings

  const TrackField: string := "track:"
  const ArtistField: string := " artist:"

  /** The request asks for a single result. */
  const SearchLimit: nat := 1

  datatype TrackItem = TrackItem(id: string)

  datatype Tracks = Tracks(items: seq<TrackItem>)

  /** A search response; `tracks` may be missing. */
  datatype SearchResponse = SearchResponse(tracks: Option<Tracks>)

  /** The request: the unencoded query text and the result limit. */
  datatype SearchRequest = SearchRequest(query: string, limit: nat)

  /** What one call did: the request it sent and the id it returned (`null` is `None`). */
  datatype TrackSearch = TrackSearch(request: SearchRequest, trackId: Option<string>)

  /**
   The query `track:<title> artist:<artist>`. It names the title and artist
   unambiguously whenever the title does not itself contain ` artist:`:
   reading up to the first ` artist:` gives the title back, and the rest the
   artist.
   */
  function TrackQuery(title: string, artist: string): (q: string)
    ensures |q| >= |TrackField| && q[..|TrackField|] == TrackField
    ensures Lacks(title, ArtistField) ==> ParseTrackQuery(q) == Some((title, artist))
  {
    TrackQueryRoundTrip(title, artist);
    TrackField + title + ArtistField + artist
  }

  /** Reads title and artist back off a query: the text after `track:` up to the first ` artist:`, and the rest. */
  function ParseTrackQuery(query: string): Option<(string, string)> {
    if |query| < |TrackField| || query[..|TrackField|] != TrackField then None
    else
      var body := query[|TrackField|..];
      match IndexOf(body, ArtistField)
      case None => None
      case Some(i) => Some((body[..i], body[i + |ArtistField|..]))
  }

  /** The written query parses back whenever the title lacks ` artist:`; the field's closing `:` occurs nowhere earlier in it. */
  lemma TrackQueryRoundTrip(title: string, artist: string)
    ensures Lacks(title, ArtistField) ==>
              ParseTrackQuery(TrackField + title + ArtistField + artist) == Some((title, artist))
  {
    if Lacks(title, ArtistField) {
      var q := TrackField + title + ArtistField + artist;
      var body := title + ArtistField + artist;
      assert q == TrackField + body;
      assert q[|TrackField|..] == body;
      assert ArtistField[7] == ':' && ':' !in ArtistField[..7];
      FirstOccurrenceAfterLacking(title, ArtistField, artist);
      assert body[..|title|] == title;
      assert body[|title| + |ArtistField|..] == artist;
    }
  }

  /**
   The search. It asks for one result with the `track:… artist:…` query, and
   answers `null` when the response has no `tracks` or no items, otherwise the
   first item's id.
   */
  function SearchSpotifyTrack(title: string, artist: string,
                              fetch: SearchRequest -> SearchResponse): (r: TrackSearch)
    ensures r.request.limit == SearchLimit
    ensures r.request.query == TrackQuery(title, artist)
    ensures Lacks(title, ArtistField) ==> ParseTrackQuery(r.request.query) == Some((title, artist))
    ensures var response := fetch(r.request);
            r.trackId.None? <==> response.tracks.None? || |response.tracks.value.items| == 0
    ensures var response := fetch(r.request);
            r.trackId.Some? ==> r.trackId.value == response.tracks.value.items[0].id
  {
    var request := SearchRequest(TrackQuery(title, artist), SearchLimit);
    var response := fetch(request);
    if response.tracks.None? || |response.tracks.value.items| == 0 then
      TrackSearch(request, None)
    else
      TrackSearch(request, Some(response.tracks.value.items[0].id))
  }
}

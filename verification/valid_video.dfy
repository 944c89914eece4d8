/**
 `getValidYouTubeVideoId`: search the YouTube Data API for a query, then
 fetch each hit's details in search order and return the embed link of the
 first one marked embeddable. The two HTTP calls are the function parameters
 `search` (query to search response) and `details` (video id to details
 response); the API key is read from the environment.
 */
module ValidVideo {
  import opened Wrappers
  import opened YouTubeEmbed

  /** The search request asks for at most this many hits. */
  const SearchMaxResults: nat := 5

  datatype SearchItem = SearchItem(videoId: string)

  /** A search response; `items` may be missing altogether (an error body has none). */
  datatype SearchResponse = SearchResponse(items: Option<seq<SearchItem>>)

  datatype Status = Status(embeddable: Option<bool>)

  datatype VideoDetails = VideoDetails(status: Option<Status>)

  /** A details response; `items` may be missing or empty. */
  datatype DetailsResponse = DetailsResponse(items: Option<seq<VideoDetails>>)

  datatype SearchRequest = SearchRequest(query: string, maxResults: nat)

  /**
   What one call did: the link it returned (`null` is `None`), the search it
   issued if any, and the ids whose details it fetched, in order.
   */
  datatype Lookup = Lookup(embedUrl: Option<string>, search: Option<SearchRequest>, detailIds: seq<string>)

  /** `!apiKey` is false: the key is present and not the empty string. */
  predicate HasKey(apiKey: Option<string>) {
    apiKey.Some? && apiKey.value != ""
  }

  /** `detailData.items?.[0]?.status?.embeddable` is truthy; a missing item or status is not embeddable. */
  predicate IsEmbeddable(d: DetailsResponse) {
    && d.items.Some?
    && |d.items.value| > 0
    && d.items.value[0].status.Some?
    && d.items.value[0].status.value.embeddable == Some(true)
  }

  /** The ids of the search hits, in search order; none when `items` is missing. */
  function VideoIds(response: SearchResponse): (ids: seq<string>)
    ensures response.items.None? ==> ids == []
    ensures response.items.Some? ==> |ids| == |response.items.value|
    ensures response.items.Some? ==> forall i :: 0 <= i < |ids| ==> ids[i] == response.items.value[i].videoId
  {
    match response.items
    case None => []
    case Some(items) => seq(|items|, i requires 0 <= i < |items| => items[i].videoId)
  }

  /** The position of the first embeddable id at or after `from`, if any. */
  function FirstEmbeddable(ids: seq<string>, details: string -> DetailsResponse, from: nat): (k: Option<nat>)
    requires from <= |ids|
    ensures k.Some? ==> from <= k.value < |ids| && IsEmbeddable(details(ids[k.value]))
    ensures k.Some? ==> forall j :: from <= j < k.value ==> !IsEmbeddable(details(ids[j]))
    ensures k.None? ==> forall j :: from <= j < |ids| ==> !IsEmbeddable(details(ids[j]))
    decreases |ids| - from
  {
    if from == |ids| then None
    else if IsEmbeddable(details(ids[from])) then Some(from)
    else FirstEmbeddable(ids, details, from + 1)
  }

  /**
   The lookup. Without a key nothing is requested and the answer is `null`.
   Otherwise one search is issued, details are fetched for a prefix of the
   hits in search order, every fetched hit but possibly the last was not
   embeddable, and the answer is the embed link of that last one exactly when
   it is embeddable; the answer is non-null exactly when some hit is.
   */
  function GetValidVideoId(apiKey: Option<string>, query: string,
                           search: string -> SearchResponse,
                           details: string -> DetailsResponse): (r: Lookup)
    ensures !HasKey(apiKey) ==> r == Lookup(None, None, [])
    ensures HasKey(apiKey) ==> r.search == Some(SearchRequest(query, SearchMaxResults))
    ensures var ids := VideoIds(search(query));
            && |r.detailIds| <= |ids|
            && r.detailIds == ids[..|r.detailIds|]
            && (forall j :: 0 <= j < |r.detailIds| - 1 ==> !IsEmbeddable(details(r.detailIds[j])))
            && (r.embedUrl.Some? ==>
                  && |r.detailIds| > 0
                  && IsEmbeddable(details(r.detailIds[|r.detailIds| - 1]))
                  && r.embedUrl.value == EmbedUrl(r.detailIds[|r.detailIds| - 1]))
            && (r.embedUrl.None? ==> forall j :: 0 <= j < |r.detailIds| ==> !IsEmbeddable(details(r.detailIds[j])))
            && (r.embedUrl.None? && HasKey(apiKey) ==> r.detailIds == ids)
            && (r.embedUrl.Some? <==> HasKey(apiKey) && exists j :: 0 <= j < |ids| && IsEmbeddable(details(ids[j])))
  {
    if !HasKey(apiKey) then
      Lookup(None, None, [])
    else
      var request := SearchRequest(query, SearchMaxResults);
      var ids := VideoIds(search(query));
      if |ids| == 0 then
        Lookup(None, Some(request), [])
      else
        match FirstEmbeddable(ids, details, 0)
        case Some(k) => Lookup(Some(EmbedUrl(ids[k])), Some(request), ids[..k + 1])
        case None => Lookup(None, Some(request), ids)
  }

  /** Missing or empty search `items` gives `null`, after the one search request and no details request. */
  lemma NoHitsGivesNull(apiKey: Option<string>, query: string,
                        search: string -> SearchResponse, details: string -> DetailsResponse)
    requires search(query).items.None? || search(query).items == Some([])
    ensures GetValidVideoId(apiKey, query, search, details).embedUrl.None?
    ensures GetValidVideoId(apiKey, query, search, details).detailIds == []
  {
  }

  /** A non-null answer is always the embed link of one of the search hits. */
  lemma AnswerIsEmbedOfAHit(apiKey: Option<string>, query: string,
                            search: string -> SearchResponse, details: string -> DetailsResponse)
    ensures var r := GetValidVideoId(apiKey, query, search, details);
            r.embedUrl.Some? ==> exists j :: 0 <= j < |VideoIds(search(query))|
                                   && r.embedUrl.value == EmbedUrl(VideoIds(search(query))[j])
  {
    var r := GetValidVideoId(apiKey, query, search, details);
    if r.embedUrl.Some? {
      var ids := VideoIds(search(query));
      var j := |r.detailIds| - 1;
      assert r.detailIds[j] == ids[j];
    }
  }

  /** A non-null answer starts with the embed prefix. */
  lemma AnswerIsEmbedLink(apiKey: Option<string>, query: string,
                          search: string -> SearchResponse, details: string -> DetailsResponse)
    ensures var r := GetValidVideoId(apiKey, query, search, details);
            r.embedUrl.Some? ==> IsEmbedLink(r.embedUrl.value)
  {
  }
}

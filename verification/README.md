# nexthit recommendation core, in Dafny

nexthit takes a song the user loves, given as a title and an artist, and
suggests similar songs that can be played straight away. This project models
the pure decision logic of its recommendation pipeline and proves properties
about it:

- **The `/api/recommendations` route.**
  - It parses the chat model's free-text reply into `{title, artist}`
    suggestions. The reply is split into lines, each line is trimmed, blank
    lines are dropped, and each line is split on the first `" - "`.
  - It then looks each suggestion up as a YouTube embed link.
  - It keeps at most ten results and stops looking once it has ten.
- **`getValidYouTubeVideoId`.** It searches YouTube for a query. It checks
  the hits in order for the `embeddable` flag and answers with the embed link
  of the first embeddable hit. It answers `null` when there is no key, no
  hits, or no embeddable hit.
- **`getYouTubeSongRecommendations`.** It decodes the chat model's JSON
  reply into songs; a reply that does not decode gives `[]`. For each song it
  scrapes the YouTube results page for the first `"videoId":"…"`. It keeps at
  most ten songs that yield a non-empty id.
- **`getSpotifyRecommendations`.** It asks Spotify for tracks like a seed
  track. A non-OK response gives `[]`. Otherwise each track becomes the app's
  song record: artists are joined with `", "`, and the cover image is the
  first album image's url, or `null`.
- **`searchSpotifyTrack`.** It searches Spotify with
  `track:<title> artist:<artist>` and a limit of 1. It answers with the first
  item's id, or `null` when there are no tracks.

Every network call is a parameter of the model: a total function from the
request to the response. This applies to the chat model's reply, the YouTube
search and video-details APIs, the YouTube results page and Spotify. `JSON.parse`
is also a parameter, from text to decoded songs or a failure. The model then
states what the code does with whatever those calls return.

The JavaScript string behaviour the code relies on is modelled explicitly in
`JsStrings`:

- `trim` removes the ECMAScript WhiteSpace and LineTerminator characters;
- `split` with a non-empty separator gives the pieces between its
  non-overlapping, left-to-right occurrences;
- `join` of no parts is `""`;
- `x || fallback` treats the empty string as falsy.

The lazy regular expression `/"videoId":"(.*?)"/` is modelled by leftmost-match
semantics. `.` does not match a line terminator. So when the first key has no
closing quote on its line, a later key can still match.

Modules, one concept each:

- `Wrappers`: `Option`.
- `JsStrings`: trim, split and join, and their round trips. `IndexOf` is the
  first-occurrence search inside `split`; the code never calls `indexOf`
  directly.
- `Candidates`: the `{title, artist}` pair and its search text.
- `Selection`: the capped loop that both recommendation paths share.
- `YouTubeEmbed`: the embed link.
- `ValidVideo`: `lib/getValidYoutubeVideo.ts`.
- `Recommendations`: `app/api/recommendations/route.ts`.
- `YouTubeScrape`: `lib/getYoutubeSongRecommendations.ts`.
- `SpotifyRecommendations`: `lib/getSpotifyRecommendations.ts`.
- `SpotifySearch`: `lib/searchSpotifyTrack.ts`.

## Model

| member | source | states |
|---|---|---|
| JsStrings.Trim | app/api/recommendations/route.ts:20 | The trimmed line starts and ends with a visible character. It is empty exactly when the line is all whitespace. An already trimmed line is unchanged. |
| JsStrings.TrimCutsOnlyWhitespace | app/api/recommendations/route.ts:20 | `trim` removes only whitespace, and only at the two ends. What remains is the original slice between the first and the last visible character. |
| JsStrings.OrElse | app/api/recommendations/route.ts:18 | `content \|\| ''`: a present, non-empty reply is used as is. A missing or empty reply becomes the fallback. |
| JsStrings.IndexOf | app/api/recommendations/route.ts:23 | The first occurrence of the separator, as `split` finds it: it occurs there and at no earlier index. There is none exactly when the line lacks the separator. |
| JsStrings.SplitAtFirst | app/api/recommendations/route.ts:23-24 | `const [songTitle, ...rest] = line.split(' - ')`: the first piece is the text before the first separator, and `rest.join(' - ')` is the text after it. Without a separator the line is the only piece. |
| JsStrings.Split | app/api/recommendations/route.ts:19 | Splitting gives at least one piece, and no piece contains the separator. |
| JsStrings.Join | app/api/recommendations/route.ts:24 | `Array.prototype.join`: no parts give `""`, one part gives itself, and more parts start with the first part followed by the separator. `JoinSplit` and `SplitJoin` are its inverse partners with `Split`. |
| JsStrings.JoinSplit | app/api/recommendations/route.ts:23-24 | Re-joining the pieces of a split with the same separator restores the text. This is why `rest.join(' - ')` is the text after the first separator. |
| JsStrings.SplitJoin | app/api/recommendations/route.ts:19 | Splitting a join gives back the parts when no part contains a distinguishing character of the separator. This is the inverse of `JoinSplit`. |
| Recommendations.ParseLine | app/api/recommendations/route.ts:23-24 | The title is the trimmed text before the first `" - "`. The artist is the trimmed text after it, and may itself contain `" - "`. A line without a separator is all title, with an empty artist. Both come out trimmed, and a trimmed non-blank line always gives a non-empty title. |
| Recommendations.LineSuggestions | app/api/recommendations/route.ts:20-22 | One line after `.trim()`, `.filter(Boolean)` and parsing: no suggestion exactly when the line is all whitespace, otherwise one suggestion with a non-empty trimmed title and a trimmed artist. |
| Recommendations.ParseLines | app/api/recommendations/route.ts:19-25 | There are never more suggestions than lines. Every suggestion has a non-empty title, and its title and artist are trimmed. |
| Recommendations.ParseSuggestions | app/api/recommendations/route.ts:18-25 | The suggestions of a whole reply: at most one per line of the reply, each with a non-empty trimmed title and a trimmed artist. |
| Recommendations.EmptyReplyHasNoSuggestions | app/api/recommendations/route.ts:18-21 | An empty reply, which is what a missing one becomes, has no suggestions. |
| Recommendations.OneSuggestionPerVisibleLine | app/api/recommendations/route.ts:20-22 | A blank or all-whitespace line yields nothing. Any other line yields exactly the suggestion parsed from its trimmed text. |
| Recommendations.ParseLinesAppend | app/api/recommendations/route.ts:19-25 | Parsing distributes over concatenated lines, so suggestion order follows line order. |
| Recommendations.LineWithoutSeparator | app/api/recommendations/route.ts:23-24 | A visible line without `" - "` is kept, as a suggestion with an empty artist. |
| Recommendations.ParseFormattedLine | app/api/recommendations/route.ts:11-24 | A `Title - Artist` line in the format the prompt asks for parses back to that title and artist. This holds even when the artist contains `" - "`. |
| Recommendations.ParseFormattedLines | app/api/recommendations/route.ts:19-25 | A sequence of formatted lines parses back to the suggestions it lists. |
| Recommendations.FormattedLinesAreSingleLines | app/api/recommendations/route.ts:19 | There is one formatted line per suggestion, and none contains a line break. |
| Recommendations.ParseRender | app/api/recommendations/route.ts:11-25 | A whole reply in the requested format parses back to exactly its suggestions. This includes the empty list. |
| Recommendations.Resolve | app/api/recommendations/route.ts:37-46 | One iteration: the suggestion is kept exactly when the lookup of its `title artist` text gives a non-empty link. A kept suggestion keeps its title and artist, and carries that link as both id and embed link. |
| Recommendations.LookUpAll | app/api/recommendations/route.ts:35-53 | The lookups are the suggestions' `title artist` texts, a prefix of them in order. The results are exactly the hits in that prefix, and there are at most 10. Before the last lookup fewer than 10 were held. Fewer than 10 results means every suggestion was looked up. Every result has id equal to its embed link, a non-empty link, and that link is the lookup's answer for its own title and artist. |
| Recommendations.Post | app/api/recommendations/route.ts:28-56 | No reply content gives no lookups and no results. Otherwise the lookups are a prefix of the parsed suggestions' search texts, in order. The results are the hits among them, at most 10, each carrying the lookup's answer for its own title and artist. No lookup happens once 10 results are held. Fewer than 10 results means every suggestion was looked up. |
| Recommendations.MissingKeyGivesNoResults | lib/getValidYoutubeVideo.ts:2-6 | Without a YouTube key every suggestion is looked up and the route returns no results. |
| Recommendations.ResultsCarryLookupAnswers | app/api/recommendations/route.ts:38-46 | Any property of all the lookup's answers holds of every result id. |
| Recommendations.YouTubeResultsAreEmbeds | app/api/recommendations/route.ts:38-46 | With the deployed lookup, every result id is a `https://www.youtube.com/embed/` link. |
| Selection.Hits | app/api/recommendations/route.ts:36-50 | This is the uncapped reference for both loops: every hit in order. There are never more hits than candidates. |
| Selection.HitsAppend | app/api/recommendations/route.ts:36-50 | Hits distribute over concatenation. |
| Selection.Select | lib/getYoutubeSongRecommendations.ts:32-48 | The results are the hits of the examined prefix, and there are at most `cap` of them. The walk stops early only when the cap is reached. The last candidate was examined while fewer than `cap` results were held. |
| Selection.SelectIsCappedHits | app/api/recommendations/route.ts:52 | The capped loop returns exactly the first `cap` hits of the whole list. With at most `cap` hits it returns all of them; with fewer it examines every candidate. |
| Selection.SelectStopsAtCap | app/api/recommendations/route.ts:52 | No candidate is examined after the cap is reached: every examined prefix held fewer than `cap` hits. |
| Selection.HitsSatisfy | lib/getYoutubeSongRecommendations.ts:40-45 | Any property of all the resolver's answers holds of every kept result. |
| Selection.HitsOfNothing | app/api/recommendations/route.ts:40-50 | A resolver that never answers keeps nothing. |
| Candidates.SearchText | app/api/recommendations/route.ts:37 | The search text is the title, one space, then the artist: the title and the artist can be read off its two ends, and the character between them is a space. |
| YouTubeEmbed.EmbedUrl | lib/getValidYoutubeVideo.ts:27 | The link is the embed prefix followed by the video id, and the id can be read back off the link. |
| ValidVideo.VideoIds | lib/getValidYoutubeVideo.ts:13-16 | The hits' video ids, in search order. There are none when `items` is missing. |
| ValidVideo.FirstEmbeddable | lib/getValidYoutubeVideo.ts:15-29 | It finds the first embeddable position from `from` on. Every earlier position is not embeddable, and with none found no position is embeddable. |
| ValidVideo.GetValidVideoId | lib/getValidYoutubeVideo.ts:2-31 | Without a key (missing or `""`) nothing is requested and the answer is `null`. Otherwise one search is issued with `maxResults=5`, and details are fetched for a prefix of the hits in order. The answer is the embed link of the last hit fetched, which is embeddable while all earlier hits are not. A `null` answer after a search means every hit was checked. The answer is non-null exactly when the key is present and some hit is embeddable. |
| ValidVideo.NoHitsGivesNull | lib/getValidYoutubeVideo.ts:13 | Missing or empty search `items` gives `null` without any details request. |
| ValidVideo.AnswerIsEmbedOfAHit | lib/getValidYoutubeVideo.ts:15-28 | A non-null answer is the embed link of one of the search hits. |
| ValidVideo.AnswerIsEmbedLink | lib/getValidYoutubeVideo.ts:27 | A non-null answer starts with the embed prefix. |
| YouTubeScrape.CaptureEnd | lib/getYoutubeSongRecommendations.ts:39 | The lazy capture ends at the first quote. Everything before it contains no line terminator. |
| YouTubeScrape.CaptureEndIsTheCapture | lib/getYoutubeSongRecommendations.ts:39 | Any capture that closes with a quote is the one `CaptureEnd` finds. |
| YouTubeScrape.FindFrom | lib/getYoutubeSongRecommendations.ts:39 | The match found is the leftmost from the start position. Finding none means no position from there matches. |
| YouTubeScrape.ExtractVideoId | lib/getYoutubeSongRecommendations.ts:39 | `text.match(/"videoId":"(.*?)"/)`: the leftmost match and its capture, or none when nothing matches. |
| YouTubeScrape.MatchIsUnique | lib/getYoutubeSongRecommendations.ts:39 | At a given position at most one capture matches. |
| YouTubeScrape.ExtractRoundTrip | lib/getYoutubeSongRecommendations.ts:39 | A page with no quote before a written `"videoId":"<id>"` yields exactly that id, even an empty one. |
| YouTubeScrape.Verify | lib/getYoutubeSongRecommendations.ts:33-45 | One iteration: the song is kept exactly when its results page has a match with a non-empty capture. A kept song keeps its own title and artist, and its link embeds the id its page offered. |
| YouTubeScrape.VerifySongs | lib/getYoutubeSongRecommendations.ts:30-50 | Pages are fetched for a prefix of the songs in order. The entries are exactly the songs whose page yields a non-empty id, at most 10 of them. No page is fetched after 10 entries are held. Fewer than 10 entries means every page was fetched. Each entry keeps its song's title and artist, and its link embeds the id that the song's own page offered. |
| YouTubeScrape.GetYouTubeSongRecommendations | lib/getYoutubeSongRecommendations.ts:19-50 | A reply that does not decode gives `[]` with no page fetched. Otherwise pages are fetched for a prefix of the decoded songs, in order, and the entries are exactly the songs among them whose page yields a non-empty id. No page is fetched once 10 entries are held, and fewer than 10 entries means every page was fetched. There are at most 10 entries, each embedding an id its song's page offered. |
| YouTubeScrape.MissingReplyGivesNothing | lib/getYoutubeSongRecommendations.ts:20-28 | A missing reply defaults to `"[]"`, so nothing is fetched and nothing is returned. |
| SpotifyRecommendations.ArtistLine | lib/getSpotifyRecommendations.ts:27 | No artists give `""` and one artist gives just that name. |
| SpotifyRecommendations.ArtistLineRoundTrip | lib/getSpotifyRecommendations.ts:27 | Splitting the joined line on `", "` gives back every artist name in order, provided no name contains a comma. |
| SpotifyRecommendations.CoverImage | lib/getSpotifyRecommendations.ts:29 | The image is present exactly when the album, its images, a first image and that image's url all are. It is then the first image's url. |
| SpotifyRecommendations.ToSong | lib/getSpotifyRecommendations.ts:24-31 | The record copies the id and name, and passes the preview and Spotify link through. Its artist line splits back into the track's artist names. |
| SpotifyRecommendations.GetSpotifyRecommendations | lib/getSpotifyRecommendations.ts:15-33 | A non-OK response gives `[]`. Otherwise there is one record per returned track, in the same order. |
| SpotifySearch.TrackQuery | lib/searchSpotifyTrack.ts:2 | The query starts with `track:`. It reads back into exactly the title and artist whenever the title does not itself contain ` artist:`. |
| SpotifySearch.TrackQueryRoundTrip | lib/searchSpotifyTrack.ts:2 | Reading the written `track:<title> artist:<artist>` up to its first ` artist:` gives the title, and the rest gives the artist, whenever the title lacks ` artist:`. |
| SpotifySearch.SearchSpotifyTrack | lib/searchSpotifyTrack.ts:1-17 | One request with limit 1 whose query is `track:<title> artist:<artist>` for every title. The query reads back into the title and artist whenever the title lacks ` artist:`. The answer is `null` exactly when the response has no `tracks` or no items; otherwise it is the first item's id. |

## Left out

- HTTP, `async`/`await` and console logging are not modelled. Each network
  response is a function parameter, so the models assume every call returns
  and that repeating a request gives the same answer.
- `JSON.parse` of the chat reply is the `decode` parameter. Its failure is the
  `None` case, which gives `[]`. Decoded items are assumed to have string
  `title` and `artist`.
- YouTubeScrape.GetYouTubeSongRecommendations: the decoded value is assumed to
  be an array. The code iterates it with `for … of`: a reply that parses to
  `null`, a number or an object (such as `{"songs": […]}`) throws a TypeError
  there, and one that parses to a JSON string is iterated character by
  character. Neither is modelled.
- `encodeURIComponent` is not modelled. The request parameters carry the
  unencoded query text, and encoding is part of the network call.
- Bearer tokens and API keys only travel in headers or the URL and are not
  modelled. The YouTube key appears only as present or absent.
- Accesses that throw on a malformed response are not modelled. These are:
  - `completion.choices[0]` when there are no choices;
  - `item.id.videoId` when `id` is missing;
  - `data.tracks` when it is missing;
  - `data.tracks.items` when `tracks` is present without `items`.

  The model's response types always hold those fields.
- `...song` in `getYouTubeSongRecommendations` copies any extra fields the
  decoded item has. The model keeps only the title and artist.
- The prompt texts, the model names and the request bodies sent to the chat
  API are left out. So is the `POST` request's own body. Only the chat
  reply's content is modelled.
- Selection.Select: requires `cap > 0`. Both loops in the code use the
  literal 10 as the cap, so a cap of 0 does not occur. Each loop tests the cap
  at the end of every iteration, hit or miss, which is why the walk stops
  right after the candidate that brings the count to the cap.
- ValidVideo.GetValidVideoId: `embeddable` is modelled as an optional
  boolean, and only `true` is accepted. The API never sends a truthy
  non-boolean there.
- The page (`app/page.tsx`), the log and export routes, `getSimilarSongs`,
  `getSpotifyToken` and `cleanTrackInput` are not part of this model.
- The code does not strip list markers from suggestion lines. It keeps no
  denylist or session history, and does not classify quota errors. The model
  follows the code: a numbered line such as `1. Song - Artist` keeps its
  `1. ` in the title.
- Strings are sequences of Unicode scalar values. JavaScript strings are
  UTF-16 code units and can hold lone surrogates, which the model cannot
  represent. On well-formed text the two behave the same.
- The YouTube search asks for `maxResults=5`, but the code then checks every
  item the response actually holds. The model does the same, so it places no
  bound of five on the items.

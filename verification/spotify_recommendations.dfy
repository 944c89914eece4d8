/**
 `getSpotifyRecommendations`: ask Spotify's recommendations endpoint for up
 to ten tracks like a seed track and map each track to the app's song record.
 The HTTP call is the parameter `fetch`, from request URL to response; the
 bearer token only goes into a header and is not modelled.
 */
module SpotifyRecommendations {
  import opened Wrappers
  import opened JsStrings

  const RecommendationsEndpoint: string := "https://api.spotify.com/v1/recommendations?seed_tracks="

  /** The request asks for this many tracks. */
  const RecommendationsLimit: string := "&limit=10"

  /** Artist names are joined with this. */
  const ArtistSeparator: string := ", "

  datatype Artist = Artist(name: string)

  /** An album image; its `url` may be missing. */
  datatype Image = Image(url: Option<string>)

  datatype Album = Album(images: Option<seq<Image>>)

  datatype ExternalUrls = ExternalUrls(spotify: Option<string>)

  /** A track as the API returns it; `album` and `external_urls` may be missing, `preview_url` may be null. */
  datatype Track = Track(id: string, name: string, artists: seq<Artist>, previewUrl: Option<string>,
                         album: Option<Album>, externalUrls: Option<ExternalUrls>)

  /** The response: a non-OK status, or an OK body with its `tracks`. */
  datatype Response = NotOk(status: int) | Ok(tracks: seq<Track>)

  /** The app's song record. */
  datatype Song = Song(id: string, title: string, artist: string, previewUrl: Option<string>,
                       image: Option<string>, externalUrl: Option<string>)

  function RecommendationsUrl(seedTrackId: string): string {
    RecommendationsEndpoint + seedTrackId + RecommendationsLimit
  }

  function Names(artists: seq<Artist>): (names: seq<string>)
    ensures |names| == |artists|
    ensures forall i :: 0 <= i < |artists| ==> names[i] == artists[i].name
  {
    seq(|artists|, i requires 0 <= i < |artists| => artists[i].name)
  }

  /** The artist names joined in order with ", ": one artist gives just the name, none gives "". */
  function ArtistLine(artists: seq<Artist>): (line: string)
    ensures |artists| == 0 ==> line == ""
    ensures |artists| == 1 ==> line == artists[0].name
  {
    Join(Names(artists), ArtistSeparator)
  }

  /** The joined line keeps every name, in order: splitting it on ", " gives them back when no name has a comma. */
  lemma ArtistLineRoundTrip(artists: seq<Artist>)
    ensures |artists| >= 1 && (forall i :: 0 <= i < |artists| ==> ',' !in artists[i].name) ==>
              Split(ArtistLine(artists), ArtistSeparator) == Names(artists)
  {
    if |artists| >= 1 && (forall i :: 0 <= i < |artists| ==> ',' !in artists[i].name) {
      assert ArtistSeparator[0] == ',' && ArtistSeparator[..0] == [];
      SplitJoin(Names(artists), ArtistSeparator, 0);
    }
  }

  /** `track.album?.images?.[0]?.url ?? null`: present only when the album, its images, a first image and its url all are. */
  function CoverImage(album: Option<Album>): (image: Option<string>)
    ensures image.Some? <==> && album.Some? && album.value.images.Some?
                             && |album.value.images.value| > 0
                             && album.value.images.value[0].url.Some?
    ensures image.Some? ==> image == album.value.images.value[0].url
  {
    match album
    case None => None
    case Some(a) =>
      match a.images
      case None => None
      case Some(images) => if |images| == 0 then None else images[0].url
  }

  /** The record for one track: id and name copied, artists joined, preview and Spotify link passed through. */
  function ToSong(track: Track): (song: Song)
    ensures song.id == track.id && song.title == track.name
    ensures song.artist == ArtistLine(track.artists)
    ensures song.previewUrl == track.previewUrl
    ensures song.image == CoverImage(track.album)
    ensures song.externalUrl == (if track.externalUrls.Some? then track.externalUrls.value.spotify else None)
    ensures |track.artists| >= 1 && (forall i :: 0 <= i < |track.artists| ==> ',' !in track.artists[i].name) ==>
              Split(song.artist, ArtistSeparator) == Names(track.artists)
  {
    ArtistLineRoundTrip(track.artists);
    Song(track.id, track.name, ArtistLine(track.artists), track.previewUrl, CoverImage(track.album),
         match track.externalUrls case Some(urls) => urls.spotify case None => None)
  }

  /** A non-OK response gives `[]`; otherwise one record per returned track, in the same order. */
  function GetSpotifyRecommendations(seedTrackId: string, fetch: string -> Response): (songs: seq<Song>)
    ensures fetch(RecommendationsUrl(seedTrackId)).NotOk? ==> songs == []
    ensures fetch(RecommendationsUrl(seedTrackId)).Ok? ==>
              var tracks := fetch(RecommendationsUrl(seedTrackId)).tracks;
              && |songs| == |tracks|
              && forall i :: 0 <= i < |songs| ==> songs[i] == ToSong(tracks[i])
  {
    match fetch(RecommendationsUrl(seedTrackId))
    case NotOk(_) => []
    case Ok(tracks) => seq(|tracks|, i requires 0 <= i < |tracks| => ToSong(tracks[i]))
  }
}

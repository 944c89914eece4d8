/** Embed links, the playable reference both YouTube paths hand back. */
module YouTubeEmbed {

  const EmbedPrefix: string := "https://www.youtube.com/embed/"

  /** The embed link of a video: the fixed prefix followed by the id, which can be read back off it. */
  function EmbedUrl(videoId: string): (url: string)
    ensures |url| == |EmbedPrefix| + |videoId|
    ensures url[..|EmbedPrefix|] == EmbedPrefix
    ensures url[|EmbedPrefix|..] == videoId
  {
    EmbedPrefix + videoId
  }

  /** A string is an embed link when it starts with the embed prefix. */
  predicate IsEmbedLink(url: string) {
    |url| >= |EmbedPrefix| && url[..|EmbedPrefix|] == EmbedPrefix
  }
}

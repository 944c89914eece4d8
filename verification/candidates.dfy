/** The `{ title, artist }` record both recommendation paths work on. */
module Candidates {

  /** A song named by title and artist: a parsed suggestion, or one record of a decoded model reply. */
  datatype Candidate = Candidate(title: string, artist: string)

  /** The catalog search text for a candidate: its title, one space, its artist, which can be read off its two ends. */
  function SearchText(c: Candidate): (s: string)
    ensures |s| == |c.title| + 1 + |c.artist|
    ensures s[..|c.title|] == c.title && s[|c.title| + 1..] == c.artist
    ensures s[|c.title|] == ' '
  {
    var s := c.title + " " + c.artist;
    assert s[..|c.title|] == c.title && s[|c.title| + 1..] == c.artist;
    s
  }

  /** The search texts of a list of candidates, in order. */
  function SearchTexts(cs: seq<Candidate>): (qs: seq<string>)
    ensures |qs| == |cs|
    ensures forall i :: 0 <= i < |cs| ==> qs[i] == SearchText(cs[i])
  {
    seq(|cs|, i requires 0 <= i < |cs| => SearchText(cs[i]))
  }
}

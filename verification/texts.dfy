/** Splitting text at a separator character, as `text.split(sep)[0]` does. */
module Texts {

  /** The text before the first `sep`, or all of it when `sep` does not occur. */
  function UpTo(s: string, sep: char): (r: string)
    ensures r <= s && sep !in r
    ensures |r| == |s| || s[|r|] == sep
  {
    if |s| == 0 || s[0] == sep then "" else [s[0]] + UpTo(s[1..], sep)
  }

  /** Text that does not contain `sep`, followed by nothing or by `sep`, is what comes
      back. */
  lemma UpToOf(p: string, sep: char, tail: string)
    requires sep !in p && (tail == "" || tail[0] == sep)
    ensures UpTo(p + tail, sep) == p
  {
    var r := UpTo(p + tail, sep);
    assert r == (p + tail)[..|p|] == p;
  }
}

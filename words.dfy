/**
  What the three `first_word` listings compute: the position of the first
  ASCII space in a string's bytes, which ends its first word.
*/
module Words {
  import opened Ascii

  /** The index of the first space in `s`, or `|s|` when it has none. */
  function FirstSpace(s: seq<byte>): (i: nat)
    ensures i <= |s|
    ensures i < |s| ==> s[i] == SPACE
    ensures forall k :: 0 <= k < i ==> s[k] != SPACE
  {
    if s == [] || s[0] == SPACE then 0 else 1 + FirstSpace(s[1..])
  }

  predicate NoSpace(s: seq<byte>) {
    forall k :: 0 <= k < |s| ==> s[k] != SPACE
  }

  /** The first word: the bytes before the first space. */
  function FirstWordOf(s: seq<byte>): (w: seq<byte>)
    ensures w <= s && NoSpace(w)
    ensures |w| < |s| ==> s[|w|] == SPACE
  {
    s[..FirstSpace(s)]
  }

  /** The three properties of FirstSpace single out one index. */
  lemma FirstSpaceUnique(s: seq<byte>, i: nat)
    requires i <= |s| && (i < |s| ==> s[i] == SPACE)
    requires forall k :: 0 <= k < i ==> s[k] != SPACE
    ensures i == FirstSpace(s)
  {
  }

  /** A string without spaces is one word: the scan runs to its end. */
  lemma NoSpaceIsOneWord(s: seq<byte>)
    ensures NoSpace(s) <==> FirstSpace(s) == |s|
  {
  }

  /** The first word is the longest prefix free of spaces. */
  lemma FirstWordIsLongest(s: seq<byte>, p: seq<byte>)
    requires p <= s && NoSpace(p)
    ensures |p| <= |FirstWordOf(s)|
  {
  }

  /** The first word of a word followed by a space and any text is that word. */
  lemma FirstWordOfPhrase(w: seq<byte>, rest: seq<byte>)
    requires NoSpace(w)
    ensures FirstWordOf(w + [SPACE] + rest) == w
  {
    var s := w + [SPACE] + rest;
    assert s[|w|] == SPACE;
    FirstSpaceUnique(s, |w|);
    assert s[..|w|] == w;
  }

  /** Taking the first word of a first word changes nothing. */
  lemma FirstWordIdempotent(s: seq<byte>)
    ensures FirstWordOf(FirstWordOf(s)) == FirstWordOf(s)
  {
    var w := FirstWordOf(s);
    NoSpaceIsOneWord(w);
    assert w[..|w|] == w;
  }

  /** The first space is a character boundary in any UTF-8 text, so slicing
      there never panics. */
  lemma FirstSpaceIsCharBoundary(s: seq<byte>)
    ensures IsCharBoundary(s, FirstSpace(s))
  {
  }
}

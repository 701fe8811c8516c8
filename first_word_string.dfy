/** `first_word(s: &String) -> &str`: the same prefix scan over a `String`. */
module FirstWordString {
  import opened Ascii
  import opened Words

  /** Returns `&s[0..i]` at the first space `i`, or `&s[..]`. */
  method FirstWord(s: seq<byte>) returns (word: seq<byte>)
    ensures word <= s
    ensures forall k :: 0 <= k < |word| ==> word[k] != SPACE
    ensures |word| < |s| ==> s[|word|] == SPACE
    ensures word == FirstWordOf(s)
  {
    for i := 0 to |s|
      invariant forall k :: 0 <= k < i ==> s[k] != SPACE
    {
      if s[i] == SPACE {
        return Slice(s, 0, i);
      }
    }
    return Slice(s, 0, |s|);
  }

  /** The call in the listing's `main`, before the `s.clear()` that the
      borrow checker rejects: the first word of "hola mundo" is "hola". */
  method FirstWordBeforeClear() returns (word: seq<byte>)
    ensures word == FromString("hola")
  {
    var s := FromString("hola mundo");
    assert s[4] == SPACE;
    word := FirstWord(s);
    assert s[..4] == FromString("hola");
  }
}

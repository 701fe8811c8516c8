/** `first_word(s: &str) -> &str`: the first word as a slice of `s`. */
module FirstWordSlice {
  import opened Ascii
  import opened Words

  /** Scans the bytes left to right; at the first space it returns `&s[0..i]`,
      and `&s[..]` when there is none. */
  method FirstWord(s: seq<byte>) returns (word: seq<byte>)
    ensures word <= s
    ensures forall k :: 0 <= k < |word| ==> word[k] != SPACE
    ensures |word| < |s| ==> s[|word|] == SPACE
    ensures |word| == FirstSpace(s)
  {
    for i := 0 to |s|
      invariant forall k :: 0 <= k < i ==> s[k] != SPACE
    {
      if s[i] == SPACE {
        return Slice(s, 0, i);
      }
    }
    return Slice(s, 0, |s|);
  }

  /** The listing's `main`: "hola mundo" as a slice of a `String`, as a slice
      of a literal and as the literal itself all give "hola". */
  method HolaMundo() returns (ofString: seq<byte>, ofSlice: seq<byte>, ofLiteral: seq<byte>)
    ensures ofString == ofSlice == ofLiteral == FromString("hola")
  {
    var myString := FromString("hola mundo");
    var literal := FromString("hola mundo");
    var hola := FromString("hola");
    assert myString[4] == SPACE;
    FirstSpaceUnique(myString, 4);
    ofString := FirstWord(Slice(myString, 0, |myString|));
    ofSlice := FirstWord(Slice(literal, 0, |literal|));
    ofLiteral := FirstWord(literal);
    assert myString[..4] == hola;
  }
}

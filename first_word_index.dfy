/** `first_word(s: &String) -> usize`: the index where the first word ends. */
module FirstWordIndex {
  import opened Ascii
  import opened Words

  /** Scans the bytes left to right and returns the index of the first space,
      or the length when there is none. */
  method FirstWord(s: seq<byte>) returns (i: nat)
    ensures i <= |s|
    ensures i < |s| ==> s[i] == SPACE
    ensures forall k :: 0 <= k < i ==> s[k] != SPACE
    ensures i == FirstSpace(s)
  {
    for j := 0 to |s|
      invariant forall k :: 0 <= k < j ==> s[k] != SPACE
    {
      if s[j] == SPACE {
        return j;
      }
    }
    return |s|;
  }

  /** The listing's `main`: the index taken from "hola mundo" is 4, and after
      `s.clear()` it is still 4 while the string is empty, so it indexes
      nothing. */
  method IndexOutlivesClear() returns (word: nat, len: nat)
    ensures word == 4 && len == 0
    ensures word >= len
  {
    var s := FromString("hola mundo");
    assert s[4] == SPACE;
    word := FirstWord(s);
    s := [];
    len := |s|;
  }
}

/**
  The byte-level view of Rust strings that the listings rely on: a `String`
  or `&str` is its UTF-8 bytes, and the only library operations used on it are
  `trim`, `parse` into an unsigned integer, slicing at a byte index and the
  decimal rendering of `{}`. All of them are modelled on ASCII:
  - `trim` removes the ASCII whitespace bytes 0x09..0x0D and 0x20 at both ends;
  - `parse` accepts an optional `+` followed by decimal digits.
*/
module Ascii {
  import opened Wrappers

  type byte = x: int | 0 <= x < 256

  const U32_MAX: nat := 0xFFFF_FFFF
  /** `usize` on a 64-bit target. */
  const USIZE_MAX: nat := 0xFFFF_FFFF_FFFF_FFFF

  type u32 = x: int | 0 <= x <= U32_MAX
  type usize = x: int | 0 <= x <= USIZE_MAX

  const SPACE: byte := 0x20
  const PLUS: byte := 0x2B
  const ZERO: byte := 0x30
  const NEWLINE: byte := 0x0A

  /** The bytes of an ASCII string literal. */
  function FromString(s: string): seq<byte>
    requires forall k :: 0 <= k < |s| ==> s[k] as int < 128
  {
    seq(|s|, k requires 0 <= k < |s| => s[k] as int)
  }

  predicate IsWhitespace(b: byte) {
    b == SPACE || 0x09 <= b <= 0x0D
  }

  predicate AllWhitespace(s: seq<byte>) {
    forall k :: 0 <= k < |s| ==> IsWhitespace(s[k])
  }

  /** `str::trim_start`: drops leading whitespace. */
  function TrimStart(s: seq<byte>): seq<byte> {
    if s != [] && IsWhitespace(s[0]) then TrimStart(s[1..]) else s
  }

  /** `str::trim_end`: drops trailing whitespace. */
  function TrimEnd(s: seq<byte>): seq<byte> {
    if s != [] && IsWhitespace(s[|s| - 1]) then TrimEnd(s[..|s| - 1]) else s
  }

  /** `str::trim`: the text between the leading and the trailing whitespace. */
  function Trim(s: seq<byte>): seq<byte> {
    TrimEnd(TrimStart(s))
  }

  /** `trim_start` removes a whitespace prefix and stops at the first other byte. */
  lemma {:induction false} TrimStartShape(s: seq<byte>)
    ensures |TrimStart(s)| <= |s| && TrimStart(s) == s[|s| - |TrimStart(s)|..]
    ensures AllWhitespace(s[..|s| - |TrimStart(s)|])
    ensures TrimStart(s) != [] ==> !IsWhitespace(TrimStart(s)[0])
  {
    if s != [] && IsWhitespace(s[0]) {
      TrimStartShape(s[1..]);
      var n := |s| - |TrimStart(s)|;
      assert s[..n] == [s[0]] + s[1..][..n - 1];
    }
  }

  /** `trim_end` removes a whitespace suffix and stops at the last other byte. */
  lemma {:induction false} TrimEndShape(s: seq<byte>)
    ensures |TrimEnd(s)| <= |s| && TrimEnd(s) == s[..|TrimEnd(s)|]
    ensures AllWhitespace(s[|TrimEnd(s)|..])
    ensures TrimEnd(s) != [] ==> !IsWhitespace(TrimEnd(s)[|TrimEnd(s)| - 1])
  {
    if s != [] && IsWhitespace(s[|s| - 1]) {
      TrimEndShape(s[..|s| - 1]);
      var n := |TrimEnd(s)|;
      assert s[n..] == s[..|s| - 1][n..] + [s[|s| - 1]];
    }
  }

  /** `trim` leaves a contiguous part of the text that neither starts nor
      ends with whitespace, and removes only whitespace around it. */
  lemma TrimShape(s: seq<byte>)
    ensures |Trim(s)| <= |s|
    ensures Trim(s) != [] ==> !IsWhitespace(Trim(s)[0]) && !IsWhitespace(Trim(s)[|Trim(s)| - 1])
    ensures exists a ::
      && 0 <= a <= |s| - |Trim(s)|
      && Trim(s) == s[a..a + |Trim(s)|]
      && AllWhitespace(s[..a]) && AllWhitespace(s[a + |Trim(s)|..])
  {
    var t := TrimStart(s);
    TrimStartShape(s);
    TrimEndShape(t);
    var a := |s| - |t|;
    var r := Trim(s);
    assert r == s[a..a + |r|];
    assert s[a + |r|..] == t[|r|..];
  }

  lemma {:induction false} TrimStartOfWhitespacePrefix(pre: seq<byte>, t: seq<byte>)
    requires AllWhitespace(pre)
    requires t != [] ==> !IsWhitespace(t[0])
    ensures TrimStart(pre + t) == t
  {
    if pre != [] {
      assert (pre + t)[1..] == pre[1..] + t;
      TrimStartOfWhitespacePrefix(pre[1..], t);
    } else {
      assert pre + t == t;
    }
  }

  lemma {:induction false} TrimEndOfWhitespaceSuffix(t: seq<byte>, post: seq<byte>)
    requires AllWhitespace(post)
    requires t != [] ==> !IsWhitespace(t[|t| - 1])
    ensures TrimEnd(t + post) == t
  {
    if post != [] {
      assert (t + post)[..|t + post| - 1] == t + post[..|post| - 1];
      TrimEndOfWhitespaceSuffix(t, post[..|post| - 1]);
    } else {
      assert t + post == t;
    }
  }

  /** Trim recovers exactly the text that whitespace surrounds, such as a line
      together with the newline that `read_line` keeps. */
  lemma TrimSurrounded(pre: seq<byte>, t: seq<byte>, post: seq<byte>)
    requires AllWhitespace(pre) && AllWhitespace(post)
    requires t != [] ==> !IsWhitespace(t[0]) && !IsWhitespace(t[|t| - 1])
    ensures Trim(pre + t + post) == t
  {
    if t == [] {
      assert pre + t + post == pre + post;
      TrimStartOfWhitespacePrefix(pre + post, []);
      assert pre + post + [] == pre + post;
    } else {
      assert pre + t + post == pre + (t + post);
      TrimStartOfWhitespacePrefix(pre, t + post);
      TrimEndOfWhitespaceSuffix(t, post);
    }
  }

  /** The newline that `read_line` keeps after a typed number is trimmed off. */
  lemma TrimTypedNumber(n: nat)
    ensures Trim(Show(n) + [NEWLINE]) == Show(n)
  {
    var none: seq<byte> := [];
    assert none + Show(n) + [NEWLINE] == Show(n) + [NEWLINE];
    TrimSurrounded(none, Show(n), [NEWLINE]);
  }

  /** Trimming twice is trimming once. */
  lemma TrimIdempotent(s: seq<byte>)
    ensures Trim(Trim(s)) == Trim(s)
  {
    var t := Trim(s);
    TrimShape(s);
    var none: seq<byte> := [];
    assert AllWhitespace(none);
    assert none + t + none == t;
    TrimSurrounded(none, t, none);
    assert Trim(t) == t;
  }

  predicate IsDigit(b: byte) {
    ZERO <= b <= ZERO + 9
  }

  predicate AllDigits(d: seq<byte>) {
    forall k :: 0 <= k < |d| ==> IsDigit(d[k])
  }

  /** The number a string of decimal digits denotes, most significant first. */
  function Value(d: seq<byte>): nat
    requires AllDigits(d)
  {
    if d == [] then 0 else 10 * Value(d[..|d| - 1]) + (d[|d| - 1] - ZERO)
  }

  /** The position of the first byte that is not a decimal digit, or |d|. */
  function FirstNonDigit(d: seq<byte>): (k: nat)
    ensures k <= |d|
    ensures k < |d| ==> !IsDigit(d[k])
    ensures AllDigits(d[..k])
  {
    if d == [] || !IsDigit(d[0]) then 0
    else
      var k := 1 + FirstNonDigit(d[1..]);
      assert d[..k] == [d[0]] + d[1..][..k - 1];
      k
  }

  /** Why `parse` rejects a text, as the kinds of Rust's `ParseIntError`. */
  datatype ParseError = Empty | InvalidDigit | PosOverflow

  /**
    `str::parse` into an unsigned type whose largest value is `max`. Digits are
    read left to right, so when the digits before the first bad byte already
    exceed `max` the error is PosOverflow rather than InvalidDigit.
  */
  function ParseUnsigned(s: seq<byte>, max: nat): (r: Result<nat, ParseError>)
    ensures r.Ok? ==> r.value <= max
    ensures r == Err(Empty) <==> s == []
  {
    if s == [] then Err(Empty)
    else
      var d := if s[0] == PLUS then s[1..] else s;
      if d == [] then Err(InvalidDigit)
      else
        var k := FirstNonDigit(d);
        if Value(d[..k]) > max then Err(PosOverflow)
        else if k < |d| then Err(InvalidDigit)
        else
          assert d[..k] == d;
          Ok(Value(d))
  }

  /** Only an optional `+` and a non-empty string of digits parse, to the
      number the digits denote. */
  lemma ParsedTextIsDigits(s: seq<byte>, max: nat)
    requires ParseUnsigned(s, max).Ok?
    ensures var d := if s[0] == PLUS then s[1..] else s;
      d != [] && AllDigits(d) && ParseUnsigned(s, max).value == Value(d)
  {
    var d := if s[0] == PLUS then s[1..] else s;
    assert d[..FirstNonDigit(d)] == d;
  }

  /** Conversely, any non-empty run of digits, with or without a `+`,
      parses to the number it denotes when that fits, and overflows when it
      does not; leading zeros are accepted. */
  lemma DigitsParse(d: seq<byte>, max: nat)
    requires d != [] && AllDigits(d)
    ensures Value(d) <= max ==> ParseUnsigned(d, max) == Ok(Value(d))
    ensures Value(d) <= max ==> ParseUnsigned([PLUS] + d, max) == Ok(Value(d))
    ensures Value(d) > max ==> ParseUnsigned(d, max) == Err(PosOverflow)
    ensures Value(d) > max ==> ParseUnsigned([PLUS] + d, max) == Err(PosOverflow)
  {
    assert FirstNonDigit(d) == |d|;
    assert d[..|d|] == d;
    assert d[0] != PLUS;
    assert ([PLUS] + d)[1..] == d;
  }

  /** The decimal rendering of `n`, as `{}` prints it. */
  function Show(n: nat): (r: seq<byte>)
    ensures r != [] && AllDigits(r)
  {
    if n < 10 then [ZERO + n] else Show(n / 10) + [ZERO + n % 10]
  }

  lemma {:induction false} ValueOfShow(n: nat)
    ensures Value(Show(n)) == n
  {
    if n >= 10 {
      var s := Show(n);
      assert s[..|s| - 1] == Show(n / 10);
      ValueOfShow(n / 10);
    }
  }

  /** `parse` inverts `{}` on every value the type can hold, and reports
      overflow for every larger number. */
  lemma ParseShow(n: nat, max: nat)
    ensures n <= max ==> ParseUnsigned(Show(n), max) == Ok(n)
    ensures n <= max ==> ParseUnsigned([PLUS] + Show(n), max) == Ok(n)
    ensures n > max ==> ParseUnsigned(Show(n), max) == Err(PosOverflow)
  {
    var d := Show(n);
    ValueOfShow(n);
    assert d[0] != PLUS;
    assert FirstNonDigit(d) == |d|;
    assert d[..|d|] == d;
    assert ([PLUS] + d)[1..] == d;
  }

  /** Rust's `str::is_char_boundary`: `i` does not fall inside a multi-byte
      UTF-8 sequence, whose continuation bytes are 0x80..0xBF. */
  predicate IsCharBoundary(s: seq<byte>, i: nat) {
    i == 0 || i == |s| || (i < |s| && !(0x80 <= s[i] < 0xC0))
  }

  /** `&s[lo..hi]` on a `str`: it panics unless both bounds are in range and
      on character boundaries, which the precondition states. */
  function Slice(s: seq<byte>, lo: nat, hi: nat): seq<byte>
    requires lo <= hi <= |s|
    requires IsCharBoundary(s, lo) && IsCharBoundary(s, hi)
  {
    s[lo..hi]
  }
}

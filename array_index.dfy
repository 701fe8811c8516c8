/** Reading an index from a line and looking it up in a five-element array;
    a number past the end panics at the access `a[index]`. */
module ArrayIndex {
  import opened Wrappers
  import opened Ascii

  /** `let a = [1, 2, 3, 4, 5];` */
  const A: seq<int> := [1, 2, 3, 4, 5]

  datatype Panic =
    | NotANumber(error: ParseError)        // `expect("El índice no es un número")`
    | OutOfBounds(len: nat, index: usize)  // the bounds check of `a[index]`

  datatype Run =
    | Printed(index: usize, element: int)  // the final `println!`
    | Panicked(panic: Panic)

  /** `index.trim().parse::<usize>()`. */
  function ParseIndex(line: seq<byte>): Result<usize, ParseError> {
    match ParseUnsigned(Trim(line), USIZE_MAX)
    case Ok(n) => Ok(n)
    case Err(e) => Err(e)
  }

  /** The body of `main` after `read_line` has put `line` in the buffer. */
  function Lookup(line: seq<byte>): (run: Run)
    ensures run.Printed? <==> ParseIndex(line).Ok? && ParseIndex(line).value < 5
    ensures run.Printed? ==> ParseIndex(line) == Ok(run.index) && run.element == run.index + 1
    ensures run.Panicked? && run.panic.OutOfBounds? <==> ParseIndex(line).Ok? && ParseIndex(line).value >= 5
    ensures run.Panicked? && run.panic.OutOfBounds? ==> run.panic == OutOfBounds(5, ParseIndex(line).value)
    ensures run.Panicked? && run.panic.NotANumber? <==> ParseIndex(line).Err?
    ensures ParseIndex(line).Err? ==> run == Panicked(NotANumber(ParseIndex(line).error))
  {
    match ParseIndex(line)
    case Err(e) => Panicked(NotANumber(e))
    case Ok(index) =>
      if index < |A| then Printed(index, A[index]) else Panicked(OutOfBounds(|A|, index))
  }

  /** `main`: `read_line` fills the fresh buffer `index` with `line`, then
      the text is parsed and the array indexed. */
  method RunProgram(line: seq<byte>) returns (run: Run)
    ensures run == Lookup(line)
  {
    var index: seq<byte> := [];
    index := index + line;
    assert index == line;
    var parsed := ParseIndex(index);
    if parsed.Err? {
      return Panicked(NotANumber(parsed.error));
    }
    var i := parsed.value;
    if i >= |A| {
      return Panicked(OutOfBounds(|A|, i));
    }
    var element := A[i];
    run := Printed(i, element);
  }

  /** Typing a number and Enter: 0 to 4 prints the element `n + 1`,
      anything larger that fits a `usize` panics out of bounds. */
  lemma LookupTypedNumber(n: usize)
    ensures n < 5 ==> Lookup(Show(n) + [NEWLINE]) == Printed(n, n + 1)
    ensures n >= 5 ==> Lookup(Show(n) + [NEWLINE]) == Panicked(OutOfBounds(5, n))
  {
    TrimTypedNumber(n);
    ParseShow(n, USIZE_MAX);
  }

  /** An empty line, which `read_line` also gives at end of input, is not a
      number. */
  lemma LookupEmptyLine()
    ensures Lookup([NEWLINE]) == Panicked(NotANumber(Empty))
    ensures Lookup([]) == Panicked(NotANumber(Empty))
  {
    var none: seq<byte> := [];
    assert none + none + [NEWLINE] == [NEWLINE];
    TrimSurrounded(none, none, [NEWLINE]);
    assert none + none + none == none;
    TrimSurrounded(none, none, none);
  }
}

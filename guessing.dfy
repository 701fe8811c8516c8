/**
  The rounds of the guessing game as a function of the secret and a finite
  script of input lines. Each round reads one line, trims it and parses it as
  a `u32`; a parsed guess is echoed and compared with the secret. The listings
  differ in what a line that does not parse does (skip it or panic) and in
  what a correct guess does (leave the loop or not); `Play` takes both as
  parameters, and each listing's loop is proved to compute it.
*/
module Guessing {
  import opened Wrappers
  import opened Ascii

  /** `gen_range(1..101)` draws from the half-open range 1..101. */
  const SECRET_LOW: nat := 1
  const SECRET_END: nat := 101

  predicate IsSecret(n: int) {
    SECRET_LOW <= n < SECRET_END
  }

  datatype Ordering = Less | Equal | Greater

  /** `guess.cmp(&secret_number)`. */
  function Compare(guess: u32, secret: u32): (o: Ordering)
    ensures o == Less <==> guess < secret
    ensures o == Equal <==> guess == secret
    ensures o == Greater <==> guess > secret
  {
    if guess < secret then Less else if guess > secret then Greater else Equal
  }

  /** What the loop makes of one input line: `guess.trim().parse::<u32>()`. */
  type Reading = Result<u32, ParseError>

  function ParseGuess(line: seq<byte>): Reading {
    match ParseUnsigned(Trim(line), U32_MAX)
    case Ok(n) => Ok(n)
    case Err(e) => Err(e)
  }

  /** The readings of a script of input lines, line by line. */
  function Readings(lines: seq<seq<byte>>): seq<Reading> {
    seq(|lines|, k requires 0 <= k < |lines| => ParseGuess(lines[k]))
  }

  /** Each line is read on its own: the readings of a script split anywhere
      are the readings of the two parts, one after the other. */
  lemma ReadingsAppend(a: seq<seq<byte>>, b: seq<seq<byte>>)
    ensures Readings(a + b) == Readings(a) + Readings(b)
  {
    assert forall k :: 0 <= k < |b| ==> (a + b)[|a| + k] == b[k];
  }

  /** What the program prints, apart from its prompts. */
  datatype Event =
    | SecretShown(secret: u32)     // "El número secreto es: {}"
    | Echo(guess: u32)             // "Su suposición: {}"
    | Verdict(ordering: Ordering)  // "Demasiado pequeño!", "Demasiado grande!" or "Acertó!"

  /** How a run ends: `main` returns, a parse failure panics, or the script
      runs out while the program still waits for a line. */
  datatype Stop = Finished | Panicked(error: ParseError) | OutOfInput

  /** The events printed, the number of lines read, and how the run ended. */
  datatype Outcome = Outcome(events: seq<Event>, consumed: nat, stop: Stop)

  /** `Err(_) => continue` or `.expect("Por favor, deme un numero!")`. */
  datatype OnBadLine = Skip | Panic

  /** `Ordering::Equal` ends with `break`, or not. */
  datatype OnEqual = Break | KeepGoing

  /** An outcome preceded by `events` printed while reading `consumed` lines. */
  function Then(events: seq<Event>, consumed: nat, o: Outcome): Outcome {
    Outcome(events + o.events, consumed + o.consumed, o.stop)
  }

  /** What one parsed guess prints: its echo, then its verdict. */
  function RoundEvents(secret: u32, guess: u32): seq<Event> {
    [Echo(guess), Verdict(Compare(guess, secret))]
  }

  /** The loop of the guessing game over the readings of its input lines. */
  function Play(bad: OnBadLine, eq: OnEqual, secret: u32, rs: seq<Reading>): (o: Outcome)
    ensures o.consumed <= |rs|
    ensures o.stop == OutOfInput ==> o.consumed == |rs|
    ensures o.stop != OutOfInput ==> 0 < o.consumed
    ensures o.stop == Finished ==> eq == Break
    ensures o.stop.Panicked? ==> bad == Panic
    ensures forall k :: 0 <= k < |o.events| ==> !o.events[k].SecretShown?
    decreases |rs|
  {
    if rs == [] then Outcome([], 0, OutOfInput)
    else
      match rs[0]
      case Err(e) =>
        if bad.Skip? then Then([], 1, Play(bad, eq, secret, rs[1..]))
        else Outcome([], 1, Panicked(e))
      case Ok(guess) =>
        if eq.Break? && guess == secret then Outcome(RoundEvents(secret, guess), 1, Finished)
        else Then(RoundEvents(secret, guess), 1, Play(bad, eq, secret, rs[1..]))
  }

  lemma ThenNothing(o: Outcome)
    ensures Then([], 0, o) == o
  {
    assert [] + o.events == o.events;
  }

  lemma ThenThen(e1: seq<Event>, n1: nat, e2: seq<Event>, n2: nat, o: Outcome)
    ensures Then(e1, n1, Then(e2, n2, o)) == Then(e1 + e2, n1 + n2, o)
  {
    assert e1 + (e2 + o.events) == e1 + e2 + o.events;
  }

  /** The steps of `Play` as the loops of the listings take them: the run
      on the readings from `i` on, preceded by what was printed while reading
      the first `i` lines. */
  lemma StepSkip(bad: OnBadLine, eq: OnEqual, secret: u32, rs: seq<Reading>, i: nat, events: seq<Event>)
    requires i < |rs| && rs[i].Err? && bad == Skip
    ensures Then(events, i, Play(bad, eq, secret, rs[i..])) == Then(events, i + 1, Play(bad, eq, secret, rs[i + 1..]))
  {
    assert rs[i..][0] == rs[i];
    assert rs[i..][1..] == rs[i + 1..];
    assert events + [] == events;
  }

  lemma StepPanic(bad: OnBadLine, eq: OnEqual, secret: u32, rs: seq<Reading>, i: nat, events: seq<Event>)
    requires i < |rs| && rs[i].Err? && bad == Panic
    ensures Then(events, i, Play(bad, eq, secret, rs[i..])) == Outcome(events, i + 1, Panicked(rs[i].error))
  {
    assert rs[i..][0] == rs[i];
    assert events + [] == events;
  }

  lemma StepGuess(bad: OnBadLine, eq: OnEqual, secret: u32, rs: seq<Reading>, i: nat, events: seq<Event>)
    requires i < |rs| && rs[i].Ok?
    ensures eq == Break && rs[i].value == secret ==>
      Then(events, i, Play(bad, eq, secret, rs[i..])) ==
      Outcome(events + [Echo(secret), Verdict(Equal)], i + 1, Finished)
    ensures !(eq == Break && rs[i].value == secret) ==>
      Then(events, i, Play(bad, eq, secret, rs[i..])) ==
      Then(events + [Echo(rs[i].value), Verdict(Compare(rs[i].value, secret))], i + 1, Play(bad, eq, secret, rs[i + 1..]))
  {
    assert rs[i..][0] == rs[i];
    assert rs[i..][1..] == rs[i + 1..];
    var round := RoundEvents(secret, rs[i].value);
    ThenThen(events, i, round, 1, Play(bad, eq, secret, rs[i + 1..]));
  }

  /** The end of the script: nothing more is read or printed. */
  lemma StepEnd(bad: OnBadLine, eq: OnEqual, secret: u32, rs: seq<Reading>, events: seq<Event>)
    ensures Then(events, |rs|, Play(bad, eq, secret, rs[|rs|..])) == Outcome(events, |rs|, OutOfInput)
  {
    assert rs[|rs|..] == [];
    assert events + [] == events;
  }

  /** The reference report of a script: for each reading that is a guess, in
      order, its echo and its verdict; failed parses print nothing. */
  function Report(secret: u32, rs: seq<Reading>): seq<Event> {
    if rs == [] then []
    else (if rs[0].Ok? then RoundEvents(secret, rs[0].value) else []) + Report(secret, rs[1..])
  }

  /** The guesses among the readings, in order. */
  function Guesses(rs: seq<Reading>): seq<u32> {
    if rs == [] then []
    else (if rs[0].Ok? then [rs[0].value] else []) + Guesses(rs[1..])
  }

  /** The echoed guesses among the printed events, in order. */
  function Echoes(events: seq<Event>): seq<u32> {
    if events == [] then []
    else (if events[0].Echo? then [events[0].guess] else []) + Echoes(events[1..])
  }

  lemma {:induction false} EchoesAppend(a: seq<Event>, b: seq<Event>)
    ensures Echoes(a + b) == Echoes(a) + Echoes(b)
  {
    if a == [] {
      assert a + b == b;
    } else {
      assert (a + b)[0] == a[0];
      assert (a + b)[1..] == a[1..] + b;
      EchoesAppend(a[1..], b);
    }
  }

  /** Every run prints exactly the report of the lines it read: each parsed
      guess is echoed once and gets one verdict, and nothing else is printed. */
  lemma {:induction false} PlayPrintsReport(bad: OnBadLine, eq: OnEqual, secret: u32, rs: seq<Reading>)
    ensures Play(bad, eq, secret, rs).events == Report(secret, rs[..Play(bad, eq, secret, rs).consumed])
  {
    var o := Play(bad, eq, secret, rs);
    if rs == [] {
      assert rs[..0] == [];
    } else {
      var read := rs[..o.consumed];
      assert read[0] == rs[0];
      if o.consumed == 1 {
        assert read[1..] == [];
      } else {
        PlayPrintsReport(bad, eq, secret, rs[1..]);
        assert read[1..] == rs[1..][..o.consumed - 1];
      }
    }
  }

  lemma {:induction false} EchoesOfReport(secret: u32, rs: seq<Reading>)
    ensures Echoes(Report(secret, rs)) == Guesses(rs)
  {
    if rs != [] {
      var head := if rs[0].Ok? then RoundEvents(secret, rs[0].value) else [];
      EchoesAppend(head, Report(secret, rs[1..]));
      EchoesOfReport(secret, rs[1..]);
      if rs[0].Ok? {
        assert Echoes(head) == [rs[0].value] by {
          assert head[1..][1..] == [];
        }
      }
    }
  }

  /** The echoes are the parsed guesses among the lines read, in order, so
      their number is the number of parsed guesses consumed. */
  lemma EchoesAreGuesses(bad: OnBadLine, eq: OnEqual, secret: u32, rs: seq<Reading>)
    ensures Echoes(Play(bad, eq, secret, rs).events) == Guesses(rs[..Play(bad, eq, secret, rs).consumed])
  {
    var o := Play(bad, eq, secret, rs);
    PlayPrintsReport(bad, eq, secret, rs);
    EchoesOfReport(secret, rs[..o.consumed]);
  }

  /** A reading that ends the loop: a parse failure when it panics, a correct
      guess when it breaks. */
  predicate Stops(bad: OnBadLine, eq: OnEqual, secret: u32, r: Reading) {
    if r.Err? then bad == Panic else eq == Break && r.value == secret
  }

  /** The loop runs to the first line that ends it and no further; with no
      such line it reads the whole script and is still waiting. */
  lemma {:induction false} PlayStopsAtFirstStoppingLine(bad: OnBadLine, eq: OnEqual, secret: u32, rs: seq<Reading>)
    ensures Play(bad, eq, secret, rs).stop == OutOfInput <==>
      forall k :: 0 <= k < |rs| ==> !Stops(bad, eq, secret, rs[k])
    ensures Play(bad, eq, secret, rs).stop != OutOfInput ==>
      Stops(bad, eq, secret, rs[Play(bad, eq, secret, rs).consumed - 1])
    ensures forall k :: 0 <= k < Play(bad, eq, secret, rs).consumed - 1 ==> !Stops(bad, eq, secret, rs[k])
    ensures Play(bad, eq, secret, rs).stop == Finished ==>
      rs[Play(bad, eq, secret, rs).consumed - 1] == Ok(secret)
    ensures Play(bad, eq, secret, rs).stop.Panicked? ==>
      rs[Play(bad, eq, secret, rs).consumed - 1] == Err(Play(bad, eq, secret, rs).stop.error)
  {
    if rs != [] {
      var o := Play(bad, eq, secret, rs);
      if !Stops(bad, eq, secret, rs[0]) {
        PlayStopsAtFirstStoppingLine(bad, eq, secret, rs[1..]);
        var r := Play(bad, eq, secret, rs[1..]);
        assert o.consumed == 1 + r.consumed && o.stop == r.stop;
        forall k | 0 <= k < o.consumed - 1
          ensures !Stops(bad, eq, secret, rs[k])
        {
          if k > 0 {
            assert rs[k] == rs[1..][k - 1];
          }
        }
        if r.stop != OutOfInput {
          assert rs[o.consumed - 1] == rs[1..][r.consumed - 1];
        } else {
          forall k | 0 <= k < |rs|
            ensures !Stops(bad, eq, secret, rs[k])
          {
            if k > 0 {
              assert rs[k] == rs[1..][k - 1];
            }
          }
        }
      }
    }
  }

  /** A script that leaves the loop waiting can be continued: the run on the
      longer script first does everything the short one did. */
  lemma {:induction false} PlayAppend(bad: OnBadLine, eq: OnEqual, secret: u32, rs: seq<Reading>, more: seq<Reading>)
    requires Play(bad, eq, secret, rs).stop == OutOfInput
    ensures Play(bad, eq, secret, rs + more) ==
      Then(Play(bad, eq, secret, rs).events, |rs|, Play(bad, eq, secret, more))
  {
    if rs == [] {
      assert rs + more == more;
    } else {
      assert (rs + more)[0] == rs[0];
      assert (rs + more)[1..] == rs[1..] + more;
      PlayAppend(bad, eq, secret, rs[1..], more);
      var o := Play(bad, eq, secret, rs[1..]);
      var head := if rs[0].Ok? then RoundEvents(secret, rs[0].value) else [];
      ThenThen(head, 1, o.events, |rs[1..]|, Play(bad, eq, secret, more));
    }
  }

  lemma EmptyLineIsNotANumber()
    ensures ParseGuess([]) == Err(Empty)
  {
    var none: seq<byte> := [];
    assert none + none + none == none;
    TrimSurrounded(none, none, none);
  }

  /** At end of input `read_line` leaves the buffer empty. A loop that skips
      bad lines skips these too: however many it reads, it prints nothing
      more and never ends. */
  lemma {:induction false} ClosedInputSpins(eq: OnEqual, secret: u32, rs: seq<Reading>, eofs: seq<seq<byte>>)
    requires Play(Skip, eq, secret, rs).stop == OutOfInput
    requires forall k :: 0 <= k < |eofs| ==> eofs[k] == []
    ensures Play(Skip, eq, secret, rs + Readings(eofs)) ==
      Outcome(Play(Skip, eq, secret, rs).events, |rs| + |eofs|, OutOfInput)
    decreases |eofs|
  {
    if eofs == [] {
      assert rs + Readings(eofs) == rs;
    } else {
      EmptyLineIsNotANumber();
      var o := Play(Skip, eq, secret, rs);
      var eof := Readings(eofs)[0];
      ReadingsAppend([eofs[0]], eofs[1..]);
      assert [eofs[0]] + eofs[1..] == eofs;
      assert rs + Readings(eofs) == (rs + [eof]) + Readings(eofs[1..]);
      PlayAppend(Skip, eq, secret, rs, [eof]);
      assert Play(Skip, eq, secret, [eof]) == Outcome([], 1, OutOfInput) by {
        var none: seq<Reading> := [];
        assert [eof][1..] == none;
      }
      ClosedInputSpins(eq, secret, rs + [eof], eofs[1..]);
    }
  }

  /** A loop that panics on bad lines panics on the first read at end of
      input, with the error for an empty text. */
  lemma ClosedInputPanics(eq: OnEqual, secret: u32, rs: seq<Reading>)
    requires Play(Panic, eq, secret, rs).stop == OutOfInput
    ensures Play(Panic, eq, secret, rs + Readings([[]])) ==
      Outcome(Play(Panic, eq, secret, rs).events, |rs| + 1, Panicked(Empty))
  {
    EmptyLineIsNotANumber();
    PlayAppend(Panic, eq, secret, rs, Readings([[]]));
  }

  /** A line that does not parse, when skipped, prints nothing, compares
      nothing and does not end the loop. */
  lemma BadLineIsSkipped(eq: OnEqual, secret: u32, e: ParseError, rest: seq<Reading>)
    ensures Play(Skip, eq, secret, [Err(e)] + rest) == Then([], 1, Play(Skip, eq, secret, rest))
  {
    assert ([Err(e)] + rest)[1..] == rest;
  }

  /** A line that does not parse, when parse failures panic, ends the run on
      the spot with nothing printed. */
  lemma BadLinePanics(eq: OnEqual, secret: u32, e: ParseError, rest: seq<Reading>)
    ensures Play(Panic, eq, secret, [Err(e)] + rest) == Outcome([], 1, Panicked(e))
  {
    assert ([Err(e)] + rest)[0] == Err(e);
  }

  /** A wrong guess is echoed, judged Less or Greater, and the loop goes on. */
  lemma WrongGuessGoesOn(bad: OnBadLine, eq: OnEqual, secret: u32, guess: u32, rest: seq<Reading>)
    requires guess != secret
    ensures Play(bad, eq, secret, [Ok(guess)] + rest) ==
      Then([Echo(guess), Verdict(if guess < secret then Less else Greater)], 1, Play(bad, eq, secret, rest))
  {
    assert ([Ok(guess)] + rest)[1..] == rest;
  }

  /** A correct guess is echoed and judged Equal; it ends the run only if the
      loop breaks on it. */
  lemma CorrectGuess(bad: OnBadLine, eq: OnEqual, secret: u32, rest: seq<Reading>)
    ensures eq == Break ==>
      Play(bad, eq, secret, [Ok(secret)] + rest) == Outcome([Echo(secret), Verdict(Equal)], 1, Finished)
    ensures eq == KeepGoing ==>
      Play(bad, eq, secret, [Ok(secret)] + rest) == Then([Echo(secret), Verdict(Equal)], 1, Play(bad, eq, secret, rest))
  {
    assert ([Ok(secret)] + rest)[1..] == rest;
  }

  /** A typed number followed by Enter is read back as that number. */
  lemma TypedGuess(n: u32)
    ensures ParseGuess(Show(n) + [NEWLINE]) == Ok(n)
  {
    TrimTypedNumber(n);
    ParseShow(n, U32_MAX);
  }
}

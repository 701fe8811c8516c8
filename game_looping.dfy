/** The guessing game's first loop: it never leaves on a correct guess, and
    a line that does not parse panics through `expect`. */
module GameLooping {
  import opened Ascii
  import opened Guessing

  /** What the program does with the secret and the lines typed. */
  function Game(secret: u32, stdin: seq<seq<byte>>): Outcome {
    Then([SecretShown(secret)], 0, Play(Panic, KeepGoing, secret, Readings(stdin)))
  }

  /** `main`, with the secret drawn by `gen_range(1..101)` as a parameter and
      standard input as the script `stdin`. */
  method PlayGame(secret: u32, stdin: seq<seq<byte>>) returns (o: Outcome)
    requires IsSecret(secret)
    ensures o == Game(secret, stdin)
  {
    ghost var rs := Readings(stdin);
    var events: seq<Event> := [SecretShown(secret)];
    var read := 0;
    assert rs[0..] == rs;
    while read < |stdin|
      invariant read <= |stdin|
      invariant Game(secret, stdin) == Then(events, read, Play(Panic, KeepGoing, secret, rs[read..]))
    {
      var guess: seq<byte> := [];
      guess := guess + stdin[read];
      assert guess == stdin[read];
      var parsed := ParseGuess(guess);
      assert parsed == rs[read];
      if parsed.Err? {
        StepPanic(Panic, KeepGoing, secret, rs, read, events);
        o := Outcome(events, read + 1, Panicked(parsed.error));
        return;
      }
      StepGuess(Panic, KeepGoing, secret, rs, read, events);
      ghost var before := events;
      read := read + 1;
      var g := parsed.value;
      events := events + [Echo(g)];
      events := events + [Verdict(Compare(g, secret))];
      assert events == before + [Echo(g), Verdict(Compare(g, secret))];
    }
    StepEnd(Panic, KeepGoing, secret, rs, events);
    o := Outcome(events, read, OutOfInput);
  }

  /** The loop has no normal exit: only a line that does not parse ends it,
      at the first such line; a script of guesses, correct ones included, is
      read to its end, each guess echoed and judged. */
  lemma OnlyBadLineEndsLoop(secret: u32, stdin: seq<seq<byte>>)
    ensures Game(secret, stdin).stop != Finished
    ensures Game(secret, stdin).stop.Panicked? <==> exists k :: 0 <= k < |stdin| && Readings(stdin)[k].Err?
    ensures Game(secret, stdin).stop.Panicked? ==>
      Readings(stdin)[Game(secret, stdin).consumed - 1].Err? &&
      forall k :: 0 <= k < Game(secret, stdin).consumed - 1 ==> Readings(stdin)[k].Ok?
    ensures Game(secret, stdin).stop == OutOfInput ==>
      Game(secret, stdin).events == [SecretShown(secret)] + Report(secret, Readings(stdin))
  {
    var rs := Readings(stdin);
    var o := Play(Panic, KeepGoing, secret, rs);
    PlayStopsAtFirstStoppingLine(Panic, KeepGoing, secret, rs);
    PlayPrintsReport(Panic, KeepGoing, secret, rs);
    if o.stop.Panicked? {
      assert rs[o.consumed - 1].Err?;
      forall k | 0 <= k < o.consumed - 1 ensures rs[k].Ok? {
        assert !Stops(Panic, KeepGoing, secret, rs[k]);
      }
    } else {
      forall k | 0 <= k < |stdin| ensures rs[k].Ok? {
        assert !Stops(Panic, KeepGoing, secret, rs[k]);
      }
      assert rs[..o.consumed] == rs;
    }
  }
}

/** The final guessing game: a line that does not parse is skipped with
    `continue`, and the correct guess leaves the loop with `break`. */
module FinalGame {
  import opened Wrappers
  import opened Ascii
  import opened Guessing

  /** What the program does with the secret and the lines typed. */
  function Game(secret: u32, stdin: seq<seq<byte>>): Outcome {
    Play(Skip, Break, secret, Readings(stdin))
  }

  /** `main`, with the secret drawn by `gen_range(1..101)` as a parameter and
      standard input as the script `stdin`. */
  method PlayGame(secret: u32, stdin: seq<seq<byte>>) returns (o: Outcome)
    requires IsSecret(secret)
    ensures o == Game(secret, stdin)
  {
    ghost var rs := Readings(stdin);
    var events: seq<Event> := [];
    var read := 0;
    assert rs[0..] == rs;
    ThenNothing(Game(secret, stdin));
    assert Game(secret, stdin) == Then(events, read, Play(Skip, Break, secret, rs[read..]));
    while read < |stdin|
      invariant read <= |stdin|
      invariant Game(secret, stdin) == Then(events, read, Play(Skip, Break, secret, rs[read..]))
    {
      var guess: seq<byte> := [];
      guess := guess + stdin[read];
      assert guess == stdin[read];
      var parsed := ParseGuess(guess);
      assert parsed == rs[read];
      if parsed.Err? {
        StepSkip(Skip, Break, secret, rs, read, events);
        read := read + 1;
        assert Game(secret, stdin) == Then(events, read, Play(Skip, Break, secret, rs[read..]));
        continue;
      }
      StepGuess(Skip, Break, secret, rs, read, events);
      ghost var old_events := events;
      read := read + 1;
      var g := parsed.value;
      events := events + [Echo(g)];
      var verdict := Compare(g, secret);
      events := events + [Verdict(verdict)];
      assert events == old_events + [Echo(g), Verdict(Compare(g, secret))];
      if verdict == Equal {
        o := Outcome(events, read, Finished);
        return;
      }
    }
    StepEnd(Skip, Break, secret, rs, events);
    o := Outcome(events, read, OutOfInput);
  }

  /** The run never panics; it ends exactly when some line parses to the
      secret, at the first such line; with none the game is still waiting at
      the end of the script. */
  lemma EndsAtFirstCorrectGuess(secret: u32, stdin: seq<seq<byte>>)
    ensures !Game(secret, stdin).stop.Panicked?
    ensures Game(secret, stdin).stop == Finished <==>
      exists k :: 0 <= k < |stdin| && ParseGuess(stdin[k]) == Ok(secret)
    ensures Game(secret, stdin).stop == Finished ==>
      ParseGuess(stdin[Game(secret, stdin).consumed - 1]) == Ok(secret)
    ensures forall k :: 0 <= k < Game(secret, stdin).consumed - 1 ==> ParseGuess(stdin[k]) != Ok(secret)
  {
    var rs := Readings(stdin);
    PlayStopsAtFirstStoppingLine(Skip, Break, secret, rs);
    var o := Game(secret, stdin);
    if o.stop == Finished {
      assert ParseGuess(stdin[o.consumed - 1]) == Ok(secret);
    } else {
      forall k | 0 <= k < |stdin| ensures ParseGuess(stdin[k]) != Ok(secret) {
        assert !Stops(Skip, Break, secret, rs[k]);
      }
    }
    forall k | 0 <= k < o.consumed - 1 ensures ParseGuess(stdin[k]) != Ok(secret) {
      assert !Stops(Skip, Break, secret, rs[k]);
    }
  }

  /** What the game prints is one echo and one verdict per parsed guess it
      read, and nothing for the skipped lines. */
  lemma EchoesEachGuess(secret: u32, stdin: seq<seq<byte>>)
    ensures Game(secret, stdin).events == Report(secret, Readings(stdin)[..Game(secret, stdin).consumed])
    ensures Echoes(Game(secret, stdin).events) == Guesses(Readings(stdin)[..Game(secret, stdin).consumed])
  {
    PlayPrintsReport(Skip, Break, secret, Readings(stdin));
    EchoesAreGuesses(Skip, Break, secret, Readings(stdin));
  }
}

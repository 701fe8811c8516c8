/** The guessing game that also prints the secret before its loop; a line
    that does not parse is skipped with `continue`, and the correct guess
    leaves the loop with `break`. */
module GameShowingSecret {
  import opened Wrappers
  import opened Ascii
  import opened Guessing

  /** What the program does with the secret and the lines typed. */
  function Game(secret: u32, stdin: seq<seq<byte>>): Outcome {
    Then([SecretShown(secret)], 0, Play(Skip, Break, secret, Readings(stdin)))
  }

  /** `main`, with the secret drawn by `gen_range(1..101)` as a parameter and
      standard input as the script `stdin`. */
  method PlayGame(secret: u32, stdin: seq<seq<byte>>) returns (o: Outcome)
    requires IsSecret(secret)
    ensures o == Game(secret, stdin)
  {
    ghost var rs := Readings(stdin);
    var events: seq<Event> := [SecretShown(secret)];
    var read := 0;
    assert rs[0..] == rs;
    while read < |stdin|
      invariant read <= |stdin|
      invariant Game(secret, stdin) == Then(events, read, Play(Skip, Break, secret, rs[read..]))
    {
      var guess: seq<byte> := [];
      guess := guess + stdin[read];
      assert guess == stdin[read];
      var parsed := ParseGuess(guess);
      assert parsed == rs[read];
      if parsed.Err? {
        StepSkip(Skip, Break, secret, rs, read, events);
        read := read + 1;
        assert Game(secret, stdin) == Then(events, read, Play(Skip, Break, secret, rs[read..]));
        continue;
      }
      StepGuess(Skip, Break, secret, rs, read, events);
      ghost var before := events;
      read := read + 1;
      var g := parsed.value;
      events := events + [Echo(g)];
      var verdict := Compare(g, secret);
      events := events + [Verdict(verdict)];
      assert events == before + [Echo(g), Verdict(Compare(g, secret))];
      if verdict == Equal {
        o := Outcome(events, read, Finished);
        return;
      }
    }
    StepEnd(Skip, Break, secret, rs, events);
    o := Outcome(events, read, OutOfInput);
  }

  /** The secret is printed once, as the first line of output. */
  lemma SecretShownOnceFirst(secret: u32, stdin: seq<seq<byte>>)
    ensures Game(secret, stdin).events[0] == SecretShown(secret)
    ensures forall k :: 0 < k < |Game(secret, stdin).events| ==> !Game(secret, stdin).events[k].SecretShown?
  {
    var p := Play(Skip, Break, secret, Readings(stdin));
    forall k | 0 < k < |Game(secret, stdin).events|
      ensures !Game(secret, stdin).events[k].SecretShown?
    {
      assert Game(secret, stdin).events[k] == p.events[k - 1];
    }
  }

  /** After the secret, each parsed guess it read is echoed once and judged
      once; a line that does not parse prints nothing. */
  lemma EachGuessEchoedAndJudged(secret: u32, stdin: seq<seq<byte>>)
    ensures Game(secret, stdin).events ==
      [SecretShown(secret)] + Report(secret, Readings(stdin)[..Game(secret, stdin).consumed])
  {
    PlayPrintsReport(Skip, Break, secret, Readings(stdin));
  }

  /** The loop breaks exactly at the first guess equal to the secret: no
      parse failure and no Less or Greater ends it. */
  lemma BreaksOnlyOnCorrectGuess(secret: u32, stdin: seq<seq<byte>>)
    ensures Game(secret, stdin).stop == Finished || Game(secret, stdin).stop == OutOfInput
    ensures Game(secret, stdin).stop == Finished <==>
      exists k :: 0 <= k < |stdin| && Readings(stdin)[k] == Ok(secret)
    ensures Game(secret, stdin).stop == Finished ==> Readings(stdin)[Game(secret, stdin).consumed - 1] == Ok(secret)
    ensures forall k :: 0 <= k < Game(secret, stdin).consumed - 1 ==> Readings(stdin)[k] != Ok(secret)
  {
    var rs := Readings(stdin);
    PlayStopsAtFirstStoppingLine(Skip, Break, secret, rs);
    if Game(secret, stdin).stop == OutOfInput {
      forall k | 0 <= k < |stdin| ensures rs[k] != Ok(secret) {
        assert !Stops(Skip, Break, secret, rs[k]);
      }
    }
    forall k | 0 <= k < Game(secret, stdin).consumed - 1 ensures rs[k] != Ok(secret) {
      assert !Stops(Skip, Break, secret, rs[k]);
    }
  }
}

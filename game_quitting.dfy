/** The guessing game that quits on the correct guess with `break` and
    panics on a line that does not parse, through `expect`. */
module GameQuitting {
  import opened Wrappers
  import opened Ascii
  import opened Guessing

  /** What the program does with the secret and the lines typed. */
  function Game(secret: u32, stdin: seq<seq<byte>>): Outcome {
    Then([SecretShown(secret)], 0, Play(Panic, Break, secret, Readings(stdin)))
  }

  /** `main`, with the secret drawn by `gen_range(1..101)` as a parameter and
      standard input as the script `stdin`. */
  method PlayGame(secret: u32, stdin: seq<seq<byte>>) returns (o: Outcome)
    requires IsSecret(secret)
    ensures o == Game(secret, stdin)
  {
    ghost var rs := Readings(stdin);
    var events: seq<Event> := [SecretShown(secret)];
    var read := 0;
    assert rs[0..] == rs;
    while read < |stdin|
      invariant read <= |stdin|
      invariant Game(secret, stdin) == Then(events, read, Play(Panic, Break, secret, rs[read..]))
    {
      var guess: seq<byte> := [];
      guess := guess + stdin[read];
      assert guess == stdin[read];
      var parsed := ParseGuess(guess);
      assert parsed == rs[read];
      if parsed.Err? {
        StepPanic(Panic, Break, secret, rs, read, events);
        o := Outcome(events, read + 1, Panicked(parsed.error));
        return;
      }
      StepGuess(Panic, Break, secret, rs, read, events);
      ghost var before := events;
      read := read + 1;
      var g := parsed.value;
      events := events + [Echo(g)];
      var verdict := Compare(g, secret);
      events := events + [Verdict(verdict)];
      assert events == before + [Echo(g), Verdict(Compare(g, secret))];
      if verdict == Equal {
        o := Outcome(events, read, Finished);
        return;
      }
    }
    StepEnd(Panic, Break, secret, rs, events);
    o := Outcome(events, read, OutOfInput);
  }

  /** A run that ends normally read only guesses: every line before the last
      parses to a number other than the secret, and the last to the secret. */
  lemma NormalEndMeansLastGuessCorrect(secret: u32, stdin: seq<seq<byte>>)
    requires Game(secret, stdin).stop == Finished
    ensures Readings(stdin)[Game(secret, stdin).consumed - 1] == Ok(secret)
    ensures forall k :: 0 <= k < Game(secret, stdin).consumed - 1 ==>
      Readings(stdin)[k].Ok? && Readings(stdin)[k].value != secret
  {
    var rs := Readings(stdin);
    PlayStopsAtFirstStoppingLine(Panic, Break, secret, rs);
    forall k | 0 <= k < Game(secret, stdin).consumed - 1
      ensures rs[k].Ok? && rs[k].value != secret
    {
      assert !Stops(Panic, Break, secret, rs[k]);
    }
  }

  /** The first line that does not parse panics instead of being retried,
      unless a correct guess came first. */
  lemma FirstBadLinePanics(secret: u32, stdin: seq<seq<byte>>, k: nat)
    requires k < |stdin| && Readings(stdin)[k].Err?
    requires forall j :: 0 <= j < k ==> Readings(stdin)[j] != Ok(secret)
    ensures Game(secret, stdin).stop.Panicked?
    ensures Game(secret, stdin).consumed <= k + 1
  {
    var rs := Readings(stdin);
    PlayStopsAtFirstStoppingLine(Panic, Break, secret, rs);
    assert Stops(Panic, Break, secret, rs[k]);
  }
}

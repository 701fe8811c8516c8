/** One round of the guessing game, before the loop is introduced: one line
    is read, parsed with `expect` and compared once. */
module GameSingleRound {
  import opened Ascii
  import opened Guessing

  /** `main`, with the secret drawn by `gen_range(1..101)` as a parameter and
      `line` the one line read from standard input. */
  method PlayRound(secret: u32, line: seq<byte>) returns (o: Outcome)
    requires IsSecret(secret)
    ensures o.consumed == 1
    ensures ParseGuess(line).Err? ==>
      o.events == [SecretShown(secret)] && o.stop == Panicked(ParseGuess(line).error)
    ensures ParseGuess(line).Ok? ==>
      var g := ParseGuess(line).value;
      o.events == [SecretShown(secret), Echo(g), Verdict(Compare(g, secret))] && o.stop == Finished
  {
    var events := [SecretShown(secret)];
    var guess: seq<byte> := [];
    guess := guess + line;
    assert guess == line;
    var parsed := ParseGuess(guess);
    if parsed.Err? {
      return Outcome(events, 1, Panicked(parsed.error));
    }
    var g := parsed.value;
    events := events + [Echo(g)];
    events := events + [Verdict(Compare(g, secret))];
    o := Outcome(events, 1, Finished);
  }
}

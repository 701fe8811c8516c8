# Verified model of the runnable listings of a Rust tutorial

The repository is a set of short listings that accompany a Spanish translation of a
Rust tutorial. Most of them show ownership, borrowing or module privacy. This project
models the listings that contain logic with a behaviour you can state precisely:

- the three `first_word` functions of chapter 4. Each one scans a string's bytes for
  the first ASCII space. One returns the index of that space; the other two return the
  slice before it;
- `area` of a `Rectangle { width: u32, height: u32 }` (chapter 5);
- the chapter 3 program that parses an index and reads a five-element array with it;
- the five versions of the chapter 2 guessing game. Each one reads a line, trims it,
  parses it as a `u32` and compares the guess with a secret number.

Strings are modelled as their UTF-8 bytes (`seq<byte>`). Standard input is a finite
script of lines, and the output is a sequence of events: the secret shown, a guess
echoed, a verdict. The secret that `gen_range(1..101)` draws is a parameter, and each
game method requires it to lie in 1..101 (`IsSecret`).

The guessing loops share one specification, `Guessing.Play`. It takes two parameters:

- what a line that does not parse does: `Skip` (`continue`) or `Panic` (`expect`);
- what the correct guess does: `Break` or `KeepGoing`.

Each listing is a method with its own `while` loop. It reads a line into a fresh
buffer and parses it. Depending on the listing, it then continues, panics or breaks.
Each method is proved to compute its listing's `Game` function. The lemmas about
`Play` state what the loops do across whole runs.

One comment in the source disagrees with its code. In
`listings/ch04-understanding-ownership/listing-04-08/src/main.rs` line 17, the comment
says that `first_word` of `"hola mundo"` is 5. The code returns 4: the word "hola" has
four letters, and the 5 is left over from the English "hello world". The model follows
the code, so `FirstWordIndex.IndexOutlivesClear` proves 4.

Modules, one per listing plus shared ones:

- `Wrappers`: `Result`.
- `Ascii`: bytes, `trim`, `parse` into an unsigned type, `{}` for numbers, and slicing
  at a byte index.
- `Words`: the first-space specification.
- `FirstWordIndex`, `FirstWordSlice`, `FirstWordString`: the three `first_word`
  functions.
- `Rectangles`: the `Rectangle` struct and `area`.
- `ArrayIndex`: the array lookup.
- `Guessing`: the shared game specification.
- `FinalGame`, `GameShowingSecret`, `GameQuitting`, `GameSingleRound`, `GameLooping`:
  the five games.

## Model

| member | source | states |
|---|---|---|
| `Words.FirstSpace` | listings/ch04-understanding-ownership/listing-04-08/src/main.rs:4-10 | the index is at most the length; if it is below the length, the byte there is a space; no byte before it is a space |
| `Words.FirstSpaceUnique` | listings/ch04-understanding-ownership/listing-04-08/src/main.rs:4-10 | any index that has those three properties is `FirstSpace`, so the first space is well defined |
| `Words.NoSpaceIsOneWord` | listings/ch04-understanding-ownership/listing-04-08/src/main.rs:10 | the scan runs to the end of the text, returning `s.len()`, exactly when the text has no space |
| `FirstWordIndex.FirstWord` | listings/ch04-understanding-ownership/listing-04-08/src/main.rs:1-11 | the `for` loop with its early `return i` returns the first space's index, or `s.len()` when there is none |
| `FirstWordIndex.IndexOutlivesClear` | listings/ch04-understanding-ownership/listing-04-08/src/main.rs:14-24 | for "hola mundo" the index is 4 (the comment's 5 is wrong); after `s.clear()` the length is 0, so 4 no longer indexes into `s` |
| `Words.FirstWordOf` | listings/ch04-understanding-ownership/listing-04-09/src/main.rs:6-12 | the first word is a prefix of `s` with no space in it, and when it is shorter than `s` the next byte of `s` is a space |
| `Words.FirstWordIsLongest` | listings/ch04-understanding-ownership/listing-04-09/src/main.rs:6-12 | no prefix of `s` without a space is longer than the first word |
| `Words.FirstWordOfPhrase` | listings/ch04-understanding-ownership/listing-04-09/src/main.rs:7-8 | a word with no space, then a space, then any text, has that word as its first word |
| `Words.FirstWordIdempotent` | listings/ch04-understanding-ownership/listing-04-09/src/main.rs:6-12 | `first_word` applied to its own result returns that result unchanged |
| `Words.FirstSpaceIsCharBoundary` | listings/ch04-understanding-ownership/listing-04-09/src/main.rs:8 | the slice bound is a UTF-8 character boundary, so `&s[0..i]` cannot panic |
| `FirstWordSlice.FirstWord` | listings/ch04-understanding-ownership/listing-04-09/src/main.rs:2-13 | the result is a prefix of `s` with no space in it; when it is shorter than `s`, a space follows; its length is the index listing-04-08 returns; the slicing preconditions, range and char boundary, are discharged |
| `FirstWordSlice.HolaMundo` | listings/ch04-understanding-ownership/listing-04-09/src/main.rs:16-30 | "hola mundo" gives "hola" as a slice of a `String`, as a slice of a literal, and as the literal itself |
| `FirstWordString.FirstWord` | listings/ch04-understanding-ownership/no-listing-19-slice-error/src/main.rs:1-11 | the result is a prefix with no space in it, followed by a space when shorter than `s`; it is the first word of `s`, and all of `s` when there is no space |
| `FirstWordString.FirstWordBeforeClear` | listings/ch04-understanding-ownership/no-listing-19-slice-error/src/main.rs:15-17 | the first word of "hola mundo" is "hola" |
| `Rectangles.Area` | listings/ch05-using-structs-to-structure-related-data/listing-05-10/src/main.rs:18-20 | under the no-overflow precondition, the area is 0 exactly when a side is 0, and it is no smaller than either side when the other side is not 0 |
| `Rectangles.UnitSquaresIsProduct` | listings/ch05-using-structs-to-structure-related-data/listing-05-10/src/main.rs:19 | counting unit squares row by row gives `width * height` |
| `Rectangles.AreaCountsUnitSquares` | listings/ch05-using-structs-to-structure-related-data/listing-05-10/src/main.rs:18-20 | `area` is the number of unit squares the rectangle covers |
| `Rectangles.AreaSwapSides` | listings/ch05-using-structs-to-structure-related-data/listing-05-10/src/main.rs:19 | swapping width and height keeps both the no-overflow condition and the area |
| `Rectangles.AreaLimit` | listings/ch05-using-structs-to-structure-related-data/listing-05-10/src/main.rs:19 | the `u32` bound is exact: 65535 by 65537 is `u32::MAX`, while 65535 by 65538 and 65536 by 65536 overflow |
| `Rectangles.AreaOfRect1` | listings/ch05-using-structs-to-structure-related-data/listing-05-10/src/main.rs:6-16 | `rect1`, 30 by 50, has area 1500 |
| `ArrayIndex.Lookup` | listings/ch03-common-programming-concepts/no-listing-15-invalid-array-access/src/main.rs:4-24 | text that is not a `usize` panics with its parse error; an index of 5 or more panics out of bounds with len 5; an index below 5 prints that same index and the element `index + 1` |
| `ArrayIndex.RunProgram` | listings/ch03-common-programming-concepts/no-listing-15-invalid-array-access/src/main.rs:3-25 | `main`, with the line `read_line` puts in the fresh buffer as input, ends as `Lookup` says: it prints the element or panics |
| `ArrayIndex.LookupTypedNumber` | listings/ch03-common-programming-concepts/no-listing-15-invalid-array-access/src/main.rs:10-19 | a typed number with its newline reads element `n + 1` for 0 to 4, and panics out of bounds with that number for anything larger |
| `ArrayIndex.LookupEmptyLine` | listings/ch03-common-programming-concepts/no-listing-15-invalid-array-access/src/main.rs:14-17 | an empty line, which is also what end of input gives, panics as not a number (`Empty`) |
| `Ascii.TrimShape` | listings/ch02-guessing-game-tutorial/listing-02-06/src/main.rs:19 | `trim` keeps a contiguous part of the text that neither starts nor ends with whitespace, and removes only whitespace around it |
| `Ascii.TrimSurrounded` | listings/ch02-guessing-game-tutorial/listing-02-06/src/main.rs:19 | `trim` undoes any whitespace added around a text that neither starts nor ends with whitespace |
| `Ascii.TrimIdempotent` | listings/ch02-guessing-game-tutorial/listing-02-05/src/main.rs:25 | trimming twice is the same as trimming once |
| `Ascii.ParseUnsigned` | listings/ch02-guessing-game-tutorial/no-listing-03-convert-string-to-number/src/main.rs:23 | a parsed value never exceeds the type's maximum, and `Empty` is reported exactly for the empty text |
| `Ascii.ParsedTextIsDigits` | listings/ch02-guessing-game-tutorial/no-listing-05-quitting/src/main.rs:21 | only an optional `+` followed by a non-empty run of decimal digits parses, and the result is the value of those digits |
| `Ascii.DigitsParse` | listings/ch02-guessing-game-tutorial/no-listing-05-quitting/src/main.rs:21 | conversely, any non-empty run of digits, with or without a leading `+` and leading zeros included, parses to the number it denotes when that fits the type, and gives `PosOverflow` when it does not |
| `Ascii.ParseShow` | listings/ch02-guessing-game-tutorial/listing-02-05/src/main.rs:31 | parsing what `{}` prints gives the number back (also with a leading `+`), and a number above the maximum gives `PosOverflow` |
| `Ascii.ValueOfShow` | listings/ch02-guessing-game-tutorial/listing-02-06/src/main.rs:24 | the decimal digits `{}` prints denote the number printed |
| `Guessing.Compare` | listings/ch02-guessing-game-tutorial/listing-02-06/src/main.rs:26-33 | `cmp` gives Less, Equal or Greater exactly when the guess is below, equal to or above the secret |
| `Guessing.ReadingsAppend` | listings/ch02-guessing-game-tutorial/listing-02-06/src/main.rs:10-22 | each line is read into its own fresh buffer and parsed on its own, so the readings of a script split anywhere are the readings of its two parts, in order |
| `Guessing.TypedGuess` | listings/ch02-guessing-game-tutorial/listing-02-06/src/main.rs:15-19 | a number typed with the newline `read_line` keeps parses to that number |
| `Guessing.EmptyLineIsNotANumber` | listings/ch02-guessing-game-tutorial/listing-02-06/src/main.rs:15-21 | the empty buffer `read_line` leaves at end of input does not parse (`Empty`) |
| `Guessing.Play` | listings/ch02-guessing-game-tutorial/listing-02-06/src/main.rs:10-34 | a run reads at most the whole script, and all of it when it is still waiting; only `Break` loops finish and only `Panic` loops panic; the loop never prints the secret |
| `Guessing.PlayPrintsReport` | listings/ch02-guessing-game-tutorial/listing-02-06/src/main.rs:19-33 | a run prints exactly one echo and then one verdict for each parsed guess it read, in order, and nothing for the lines that did not parse |
| `Guessing.EchoesAreGuesses` | listings/ch02-guessing-game-tutorial/listing-02-06/src/main.rs:24 | the echoed values are the parsed guesses consumed, in order, so there are as many echoes as parsed guesses |
| `Guessing.PlayStopsAtFirstStoppingLine` | listings/ch02-guessing-game-tutorial/listing-02-06/src/main.rs:10-34 | a run waits at the end of the script exactly when no line would end it; otherwise it ends at the first such line, never earlier, with `Finished` on the secret and `Panicked` with the line's parse error |
| `Guessing.PlayAppend` | listings/ch02-guessing-game-tutorial/listing-02-06/src/main.rs:10-34 | when a run is still waiting at the end of its script, giving it more lines continues it from where it was |
| `Guessing.ClosedInputSpins` | listings/ch02-guessing-game-tutorial/listing-02-06/src/main.rs:15-22 | a skipping loop still waiting at end of input skips every empty read that follows: it prints nothing more and never ends |
| `Guessing.ClosedInputPanics` | listings/ch02-guessing-game-tutorial/no-listing-05-quitting/src/main.rs:17-21 | a panicking loop still waiting at end of input panics with `Empty` on the next read |
| `Guessing.BadLineIsSkipped` | listings/ch02-guessing-game-tutorial/listing-02-06/src/main.rs:19-22 | with `continue`, a line that does not parse is consumed without an echo, a comparison or an end |
| `Guessing.BadLinePanics` | listings/ch02-guessing-game-tutorial/no-listing-04-looping/src/main.rs:28 | with `expect`, a line that does not parse ends the run at once, with nothing printed |
| `Guessing.WrongGuessGoesOn` | listings/ch02-guessing-game-tutorial/listing-02-05/src/main.rs:36-38 | a guess other than the secret is echoed, judged Less or Greater, and the loop goes on in every version |
| `Guessing.CorrectGuess` | listings/ch02-guessing-game-tutorial/no-listing-04-looping/src/main.rs:33-37 | the secret is echoed and judged Equal; the run ends there with `break`, and without it the loop goes on |
| `FinalGame.PlayGame` | listings/ch02-guessing-game-tutorial/listing-02-06/src/main.rs:5-35 | the loop, which skips bad lines and breaks on Equal, computes `Play(Skip, Break)` on the readings of its input |
| `FinalGame.EndsAtFirstCorrectGuess` | listings/ch02-guessing-game-tutorial/listing-02-06/src/main.rs:26-34 | the game never panics; it finishes exactly when some line parses to the secret, at the first such line; when no line does, it is still waiting at the end of the script |
| `FinalGame.EchoesEachGuess` | listings/ch02-guessing-game-tutorial/listing-02-06/src/main.rs:24-33 | the output is one echo and one verdict per parsed guess read, up to and including the correct one |
| `GameShowingSecret.PlayGame` | listings/ch02-guessing-game-tutorial/listing-02-05/src/main.rs:5-45 | prints the secret, then runs `Play(Skip, Break)` on the readings |
| `GameShowingSecret.SecretShownOnceFirst` | listings/ch02-guessing-game-tutorial/listing-02-05/src/main.rs:8-12 | the secret is the first output and is never printed again |
| `GameShowingSecret.EachGuessEchoedAndJudged` | listings/ch02-guessing-game-tutorial/listing-02-05/src/main.rs:25-43 | after the secret, each parsed guess read gets one echo and one verdict, and a skipped line prints nothing |
| `GameShowingSecret.BreaksOnlyOnCorrectGuess` | listings/ch02-guessing-game-tutorial/listing-02-05/src/main.rs:25-43 | the game never panics; it breaks exactly when some line parses to the secret, at the first such line, and otherwise is still waiting at the end of the script |
| `GameQuitting.PlayGame` | listings/ch02-guessing-game-tutorial/no-listing-05-quitting/src/main.rs:5-37 | prints the secret, then runs `Play(Panic, Break)` on the readings |
| `GameQuitting.NormalEndMeansLastGuessCorrect` | listings/ch02-guessing-game-tutorial/no-listing-05-quitting/src/main.rs:21-35 | in a run that ends normally, every line before the last parses to a number other than the secret, and the last parses to the secret |
| `GameQuitting.FirstBadLinePanics` | listings/ch02-guessing-game-tutorial/no-listing-05-quitting/src/main.rs:21 | a line that does not parse, with no correct guess before it, makes the run panic at or before that line; there is no retry |
| `GameSingleRound.PlayRound` | listings/ch02-guessing-game-tutorial/no-listing-03-convert-string-to-number/src/main.rs:5-33 | one line is read; a parse failure panics after the secret is shown; otherwise there is one echo and one verdict according to `Compare`, and `main` returns |
| `GameLooping.PlayGame` | listings/ch02-guessing-game-tutorial/no-listing-04-looping/src/main.rs:5-39 | prints the secret, then runs `Play(Panic, KeepGoing)` on the readings |
| `GameLooping.OnlyBadLineEndsLoop` | listings/ch02-guessing-game-tutorial/no-listing-04-looping/src/main.rs:15-38 | the loop never finishes; it panics exactly when some line does not parse, at the first such line; a script of guesses is read to its end, each guess echoed and judged, correct ones included |

## Left out

- Console output other than the events: the prompts, the greeting and the text of the
  messages. The message text is not part of any contract; an `Event` records what was
  printed.
- `read_line` failing (`expect("Fallo al leer linea")`) is not modelled. This
  includes the `Err` it returns for a line that is not valid UTF-8, on which every
  game panics. A script line here is any bytes, so such a line reads as
  `InvalidDigit` and is skipped by listing-02-05 and listing-02-06. Their "never
  panics" lemmas (`FinalGame.EndsAtFirstCorrectGuess`,
  `GameShowingSecret.BreaksOnlyOnCorrectGuess`) hold for input that is valid UTF-8.
  `read_line` appends to a fresh, empty buffer, so the model gives the buffer the
  whole line.
- End of input. A method stops at the end of its script with `OutOfInput`, which
  means the program is still waiting. What then happens on a closed input is stated
  by lemmas, not by the methods: `read_line` gives an empty line each time, the
  skipping loops spin forever (`ClosedInputSpins`), and the panicking loops panic
  (`ClosedInputPanics`). No termination is claimed for a closed input.
- `rand::thread_rng().gen_range(1..101)` is a foreign, random call. The secret is a
  parameter, and the `IsSecret` precondition states the range the call guarantees.
- `str::trim` handles Unicode whitespace; the model removes only ASCII whitespace
  (0x09 to 0x0D and 0x20).
- `u32::from_str` and `usize::from_str` are modelled as an optional `+` followed by
  decimal digits. When a text overflows and also holds a bad byte, the model reports
  `PosOverflow` if the digits before the first bad byte already exceed the maximum,
  and `InvalidDigit` otherwise. On texts that mix both, the order of these checks has
  differed between versions of the standard library.
- `usize` is taken to be 64 bits wide.
- Rectangles.Area: requires `width * height <= u32::MAX`. A debug build would panic
  on overflow and a release build would wrap; neither is modelled.
- Rectangles.Area: the rectangle is an immutable value. "Read through `&` and left
  unchanged" therefore holds by construction, and no contract states it.
- UTF-8 validity is not modelled: strings are bytes, and `IsCharBoundary` is the only
  UTF-8 fact used.
- The `main` of no-listing-19 (`s.clear()` while `word` is borrowed) does not compile.
  Only its call `first_word(&s)` is modelled.
- The listings about moves, borrows and references (04-03, 04-04, no-listing-12,
  no-listing-13, no-listing-15-dangling) have nothing to state once there is no
  borrow checker.
- `calculate_length` (04-05, no-listing-07, no-listing-08) only wraps `String::len`.
- The module-privacy listings of chapter 7 are about visibility, not behaviour.
- listing-05-14 calls `can_hold`, whose definition is not in it.
- The method of no-listing-05-methods-on-enums has an empty body.
- listing-02-01 and listing-02-03 only read and echo a line. listing-02-04 compares a
  `String` with a number and does not compile.

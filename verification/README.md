# rush command parser — Dafny model

`rush` is a small interactive shell. Each line it reads is turned into a
`Cmd { binary, args }` by `Cmd::parse_from` in `src/cmd.rs`: the line is
split with Rust's `split_whitespace`, the first piece becomes the binary,
the remaining pieces become the arguments in order, and a line with no
piece at all is rejected with `ParseError::EmptyLine`.

The model has four modules.

- `Tokenizer` (`tokenizer.dfy`): whitespace as Rust's `char::is_whitespace`
  defines it (the Unicode White_Space property), the reference tokenisation
  `Tokens`, and an independent description of a line as a *layout*:
  separator, token, separator, …, token, separator, where every separator is
  whitespace and those between two tokens are non-empty. `TokensOfLayout` and
  `Separators` together show that `Tokens(s)` is the token sequence of the
  one layout that spells `s`, so it is exactly the maximal non-whitespace
  runs, nothing dropped, split, merged or reordered. `SplitWhitespace` is the
  character loop that `split_whitespace` runs (cut at every whitespace
  character, drop the empty pieces), proved equal to `Tokens`.
- `Command` (`cmd.dfy`): the `Cmd` and `ParseError` types, a `Result` type
  for Rust's `Result`, the pure `ParseFrom`, the executable `ParseLine`
  built on `SplitWhitespace`, and the properties of parsing: the error case,
  the round trip through a single-space rendering, and whitespace
  irrelevance.
- `CommandTests` (`cmd_tests.dfy`): the unit tests of `src/cmd.rs` as lemmas,
  plus a line of blanks, a tab and a newline.
- `SeqLemmas` (`seq_lemmas.dfy`): small facts about slicing and
  concatenating sequences that the tokenizer proofs cite.

Whitespace follows `char::is_whitespace`: the space, the ASCII controls
tab through carriage return, and above ASCII the code points with the
Unicode White_Space property (U+0085, U+00A0, U+1680, U+2000 to U+200A,
U+2028, U+2029, U+202F, U+205F, U+3000). Besides the concrete unit cases,
only `TokensOfJoin`, `Command.ParseRender` and `Command.RenderParse` depend
on which characters are whitespace, and only in needing the space to be one,
since `Join` separates tokens by a space; every other property holds for any
whitespace set.

Tokens are owned strings (`seq<char>`) instead of slices borrowed from the
line; the values are the same.

`src/main.rs` imports `Expression` from the `cmd` module and calls
`Expression::try_from` and `run()` on each line read, but the `src/cmd.rs`
modelled here defines only `Cmd`, `parse_from` and `ParseError`; those
names from `src/main.rs` are therefore absent (see below).

## Model

| member | source | states |
|---|---|---|
| Tokenizer.IsWhitespace | src/cmd.rs:11 | the character test `split_whitespace` cuts at (`char::is_whitespace`): the space, U+0009 to U+000D, and above U+007F the code points with the Unicode White_Space property |
| Tokenizer.WhitespaceIsWhiteSpaceProperty | src/cmd.rs:11 | the ASCII fast path and the ranges of the whitespace test select exactly the White_Space code points, listed one by one |
| Tokenizer.Tokens | src/cmd.rs:11 | the pieces `split_whitespace` yields: the maximal runs of non-whitespace characters in left-to-right order, as characterised by TokensOfLayout and Separators |
| Tokenizer.WordEndSpec | src/cmd.rs:11 | a token ends at the first whitespace character: no character before that position is whitespace, the one at it is, and a line starting with a non-whitespace character has a non-empty first word |
| Tokenizer.TokensAreTokens | src/cmd.rs:11 | every piece the whitespace split yields is non-empty and contains no whitespace character |
| Tokenizer.TokensEmptyIff | src/cmd.rs:11-12 | a line yields no piece if and only if every character of it is whitespace (the empty line included) |
| Tokenizer.TokensOfLayout | src/cmd.rs:11 | splitting any whitespace layout of a token sequence gives back exactly that sequence: leading, trailing and repeated whitespace is ignored and no token is split, merged, dropped or reordered |
| Tokenizer.Separators | src/cmd.rs:11 | every line is such a layout of its own pieces, so the pieces are exactly the maximal non-whitespace runs and cover every non-whitespace character |
| Tokenizer.TokensSkipWhitespace | src/cmd.rs:11 | leading whitespace yields no piece |
| Tokenizer.TokensTrailingWhitespace | src/cmd.rs:11 | trailing whitespace yields no piece |
| Tokenizer.TokensSplitAtWhitespace | src/cmd.rs:11 | a non-empty whitespace run divides a line into two parts whose pieces are concatenated |
| Tokenizer.TokensOfJoin | src/cmd.rs:11 | tokens joined by single spaces split back into the same tokens |
| Tokenizer.SplitWhitespace | src/cmd.rs:11 | cutting at each whitespace character and keeping the non-empty pieces yields exactly the reference tokenisation |
| Command.ParseFrom | src/cmd.rs:10-16 | fails, with EmptyLine, exactly on a line that is empty or all whitespace; otherwise the binary followed by the arguments is the line's piece sequence and each of them is a non-empty whitespace-free token |
| Command.ParseLine | src/cmd.rs:10-16 | taking the first piece of the splitter (EmptyLine if there is none) and collecting the rest gives the same result as ParseFrom |
| Command.ParseRender | src/cmd.rs:11-15 | a command of tokens joined with single spaces parses back to the same command |
| Command.RenderParse | src/cmd.rs:11-15 | re-rendering a parsed command gives a line with the same parse |
| Command.ParseLayout | src/cmd.rs:11-15 | any spacing-out of a command's tokens parses to that command |
| Command.ParseIsLayout | src/cmd.rs:11-15 | every line that parses is a spacing-out of the parsed command's binary and arguments |
| Command.ParseIgnoresPadding | src/cmd.rs:11 | adding leading or trailing whitespace, such as the newline kept by line reading, does not change the parse |
| Command.ParseIgnoresRunLength | src/cmd.rs:11 | replacing a whitespace run by any other non-empty whitespace run does not change the parse |
| CommandTests.EmptyLineFails | src/cmd.rs:29-31 | the empty line fails with EmptyLine |
| CommandTests.BlankLineFails | src/cmd.rs:11-12 | a line of blanks, a tab and a newline fails with EmptyLine |
| CommandTests.SingleBinary | src/cmd.rs:34-42 | "echo" parses to binary "echo" with no arguments |
| CommandTests.BinaryWithArguments | src/cmd.rs:45-53 | "echo 1 2 3" parses to binary "echo" with arguments "1", "2", "3" |

## Left out

- The read loop of `src/main.rs` (prompt, flush, reading stdin, ignoring `EmptyLine`): input/output plumbing with no logic to model.
- `Expression`, `Expression::try_from` and `run()`, which `src/main.rs` uses: their definitions are not part of this model.
- Borrowed `&'a str` slices and their lifetimes: tokens are modelled as owned strings with the same contents.
- The derived `Debug` and `PartialEq` implementations: Dafny datatypes have structural equality already.

/**
 A command line parsed into a binary and its arguments: the first
 whitespace-delimited token names the binary, the remaining tokens are its
 arguments in order, and a line without any token is an `EmptyLine` error.
 */
module Command {
  import opened Tokenizer

  /** A command: the binary to run and its arguments. Tokens are owned
      strings rather than slices borrowed from the line. */
  datatype Cmd = Cmd(binary: string, args: seq<string>)

  datatype ParseError = EmptyLine

  datatype Result<T, E> = Ok(value: T) | Err(error: E)

  /** What a parsed command always looks like: every part is a token. */
  predicate ValidCmd(c: Cmd) {
    IsToken(c.binary) && AllTokens(c.args)
  }

  /** The token sequence a command was parsed from. */
  function Parts(c: Cmd): seq<string> {
    [c.binary] + c.args
  }

  /** A canonical line for a command: its parts joined by single spaces. */
  function Render(c: Cmd): string {
    Join(Parts(c))
  }

  /** Split the line on whitespace; the first token is the binary and the
      rest are the arguments. Fails with `EmptyLine` exactly when the line
      holds nothing but whitespace. */
  function ParseFrom(line: string): (r: Result<Cmd, ParseError>)
    ensures r.Err? <==> AllWhitespace(line)
    ensures r.Err? ==> r.error == EmptyLine
    ensures r.Ok? ==> ValidCmd(r.value) && Parts(r.value) == Tokens(line)
  {
    var ts := Tokens(line);
    TokensEmptyIff(line);
    TokensAreTokens(line);
    if |ts| == 0 then Err(EmptyLine)
    else
      assert [ts[0]] + ts[1..] == ts;
      Ok(Cmd(ts[0], ts[1..]))
  }

  /** The parse as the program runs it: take the first piece produced by the
      whitespace splitter, failing if there is none, and collect the rest. */
  method ParseLine(line: string) returns (r: Result<Cmd, ParseError>)
    ensures r == ParseFrom(line)
  {
    var parts := SplitWhitespace(line);
    if |parts| == 0 {
      return Err(EmptyLine);
    }
    r := Ok(Cmd(parts[0], parts[1..]));
  }

  /** Any command made of tokens is parsed back from its rendering. */
  lemma ParseRender(c: Cmd)
    requires ValidCmd(c)
    ensures ParseFrom(Render(c)) == Ok(c)
  {
    var ps := Parts(c);
    assert ps[0] == c.binary && ps[1..] == c.args;
    assert forall i :: 0 < i < |ps| ==> ps[i] == c.args[i - 1];
    TokensOfJoin(ps);
  }

  /** Rendering a parsed command gives a line with the same parse. */
  lemma RenderParse(line: string)
    requires ParseFrom(line).Ok?
    ensures ParseFrom(Render(ParseFrom(line).value)) == ParseFrom(line)
  {
    ParseRender(ParseFrom(line).value);
  }

  /** However the tokens of a command are spaced out, the line parses to
      that command. */
  lemma ParseLayout(ws: seq<string>, c: Cmd)
    requires IsLayout(ws, Parts(c))
    ensures ParseFrom(Layout(ws, Parts(c))) == Ok(c)
  {
    TokensOfLayout(ws, Parts(c));
    var ps := Parts(c);
    assert ps[0] == c.binary && ps[1..] == c.args;
  }

  /** Conversely, a line that parses to `c` is a spacing-out of `c`'s
      tokens. */
  lemma ParseIsLayout(line: string)
    requires ParseFrom(line).Ok?
    ensures IsLayout(Separators(line), Parts(ParseFrom(line).value))
    ensures Layout(Separators(line), Parts(ParseFrom(line).value)) == line
  {
  }

  /** Leading and trailing whitespace (such as the newline kept by reading a
      line) does not change the parse. */
  lemma ParseIgnoresPadding(lead: string, line: string, trail: string)
    requires AllWhitespace(lead) && AllWhitespace(trail)
    ensures ParseFrom(lead + line + trail) == ParseFrom(line)
  {
    assert lead + line + trail == lead + (line + trail);
    TokensSkipWhitespace(lead, line + trail);
    TokensTrailingWhitespace(line, trail);
    TokensEmptyIff(lead + line + trail);
    TokensEmptyIff(line);
  }

  /** Replacing one whitespace run by another, longer or shorter, does not
      change the parse. */
  lemma ParseIgnoresRunLength(a: string, w: string, w': string, b: string)
    requires |w| > 0 && AllWhitespace(w)
    requires |w'| > 0 && AllWhitespace(w')
    ensures ParseFrom(a + w + b) == ParseFrom(a + w' + b)
  {
    TokensSplitAtWhitespace(a, w, b);
    TokensSplitAtWhitespace(a, w', b);
    TokensEmptyIff(a + w + b);
    TokensEmptyIff(a + w' + b);
  }
}

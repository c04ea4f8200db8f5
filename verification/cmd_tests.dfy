/** The unit cases of the command parser, as lemmas about `ParseFrom`. */
module CommandTests {
  import opened Tokenizer
  import opened Command

  /** A non-empty word of printable ASCII characters is a token. */
  lemma PrintableToken(t: string)
    requires |t| > 0 && forall i :: 0 <= i < |t| ==> '!' <= t[i] <= '~'
    ensures IsToken(t)
  {
    forall i | 0 <= i < |t| ensures !IsWhitespace(t[i]) {
      PrintableIsNotWhitespace(t[i]);
    }
  }

  lemma EmptyLineFails()
    ensures ParseFrom("") == Err(EmptyLine)
  {
  }

  /** A line of blanks, tabs and the newline kept by line reading has no
      binary either. */
  lemma BlankLineFails()
    ensures ParseFrom(" \t \n") == Err(EmptyLine)
  {
    assert AllWhitespace(" \t \n");
  }

  lemma SingleBinary()
    ensures ParseFrom("echo") == Ok(Cmd("echo", []))
  {
    PrintableToken("echo");
    ParseRender(Cmd("echo", []));
  }

  lemma BinaryWithArguments()
    ensures ParseFrom("echo 1 2 3") == Ok(Cmd("echo", ["1", "2", "3"]))
  {
    var c := Cmd("echo", ["1", "2", "3"]);
    PrintableToken("echo");
    PrintableToken("1");
    PrintableToken("2");
    PrintableToken("3");
    assert Render(c) == "echo 1 2 3";
    ParseRender(c);
  }
}

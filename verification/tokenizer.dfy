/**
 Whitespace tokenisation of a command line, as performed by Rust's
 `str::split_whitespace`: the line is cut at every whitespace character and
 the empty pieces are dropped, leaving the maximal runs of non-whitespace
 characters in left-to-right order.

 `Tokens` is the reference definition. `Layout` gives an independent,
 declarative description (a line is whitespace, token, whitespace, ...,
 token, whitespace), and the lemmas show that `Tokens` is exactly the token
 sequence of the unique such layout of a line. `SplitWhitespace` is the
 character loop, proved equal to `Tokens`.
 */
module Tokenizer {
  import opened SeqLemmas

  /** The code points above ASCII that have the Unicode White_Space
      property. */
  predicate IsUnicodeSpace(n: int) {
    || n == 0x85 || n == 0xA0 || n == 0x1680
    || (0x2000 <= n <= 0x200A) || n == 0x2028 || n == 0x2029 || n == 0x202F
    || n == 0x205F || n == 0x3000
  }

  /** Whitespace as `char::is_whitespace` (and so `split_whitespace`)
      decides it: the space and the ASCII controls tab to carriage return,
      and above ASCII the Unicode White_Space property. */
  predicate IsWhitespace(c: char) {
    || c == ' '
    || ('\t' <= c <= '\r')
    || ('\U{007F}' < c && IsUnicodeSpace(c as int))
  }

  /** The code points with the Unicode White_Space property, listed one by
      one. */
  const WhiteSpaceCodePoints: set<int> :=
    {0x09, 0x0A, 0x0B, 0x0C, 0x0D, 0x20, 0x85, 0xA0, 0x1680,
     0x2000, 0x2001, 0x2002, 0x2003, 0x2004, 0x2005, 0x2006, 0x2007, 0x2008,
     0x2009, 0x200A, 0x2028, 0x2029, 0x202F, 0x205F, 0x3000}

  /** The ASCII fast path and the ranges of `IsWhitespace` pick out exactly
      the White_Space code points: no ASCII character outside the space and
      tab to carriage return has the property, so the split at `0x7F` loses
      nothing. */
  lemma WhitespaceIsWhiteSpaceProperty(c: char)
    ensures IsWhitespace(c) <==> c as int in WhiteSpaceCodePoints
  {
  }

  /** Printable ASCII characters other than the space are not whitespace. */
  lemma PrintableIsNotWhitespace(c: char)
    requires '!' <= c <= '~'
    ensures !IsWhitespace(c)
  {
  }

  predicate AllWhitespace(s: string) {
    forall i :: 0 <= i < |s| ==> IsWhitespace(s[i])
  }

  predicate NoWhitespace(s: string) {
    forall i :: 0 <= i < |s| ==> !IsWhitespace(s[i])
  }

  /** A token is a non-empty string without whitespace. */
  predicate IsToken(t: string) {
    |t| > 0 && NoWhitespace(t)
  }

  predicate AllTokens(ts: seq<string>) {
    forall i :: 0 <= i < |ts| ==> IsToken(ts[i])
  }

  /** Length of the longest whitespace-free prefix of `s`, i.e. the index of
      the first whitespace character (or `|s|` if there is none); see
      `WordEndSpec`. */
  function WordEnd(s: string): (n: nat)
    ensures n <= |s|
  {
    if s == [] || IsWhitespace(s[0]) then 0 else 1 + WordEnd(s[1..])
  }

  /** `WordEnd(s)` is the position of the first whitespace character: every
      character before it is not whitespace and the one at it is. */
  lemma {:induction false} WordEndSpec(s: string)
    ensures NoWhitespace(s[..WordEnd(s)])
    ensures WordEnd(s) < |s| ==> IsWhitespace(s[WordEnd(s)])
    ensures s != [] && !IsWhitespace(s[0]) ==> WordEnd(s) > 0
    decreases |s|
  {
    if s != [] && !IsWhitespace(s[0]) {
      var n := WordEnd(s[1..]);
      WordEndSpec(s[1..]);
      assert s[..n + 1] == [s[0]] + s[1..][..n];
      if n + 1 < |s| {
        assert s[1..][n] == s[n + 1];
      }
    }
  }

  /** The maximal runs of non-whitespace characters of `s`, in order. */
  function Tokens(s: string): seq<string>
    decreases |s|
  {
    if s == [] then []
    else if IsWhitespace(s[0]) then Tokens(s[1..])
    else
      WordEndSpec(s);
      var n := WordEnd(s);
      [s[..n]] + Tokens(s[n..])
  }

  /** Every piece of the tokenisation is a token. */
  lemma {:induction false} TokensAreTokens(s: string)
    ensures AllTokens(Tokens(s))
    decreases |s|
  {
    if s != [] {
      if IsWhitespace(s[0]) {
        TokensAreTokens(s[1..]);
      } else {
        var n := WordEnd(s);
        WordEndSpec(s);
        TokensAreTokens(s[n..]);
        assert IsToken(s[..n]);
      }
    }
  }

  /** `ws[0] + ts[0] + ws[1] + ts[1] + ... + ts[k-1] + ws[k]`. */
  function Layout(ws: seq<string>, ts: seq<string>): string
    requires |ws| == |ts| + 1
    decreases |ts|
  {
    if |ts| == 0 then ws[0] else ws[0] + ts[0] + Layout(ws[1..], ts[1..])
  }

  /** `ws` and `ts` describe a line: the separators are whitespace, those
      between two tokens are non-empty, and the tokens are tokens. */
  predicate IsLayout(ws: seq<string>, ts: seq<string>) {
    && |ws| == |ts| + 1
    && (forall i :: 0 <= i < |ws| ==> AllWhitespace(ws[i]))
    && (forall i :: 0 < i < |ts| ==> |ws[i]| > 0)
    && AllTokens(ts)
  }

  /** The tokens joined by single spaces. */
  function Join(ts: seq<string>): string {
    if |ts| == 0 then ""
    else if |ts| == 1 then ts[0]
    else ts[0] + " " + Join(ts[1..])
  }

  /** The first whitespace position is unique. */
  lemma WordEndUnique(s: string, k: nat)
    requires k <= |s|
    requires NoWhitespace(s[..k])
    requires k < |s| ==> IsWhitespace(s[k])
    ensures WordEnd(s) == k
    decreases k
  {
    if k > 0 {
      assert s[..k][0] == s[0];
      assert s[1..][..k - 1] == s[..k][1..];
      WordEndUnique(s[1..], k - 1);
    }
  }

  /** Leading whitespace never contributes a token. */
  lemma {:induction false} TokensSkipWhitespace(w: string, b: string)
    requires AllWhitespace(w)
    ensures Tokens(w + b) == Tokens(b)
    decreases |w|
  {
    if w != [] {
      assert (w + b)[0] == w[0];
      assert (w + b)[1..] == w[1..] + b;
      TokensSkipWhitespace(w[1..], b);
    } else {
      assert w + b == b;
    }
  }

  /** A string that starts with a non-whitespace character starts with a
      token running up to its first whitespace character. */
  lemma TokensWordFirst(s: string)
    requires s != [] && !IsWhitespace(s[0])
    ensures Tokens(s) == [s[..WordEnd(s)]] + Tokens(s[WordEnd(s)..])
  {
  }

  /** Text appended after a whitespace character does not move the end of
      the first word. */
  lemma WordEndBeforeWhitespace(a: string, w: string, b: string)
    requires |w| > 0 && AllWhitespace(w)
    ensures WordEnd(a + w + b) == WordEnd(a)
    ensures (a + w + b)[..WordEnd(a)] == a[..WordEnd(a)]
  {
    var s := a + w + b;
    var m := WordEnd(a);
    WordEndSpec(a);
    TakeConcat(a, w, b, m);
    if m < |a| {
      assert s[m] == a[m];
    } else {
      assert s[m] == w[0];
    }
    WordEndUnique(s, m);
  }

  /** The inductive step of `TokensSplitAtWhitespace` for a leading word:
      the word is the first token on both sides. */
  lemma SplitAtWhitespaceWordStep(a: string, w: string, b: string)
    requires |w| > 0 && AllWhitespace(w)
    requires a != [] && !IsWhitespace(a[0])
    requires Tokens(a[WordEnd(a)..] + w + b) == Tokens(a[WordEnd(a)..]) + Tokens(b)
    ensures Tokens(a + w + b) == Tokens(a) + Tokens(b)
  {
    var s := a + w + b;
    var m := WordEnd(a);
    calc {
      Tokens(s);
    == { assert s[0] == a[0]; TokensWordFirst(s); WordEndBeforeWhitespace(a, w, b); }
      [s[..m]] + Tokens(s[m..]);
    == { WordEndBeforeWhitespace(a, w, b); DropConcat(a, w, b, m); }
      [a[..m]] + Tokens(a[m..] + w + b);
    ==
      [a[..m]] + (Tokens(a[m..]) + Tokens(b));
    == { AppendAssoc([a[..m]], Tokens(a[m..]), Tokens(b)); }
      ([a[..m]] + Tokens(a[m..])) + Tokens(b);
    == { TokensWordFirst(a); }
      Tokens(a) + Tokens(b);
    }
  }

  /** A non-empty whitespace run splits the tokenisation in two. */
  lemma {:induction false} TokensSplitAtWhitespace(a: string, w: string, b: string)
    requires |w| > 0 && AllWhitespace(w)
    ensures Tokens(a + w + b) == Tokens(a) + Tokens(b)
    decreases |a|
  {
    if a == [] {
      assert a + w + b == w + b;
      TokensSkipWhitespace(w, b);
    } else if IsWhitespace(a[0]) {
      var s := a + w + b;
      assert s[0] == a[0];
      DropConcat(a, w, b, 1);
      TokensSplitAtWhitespace(a[1..], w, b);
    } else {
      TokensSplitAtWhitespace(a[WordEnd(a)..], w, b);
      SplitAtWhitespaceWordStep(a, w, b);
    }
  }

  /** Trailing whitespace never contributes a token. */
  lemma TokensTrailingWhitespace(s: string, w: string)
    requires AllWhitespace(w)
    ensures Tokens(s + w) == Tokens(s)
  {
    if w == [] {
      assert s + w == s;
    } else {
      assert s + w == s + w + [];
      TokensSplitAtWhitespace(s, w, []);
    }
  }

  /** A whitespace-free string is one token, or none if it is empty. */
  lemma TokensOfWord(t: string)
    requires NoWhitespace(t)
    ensures Tokens(t) == if t == [] then [] else [t]
  {
    if t != [] {
      WordEndUnique(t, |t|);
      assert t[..|t|] == t;
      assert t[|t|..] == [];
    }
  }

  /** A line has no token exactly when it is all whitespace. */
  lemma {:induction false} TokensEmptyIff(s: string)
    ensures Tokens(s) == [] <==> AllWhitespace(s)
    decreases |s|
  {
    if s != [] && IsWhitespace(s[0]) {
      TokensEmptyIff(s[1..]);
      if AllWhitespace(s[1..]) {
        forall i | 0 <= i < |s| ensures IsWhitespace(s[i]) {
          if i > 0 { assert s[i] == s[1..][i - 1]; }
        }
      }
    }
  }

  /** Peeling the first separator and token off a layout. */
  lemma LayoutFirst(ws: seq<string>, ts: seq<string>)
    requires |ws| == |ts| + 1 && |ts| > 0
    ensures Layout(ws, ts) == ws[0] + (ts[0] + Layout(ws[1..], ts[1..]))
  {
    AppendAssoc(ws[0], ts[0], Layout(ws[1..], ts[1..]));
  }

  /** The rest of a layout with at least two tokens starts with the second
      separator and the second token. */
  lemma LayoutTail(ws: seq<string>, ts: seq<string>)
    requires |ws| == |ts| + 1 && |ts| > 1
    ensures Layout(ws[1..], ts[1..]) == ws[1] + (ts[1] + Layout(ws[2..], ts[2..]))
  {
    LayoutFirst(ws[1..], ts[1..]);
    assert ws[1..][1..] == ws[2..];
    assert ts[1..][1..] == ts[2..];
  }

  /** Dropping the first separator and token of a layout leaves a layout. */
  lemma IsLayoutTail(ws: seq<string>, ts: seq<string>)
    requires IsLayout(ws, ts) && |ts| > 0
    ensures IsLayout(ws[1..], ts[1..])
  {
    assert forall i :: 0 <= i < |ws| - 1 ==> ws[1..][i] == ws[i + 1];
    assert forall i :: 0 <= i < |ts| - 1 ==> ts[1..][i] == ts[i + 1];
  }

  /** Tokenising a layout gives back exactly its tokens: leading, trailing
      and repeated whitespace are irrelevant, and no token is split, merged,
      dropped or reordered. */
  lemma {:induction false} TokensOfLayout(ws: seq<string>, ts: seq<string>)
    requires IsLayout(ws, ts)
    ensures Tokens(Layout(ws, ts)) == ts
    decreases |ts|
  {
    if |ts| == 0 {
      TokensEmptyIff(ws[0]);
    } else if |ts| == 1 {
      calc {
        Tokens(Layout(ws, ts));
      == { LayoutFirst(ws, ts); }
        Tokens(ws[0] + (ts[0] + ws[1]));
      == { TokensSkipWhitespace(ws[0], ts[0] + ws[1]); }
        Tokens(ts[0] + ws[1]);
      == { TokensTrailingWhitespace(ts[0], ws[1]); TokensOfWord(ts[0]); }
        [ts[0]];
      }
    } else {
      var rest := Layout(ws[1..], ts[1..]);
      var tail := ts[1] + Layout(ws[2..], ts[2..]);
      calc {
        Tokens(Layout(ws, ts));
      == { LayoutFirst(ws, ts); }
        Tokens(ws[0] + (ts[0] + rest));
      == { TokensSkipWhitespace(ws[0], ts[0] + rest); }
        Tokens(ts[0] + rest);
      == { LayoutTail(ws, ts); AppendAssoc(ts[0], ws[1], tail); }
        Tokens(ts[0] + ws[1] + tail);
      == { TokensSplitAtWhitespace(ts[0], ws[1], tail); TokensOfWord(ts[0]); }
        [ts[0]] + Tokens(tail);
      == { LayoutTail(ws, ts); TokensSkipWhitespace(ws[1], tail); }
        [ts[0]] + Tokens(rest);
      == { IsLayoutTail(ws, ts); TokensOfLayout(ws[1..], ts[1..]); }
        [ts[0]] + ts[1..];
      == { ConsTail(ts); }
        ts;
      }
    }
  }

  /** Prefixing the first separator prefixes the whole layout. */
  lemma LayoutPrefix(p: string, ws: seq<string>, ts: seq<string>)
    requires |ws| == |ts| + 1
    ensures Layout([p + ws[0]] + ws[1..], ts) == p + Layout(ws, ts)
  {
    var ws' := [p + ws[0]] + ws[1..];
    assert ws'[1..] == ws[1..];
    if |ts| > 0 {
      AppendAssoc(p, ws[0], ts[0] + Layout(ws[1..], ts[1..]));
    }
  }

  /** Whitespace added in front of the first separator keeps a layout. */
  lemma IsLayoutPrefix(p: string, ws: seq<string>, ts: seq<string>)
    requires AllWhitespace(p) && IsLayout(ws, ts)
    ensures IsLayout([p + ws[0]] + ws[1..], ts)
  {
    var ws2 := [p + ws[0]] + ws[1..];
    assert forall i :: 0 < i < |ws2| ==> ws2[i] == ws[i];
    assert AllWhitespace(ws2[0]) by {
      forall i | 0 <= i < |ws2[0]| ensures IsWhitespace(ws2[0][i]) {
        if i >= |p| { assert ws2[0][i] == ws[0][i - |p|]; }
      }
    }
  }

  /** A leading whitespace character joins the first separator. */
  lemma SeparatorsWhitespaceStep(c: char, rest: string, ws': seq<string>)
    requires IsWhitespace(c)
    requires IsLayout(ws', Tokens(rest)) && Layout(ws', Tokens(rest)) == rest
    ensures IsLayout([[c] + ws'[0]] + ws'[1..], Tokens([c] + rest))
    ensures Layout([[c] + ws'[0]] + ws'[1..], Tokens([c] + rest)) == [c] + rest
  {
    assert AllWhitespace([c]);
    TokensSkipWhitespace([c], rest);
    LayoutPrefix([c], ws', Tokens(rest));
    IsLayoutPrefix([c], ws', Tokens(rest));
  }

  /** Extending a layout at the front by a separator and a token. */
  lemma LayoutCons(w: string, t: string, ws: seq<string>, ts: seq<string>)
    requires IsLayout(ws, ts)
    requires AllWhitespace(w) && IsToken(t)
    requires |ts| > 0 ==> |ws[0]| > 0
    ensures IsLayout([w] + ws, [t] + ts)
    ensures Layout([w] + ws, [t] + ts) == w + t + Layout(ws, ts)
  {
    var ws2 := [w] + ws;
    var ts2 := [t] + ts;
    assert ws2[1..] == ws && ts2[1..] == ts;
    assert forall i :: 0 < i < |ws2| ==> ws2[i] == ws[i - 1];
    assert forall i :: 0 < i < |ts2| ==> ts2[i] == ts[i - 1];
  }

  /** A leading word becomes the first token, after an empty separator. */
  lemma SeparatorsWordStep(s: string, ws': seq<string>)
    requires s != [] && !IsWhitespace(s[0])
    requires IsLayout(ws', Tokens(s[WordEnd(s)..]))
    requires Layout(ws', Tokens(s[WordEnd(s)..])) == s[WordEnd(s)..]
    requires WordEnd(s) < |s| ==> |ws'[0]| > 0
    ensures IsLayout([[]] + ws', Tokens(s))
    ensures Layout([[]] + ws', Tokens(s)) == s
  {
    var n := WordEnd(s);
    WordEndSpec(s);
    var rest := Tokens(s[n..]);
    TokensWordFirst(s);
    assert |rest| > 0 ==> n < |s| by {
      if n == |s| {
        EmptyDrop(s);
      }
    }
    assert AllWhitespace([]);
    LayoutCons([], s[..n], ws', rest);
    TakeDrop(s, n);
  }

  /** The separators of `s`: together with `Tokens(s)` they lay out `s`
      exactly, so every line is a layout of its tokens. */
  function Separators(s: string): (ws: seq<string>)
    ensures IsLayout(ws, Tokens(s))
    ensures Layout(ws, Tokens(s)) == s
    ensures s != [] && IsWhitespace(s[0]) ==> |ws[0]| > 0
    decreases |s|
  {
    if s == [] then [[]]
    else if IsWhitespace(s[0]) then
      var ws' := Separators(s[1..]);
      SeparatorsWhitespaceStep(s[0], s[1..], ws');
      assert [s[0]] + s[1..] == s;
      [[s[0]] + ws'[0]] + ws'[1..]
    else
      var ws' := Separators(s[WordEnd(s)..]);
      WordEndSpec(s);
      SeparatorsWordStep(s, ws');
      [[]] + ws'
  }

  /** `Join` lays its tokens out with one space between neighbours. */
  lemma {:induction false} TokensOfJoin(ts: seq<string>)
    requires AllTokens(ts)
    ensures Tokens(Join(ts)) == ts
    decreases |ts|
  {
    if |ts| == 1 {
      TokensOfWord(ts[0]);
    } else if |ts| > 1 {
      assert AllWhitespace(" ");
      TokensSplitAtWhitespace(ts[0], " ", Join(ts[1..]));
      TokensOfWord(ts[0]);
      TokensOfJoin(ts[1..]);
      assert [ts[0]] + ts[1..] == ts;
    }
  }

  /** The piece `split_whitespace` yields when it meets a whitespace
      character: the text since the previous cut, unless it is empty. */
  function Piece(s: string, start: nat, i: nat): seq<string>
    requires start <= i <= |s|
  {
    if start < i then [s[start..i]] else []
  }

  /** Cutting at a whitespace character emits the piece before it, if any. */
  lemma SplitStep(s: string, start: nat, i: nat)
    requires start <= i < |s|
    requires NoWhitespace(s[start..i]) && IsWhitespace(s[i])
    ensures Tokens(s[start..]) == Piece(s, start, i) + Tokens(s[i + 1..])
  {
    var piece := s[start..i];
    assert s[start..] == piece + [s[i]] + s[i + 1..];
    assert AllWhitespace([s[i]]);
    TokensSplitAtWhitespace(piece, [s[i]], s[i + 1..]);
    TokensOfWord(piece);
  }

  /** The loop invariant of `SplitWhitespace` survives a cut. */
  lemma SplitStepKeeps(s: string, start: nat, i: nat, ts: seq<string>)
    requires start <= i < |s|
    requires NoWhitespace(s[start..i]) && IsWhitespace(s[i])
    requires ts + Tokens(s[start..]) == Tokens(s)
    ensures (ts + Piece(s, start, i)) + Tokens(s[i + 1..]) == Tokens(s)
  {
    SplitStep(s, start, i);
    AppendAssoc(ts, Piece(s, start, i), Tokens(s[i + 1..]));
  }

  /** At the end of the line the last piece, if any, is emitted. */
  lemma SplitDone(s: string, start: nat, ts: seq<string>)
    requires start <= |s|
    requires NoWhitespace(s[start..|s|])
    requires ts + Tokens(s[start..]) == Tokens(s)
    ensures ts + Piece(s, start, |s|) == Tokens(s)
  {
    SliceToEnd(s, start);
    TokensOfWord(s[start..]);
  }

  lemma WordGrows(s: string, start: nat, i: nat)
    requires start <= i < |s|
    requires NoWhitespace(s[start..i]) && !IsWhitespace(s[i])
    ensures NoWhitespace(s[start..i + 1])
  {
    assert s[start..i + 1] == s[start..i] + [s[i]];
  }

  /** The tokeniser as `split_whitespace` runs it: cut at every whitespace
      character and keep the non-empty pieces. */
  method SplitWhitespace(s: string) returns (ts: seq<string>)
    ensures ts == Tokens(s)
  {
    ts := [];
    var start := 0;
    var i := 0;
    assert s[start..] == s;
    while i < |s|
      invariant 0 <= start <= i <= |s|
      invariant NoWhitespace(s[start..i])
      invariant ts + Tokens(s[start..]) == Tokens(s)
    {
      if IsWhitespace(s[i]) {
        SplitStepKeeps(s, start, i, ts);
        ts := ts + Piece(s, start, i);
        start := i + 1;
      } else {
        WordGrows(s, start, i);
      }
      i := i + 1;
    }
    SplitDone(s, start, ts);
    ts := ts + Piece(s, start, |s|);
  }
}

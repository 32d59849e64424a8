/** How much of the text goes with an error: its own line, except that a redirection at the
    end of a line takes the next line too. */
module ShellRecovery {
  import opened ShellLexer
  import opened ShellParser
  import opened ShellGrammar
  import opened ShellAgreement
  import opened ShellAborts

  predicate NoNewLine(toks: seq<Tok>) {
    forall k :: 0 <= k < |toks| ==> !toks[k].kind.NewLine?
  }

  /** Up to `used` stand newlines and one line: tokens through the first newline behind them. */
  ghost predicate OneLine(s: string, used: nat) {
    exists n, toks :: ThroughNewLine(toks) && |toks| > 1 && Lexes(s, 0, NewLines(n) + toks, used)
  }

  /** A redirection whose word is missing because the line ends. */
  predicate NewLineOffends(v: Violation) {
    v.BadRedirect? && v.offender.kind.NewLine?
  }

  /** Up to `used` stand newlines, a line with such a redirection, and what is skipped. */
  ghost predicate BreaksAtRedirect(s: string, used: nat) {
    exists n, v, skipped :: ValidViolation(v) && NewLineOffends(v) && Skipped(v, skipped)
      && Lexes(s, 0, NewLines(n) + ViolationToks(v) + skipped, used)
  }

  lemma {:induction false} WordsHaveNoNewLine(words: seq<string>)
    ensures NoNewLine(WordToks(words))
  {
    if words != [] {
      WordsHaveNoNewLine(words[1..]);
    }
  }

  lemma {:induction false} ChainHasNoNewLine(exprs: seq<Expr>)
    ensures NoNewLine(ChainToks(exprs)) && (exprs != [] ==> ChainToks(exprs) != [])
  {
    if exprs != [] {
      var e := exprs[|exprs| - 1];
      ChainHasNoNewLine(exprs[..|exprs| - 1]);
      if e.Command? {
        WordsHaveNoNewLine(e.args);
      }
    }
  }

  lemma {:induction false} NewLinesAre(n: nat)
    ensures |NewLines(n)| == n && forall k :: 0 <= k < n ==> NewLines(n)[k] == NL
  {
    if n > 0 {
      NewLinesAre(n - 1);
    }
  }

  /** The tokens between two positions are determined. */
  lemma {:induction false} LexesUnique(s: string, i: nat, a: seq<Tok>, b: seq<Tok>, j: nat)
    requires i <= |s| && Lexes(s, i, a, j) && Lexes(s, i, b, j)
    ensures a == b
    decreases |a|
  {
    LexesBounds(s, i, a, j);
    LexesBounds(s, i, b, j);
    if a != [] {
      TokenBounds(s, i);
      LexesUnique(s, ParseToken(s, i).next, a[1..], b[1..], j);
      assert a == [a[0]] + a[1..] && b == [b[0]] + b[1..];
    }
  }

  /** What stands before the offender, or before the final newline of a dangling line. */
  lemma BeforeOffender(v: Violation) returns (front: seq<Tok>, t: Tok)
    requires ValidViolation(v)
    ensures ViolationToks(v) == front + [t] && NoNewLine(front)
    ensures t.kind.NewLine? <==> v.Dangling? || NewLineOffends(v)
    ensures v.Dangling? || v.BadRedirect? ==> front != []
  {
    hide Chain, ChainToks, ViolationToks;
    ChainHasNoNewLine(ViolationChain(v));
    ViolationSplits(v);
    var tail := ViolationTail(v);
    front, t := ChainToks(ViolationChain(v)) + tail[..|tail| - 1], tail[|tail| - 1];
    assert tail == tail[..|tail| - 1] + [t];
  }

  lemma OwnLineOnly(s: string, n: nat, v: Violation, skipped: seq<Tok>, used: nat)
    requires ValidViolation(v) && Skipped(v, skipped) && !NewLineOffends(v)
    requires Lexes(s, 0, NewLines(n) + ViolationToks(v) + skipped, used)
    ensures OneLine(s, used)
  {
    hide Lexes, ViolationToks, NewLines, ValidViolation;
    var front, t := BeforeOffender(v);
    var toks := ViolationToks(v) + skipped;
    assert NewLines(n) + ViolationToks(v) + skipped == NewLines(n) + toks;
    assert ThroughNewLine(toks) && |toks| > 1;
  }

  /** A line read behind m newlines ends with the first newline behind other tokens. */
  lemma EndsAtNewLine(n: nat, front: seq<Tok>, t: Tok, rest: seq<Tok>, m: nat, toks: seq<Tok>)
    requires front != [] && NoNewLine(front) && t.kind.NewLine? && ThroughNewLine(toks)
    requires NewLines(n) + front + [t] + rest == NewLines(m) + toks
    ensures rest == []
  {
    NewLinesAre(n);
    NewLinesAre(m);
    var all := NewLines(m) + toks;
    var p := n + |front|;
    assert all[n] == front[0] && all[p] == t;
    assert m <= n;
    assert toks[p - m] == t;
  }

  lemma TwoNewLines(s: string, n: nat, v: Violation, skipped: seq<Tok>, used: nat)
    requires ValidViolation(v) && Skipped(v, skipped) && NewLineOffends(v)
    requires Lexes(s, 0, NewLines(n) + ViolationToks(v) + skipped, used)
    ensures !OneLine(s, used)
  {
    hide Lexes, ViolationToks, NewLines;
    if OneLine(s, used) {
      var m, toks :| ThroughNewLine(toks) && |toks| > 1 && Lexes(s, 0, NewLines(m) + toks, used);
      var front, t := BeforeOffender(v);
      LexesUnique(s, 0, NewLines(n) + ViolationToks(v) + skipped, NewLines(m) + toks, used);
      assert NewLines(n) + front + [t] + skipped == NewLines(n) + ViolationToks(v) + skipped;
      EndsAtNewLine(n, front, t, skipped, m, toks);
    }
  }

  /** An error takes exactly the line it is in, with the newlines before it, unless a
      redirection is missing its word at the end of the line: then the line after it is
      skipped as well. */
  lemma ErrorTakesItsLineIff(s: string)
    requires PopNext(s).Failed?
    ensures OneLine(s, PopNext(s).used) <==> !BreaksAtRedirect(s, PopNext(s).used)
  {
    var Failed(error, used) := PopNext(s);
    FailedIffViolation(s, error, used);
    var n, v, skipped :|
      && ValidViolation(v) && ViolationError(v) == error && Skipped(v, skipped)
      && Lexes(s, 0, NewLines(n) + ViolationToks(v) + skipped, used);
    if NewLineOffends(v) {
      TwoNewLines(s, n, v, skipped, used);
    } else {
      OwnLineOnly(s, n, v, skipped, used);
      if BreaksAtRedirect(s, used) {
        var m, v', skipped' :|
          && ValidViolation(v') && NewLineOffends(v') && Skipped(v', skipped')
          && Lexes(s, 0, NewLines(m) + ViolationToks(v') + skipped', used);
        TwoNewLines(s, m, v', skipped', used);
      }
    }
  }

  /** The line with `b` is lost. */
  lemma RedirectTakesTheNextLine()
    ensures PopNext("a>\nb\n") == Failed(RedirectBadArg, 5)
  {
    var s := "a>\nb\n";
    ParseHere(s, 0);
    assert "" + ['a'] == "a" && Word(s, 1, NoQuote, "a") == Token(Str, "a", 1);
    ParseHere(s, 1);
    ParseHere(s, 2);
    ParseHere(s, 3);
    assert "" + ['b'] == "b" && Word(s, 4, NoQuote, "b") == Token(Str, "b", 4);
    ParseHere(s, 4);
    assert Recover(s, 4, RedirectBadArg) == Failed(RedirectBadArg, 5);
  }

  /** A pipe at the end of a line does not take the next one. */
  lemma PipeTakesItsLine()
    ensures PopNext("a|\nb\n") == Failed(EndsNotWithACommand, 3)
  {
    var s := "a|\nb\n";
    ParseHere(s, 0);
    assert "" + ['a'] == "a" && Word(s, 1, NoQuote, "a") == Token(Str, "a", 1);
    ParseHere(s, 1);
    ParseHere(s, 2);
  }
}

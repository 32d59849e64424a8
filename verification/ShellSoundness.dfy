/** One direction of the agreement between parser_pop_next and the grammar: what the parser
    says of a text is justified by the tokens that stand there. The labels of the C function
    are taken from the last to the first; each lemma carries the tokens read so far, as a
    chain of expressions behind newlines, to where control goes next. */
module ShellSoundness {
  import opened ShellLexer
  import opened ShellParser
  import opened ShellGrammar

  lemma {:induction false} RecoverSkips(s: string, i: nat, error: Error) returns (skipped: seq<Tok>)
    requires i <= |s| && Recover(s, i, error).Failed?
    ensures Recover(s, i, error).error == error
    ensures ThroughNewLine(skipped) && Lexes(s, i, skipped, Recover(s, i, error).used)
    decreases |s| - i
  {
    TokenBounds(s, i);
    var r := ParseToken(s, i);
    var t := Tok(r.kind, r.text);
    LexesOne(s, i, t);
    if r.kind.NewLine? {
      skipped := [t];
    } else {
      var rest := RecoverSkips(s, r.next, error);
      LexesJoin(s, i, [t], r.next, rest, Recover(s, i, error).used);
      skipped := [t] + rest;
    }
  }

  lemma {:induction false} RecoverAborts(s: string, i: nat, error: Error) returns (skipped: seq<Tok>, m: nat)
    requires i <= |s| && Recover(s, i, error).Aborted?
    ensures forall k :: 0 <= k < |skipped| ==> !skipped[k].kind.NewLine?
    ensures m <= |s| && Lexes(s, i, skipped, m) && ParseToken(s, m).AssertFailed?
    decreases |s| - i
  {
    TokenBounds(s, i);
    var r := ParseToken(s, i);
    skipped, m := [], i;
    if r.Token? {
      var t := Tok(r.kind, r.text);
      LexesOne(s, i, t);
      var rest;
      rest, m := RecoverAborts(s, r.next, error);
      LexesJoin(s, i, [t], r.next, rest, m);
      skipped := [t] + rest;
    }
  }

  lemma RecoverFails(s: string, i: nat, n: nat, v: Violation)
    requires i <= |s| && ValidViolation(v) && !v.Dangling?
    requires Lexes(s, 0, NewLines(n) + ViolationToks(v), i)
    requires Recover(s, i, ViolationError(v)).Failed?
    ensures Justified(s, Recover(s, i, ViolationError(v)))
  {
    hide ViolationToks, ParseToken, Recover, Aborts;
    var error := ViolationError(v);
    var skipped := RecoverSkips(s, i, error);
    var used := Recover(s, i, error).used;
    LexesJoin(s, 0, NewLines(n) + ViolationToks(v), i, skipped, used);
    assert Skipped(v, skipped);
    assert Rejects(s, error, used);
  }

  lemma RecoverReachesAbort(s: string, i: nat, n: nat, v: Violation)
    requires i <= |s| && ValidViolation(v) && !v.Dangling?
    requires Lexes(s, 0, NewLines(n) + ViolationToks(v), i)
    requires Recover(s, i, ViolationError(v)).Aborted?
    ensures Aborts(s)
  {
    hide ViolationToks, ParseToken, Recover, ValidViolation, Lexes, NewLines;
    var skipped, m := RecoverAborts(s, i, ViolationError(v));
    LexesJoin(s, 0, NewLines(n) + ViolationToks(v), i, skipped, m);
    assert NewLines(n) + ViolationToks(v) + skipped == NewLines(n) + AskToks(Skipping(v, skipped));
    assert AbortsAt(s, n, Skipping(v, skipped), m);
  }

  lemma RecoverJustified(s: string, i: nat, n: nat, v: Violation)
    requires i <= |s| && ValidViolation(v) && !v.Dangling?
    requires Lexes(s, 0, NewLines(n) + ViolationToks(v), i)
    ensures Justified(s, Recover(s, i, ViolationError(v)))
  {
    hide ViolationToks, ValidViolation, Recover, Aborts, Rejects, Lexes;
    RecoverProgress(s, i, ViolationError(v));
    if Recover(s, i, ViolationError(v)).Failed? {
      RecoverFails(s, i, n, v);
    } else if Recover(s, i, ViolationError(v)).Aborted? {
      RecoverReachesAbort(s, i, n, v);
    }
  }

  lemma FinishJustified(s: string, i: nat, n: nat, line: Line, k: Kind, w: string, j: nat)
    requires i <= |s| && Chain(line.exprs) && ValidOutput(line.output)
    requires Lexes(s, 0, NewLines(n) + LineToks(line), i)
    requires ParseToken(s, i) == Token(k, w, j) && i < j <= |s|
    requires line.output.Stdout? && !line.background ==> k.NewLine? && line.exprs != []
    requires k.Background? ==> line.background
    ensures Justified(s, Finish(s, j, line, k))
  {
    var toks := NewLines(n) + LineToks(line);
    LexesMore(s, 0, toks, i);
    if !k.NewLine? {
      var v := TooLate(line, Tok(k, w));
      assert toks + [Tok(k, w)] == NewLines(n) + ViolationToks(v);
      RecoverJustified(s, j, n, v);
    } else if line.exprs != [] && !EndsWithCommand(line.exprs) {
      var v := Dangling(line);
      NewLineText(s, i);
      assert toks + [Tok(k, w)] == NewLines(n) + ViolationToks(v) + [];
      assert Skipped(v, []);
      assert Rejects(s, EndsNotWithACommand, j);
    } else if line.exprs != [] {
      NewLineText(s, i);
      assert Accepts(s, line, j);
    } else {
      assert AbortsAt(s, n, InLine(line), i);
    }
  }

  /** Newline tokens and operators carry no text. */
  lemma NewLineText(s: string, i: nat)
    requires i <= |s|
    ensures var r := ParseToken(s, i); r.Token? && !r.kind.Str? ==> r.text == ""
  {
    TokenBounds(s, i);
  }

  lemma AmpersandJustified(s: string, i: nat, n: nat, exprs: seq<Expr>, output: Output, k: Kind, w: string, j: nat)
    requires i <= |s| && Chain(exprs) && ValidOutput(output)
    requires Lexes(s, 0, NewLines(n) + LineToks(Line(exprs, output, false)), i)
    requires ParseToken(s, i) == Token(k, w, j) && i < j <= |s|
    requires output.Stdout? ==> k.Background? || (k.NewLine? && exprs != [])
    ensures Justified(s, Ampersand(s, j, exprs, output, k))
  {
    var line := Line(exprs, output, false);
    if !k.Background? {
      FinishJustified(s, i, n, line, k, w, j);
    } else {
      NewLineText(s, i);
      LexesMore(s, 0, NewLines(n) + LineToks(line), i);
      var line' := Line(exprs, output, true);
      assert NewLines(n) + LineToks(line) + [Tok(k, w)] == NewLines(n) + LineToks(line');
      TokenBounds(s, j);
      match ParseToken(s, j)
      case Token(k1, w1, j1) => FinishJustified(s, j, n, line', k1, w1, j1);
      case AssertFailed => assert AbortsAt(s, n, InLine(line'), j);
      case NeedMore =>
    }
  }

  /** A redirection operator has been read at i; its word follows at j. */
  lemma RedirectJustified(s: string, j: nat, n: nat, exprs: seq<Expr>, k: Kind)
    requires 0 < j <= |s| && Chain(exprs) && IsRedirect(k)
    requires Lexes(s, 0, NewLines(n) + ChainToks(exprs) + [Tok(k, "")], j)
    ensures Justified(s, Close(s, j, exprs, k))
  {
    hide Chain, NewLines, ChainToks, Accepts, Rejects;
    var toks := NewLines(n) + ChainToks(exprs) + [Tok(k, "")];
    var a := ForFileName(exprs, k.OutAppend?);
    assert toks == NewLines(n) + AskToks(a);
    TokenBounds(s, j);
    match ParseToken(s, j)
    case Token(k1, w1, i1) =>
      LexesMore(s, 0, toks, j);
      if !k1.Str? {
        var v := BadRedirect(exprs, k.OutAppend?, Tok(k1, w1));
        assert toks + [Tok(k1, w1)] == NewLines(n) + ViolationToks(v);
        RecoverJustified(s, i1, n, v);
      } else if w1 != "" {
        var output := if k.OutNew? then FileNew(w1) else FileAppend(w1);
        assert toks + [Tok(k1, w1)] == NewLines(n) + LineToks(Line(exprs, output, false));
        TokenBounds(s, i1);
        match ParseToken(s, i1)
        case Token(k2, w2, i2) => AmpersandJustified(s, i1, n, exprs, output, k2, w2, i2);
        case AssertFailed => assert AbortsAt(s, n, InLine(Line(exprs, output, false)), i1);
        case NeedMore =>
      } else {
        assert AbortsAt(s, n, a, j);
      }
    case AssertFailed => assert AbortsAt(s, n, a, j);
    case NeedMore =>
  }

  lemma CloseJustified(s: string, i: nat, n: nat, exprs: seq<Expr>, k: Kind, w: string, j: nat)
    requires i <= |s| && Chain(exprs) && Lexes(s, 0, NewLines(n) + ChainToks(exprs), i)
    requires ParseToken(s, i) == Token(k, w, j) && i < j <= |s|
    requires !k.Str? && !IsConnective(k) && (k.NewLine? ==> exprs != [])
    ensures Justified(s, Close(s, j, exprs, k))
  {
    var toks := NewLines(n) + ChainToks(exprs);
    if IsRedirect(k) {
      NewLineText(s, i);
      LexesMore(s, 0, toks, i);
      RedirectJustified(s, j, n, exprs, k);
    } else {
      assert toks == NewLines(n) + LineToks(Line(exprs, Stdout, false));
      AmpersandJustified(s, i, n, exprs, Stdout, k, w, j);
    }
  }

  lemma ConnectiveJustified(s: string, n: nat, exprs: seq<Expr>, k: Kind, j: nat)
    requires j <= |s| && Chain(exprs) && IsConnective(k) && !EndsWithCommand(exprs)
    requires Lexes(s, 0, NewLines(n) + ChainToks(exprs) + [Tok(k, "")], j)
    ensures Justified(s, Recover(s, j, if exprs == [] then NoLeftArg(k) else NotACommand(k)))
  {
    var v := Connective(exprs, k);
    assert NewLines(n) + ChainToks(exprs) + [Tok(k, "")] == NewLines(n) + ViolationToks(v);
    RecoverJustified(s, j, n, v);
  }

  /** exprs is the chain read up to i, after n newlines. */
  ghost predicate ReadUpTo(s: string, i: nat, n: nat, exprs: seq<Expr>) {
    Chain(exprs) && i <= |s| && Lexes(s, 0, NewLines(n) + ChainToks(exprs), i)
  }

  lemma ReadWord(s: string, i: nat, n: nat, exprs: seq<Expr>, w: string, j: nat)
    requires ReadUpTo(s, i, n, exprs) && ParseToken(s, i) == Token(Str, w, j) && w != ""
    ensures ReadUpTo(s, j, n, AddWord(exprs, w))
  {
    LexesMore(s, 0, NewLines(n) + ChainToks(exprs), i);
    ChainWord(exprs, w);
    assert NewLines(n) + ChainToks(exprs) + [Tok(Str, w)] == NewLines(n) + ChainToks(AddWord(exprs, w));
  }

  lemma ReadNewLine(s: string, i: nat, n: nat, w: string, j: nat)
    requires ReadUpTo(s, i, n, []) && ParseToken(s, i) == Token(NewLine, w, j)
    ensures ReadUpTo(s, j, n + 1, [])
  {
    NewLineText(s, i);
    LexesMore(s, 0, NewLines(n) + ChainToks([]), i);
    assert NewLines(n) + ChainToks([]) + [NL] == NewLines(n + 1) + ChainToks([]);
  }

  lemma ReadOperator(s: string, i: nat, n: nat, exprs: seq<Expr>, k: Kind, w: string, j: nat)
    requires ReadUpTo(s, i, n, exprs) && IsConnective(k) && EndsWithCommand(exprs)
    requires ParseToken(s, i) == Token(k, w, j)
    ensures ReadUpTo(s, j, n, exprs + [OpExpr(k)])
  {
    NewLineText(s, i);
    LexesMore(s, 0, NewLines(n) + ChainToks(exprs), i);
    ChainOperator(exprs, k);
    assert NewLines(n) + ChainToks(exprs) + [Tok(k, w)] == NewLines(n) + ChainToks(exprs + [OpExpr(k)]);
  }

  lemma ReadToAbort(s: string, i: nat, n: nat, exprs: seq<Expr>)
    requires ReadUpTo(s, i, n, exprs)
    requires var r := ParseToken(s, i); r.AssertFailed? || (r.Token? && r.kind.Str? && r.text == "")
    ensures Aborts(s)
  {
    var line := Line(exprs, Stdout, false);
    assert NewLines(n) + ChainToks(exprs) == NewLines(n) + LineToks(line);
    assert AbortsAt(s, n, InLine(line), i);
  }

  lemma {:induction false} BodyJustified(s: string, i: nat, n: nat, exprs: seq<Expr>)
    requires ReadUpTo(s, i, n, exprs)
    ensures Justified(s, Body(s, i, exprs))
    decreases |s| - i
  {
    TokenBounds(s, i);
    match ParseToken(s, i)
    case Token(k, w, j) =>
      if k.Str? {
        if w != "" {
          ReadWord(s, i, n, exprs, w, j);
          BodyJustified(s, j, n, AddWord(exprs, w));
        } else {
          ReadToAbort(s, i, n, exprs);
        }
      } else if k.NewLine? && exprs == [] {
        ReadNewLine(s, i, n, w, j);
        BodyJustified(s, j, n + 1, exprs);
      } else if IsConnective(k) {
        if EndsWithCommand(exprs) {
          ReadOperator(s, i, n, exprs, k, w, j);
          BodyJustified(s, j, n, exprs + [OpExpr(k)]);
        } else {
          LexesMore(s, 0, NewLines(n) + ChainToks(exprs), i);
          ConnectiveJustified(s, n, exprs, k, j);
        }
      } else {
        CloseJustified(s, i, n, exprs, k, w, j);
      }
    case AssertFailed => ReadToAbort(s, i, n, exprs);
    case NeedMore =>
  }
}

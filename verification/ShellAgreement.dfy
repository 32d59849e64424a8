/** parser_pop_next reads exactly the lines of the grammar, and refuses each other complete
    line for its first violation. */
module ShellAgreement {
  import opened ShellLexer
  import opened ShellParser
  import opened ShellGrammar
  import opened ShellSoundness

  lemma {:induction false} NewLinesRead(s: string, n: nat, i: nat)
    requires Lexes(s, 0, NewLines(n), i)
    ensures i <= |s| && PopNext(s) == Body(s, i, [])
  {
    LexesBounds(s, 0, NewLines(n), i);
    if n > 0 {
      var j := LexesSplit(s, 0, NewLines(n - 1), [NL], i);
      NewLinesRead(s, n - 1, j);
      LexesOne(s, j, NL);
    }
  }

  lemma {:induction false} ArgsRead(s: string, i: nat, init: seq<Expr>, exe: string, args: seq<string>,
      more: seq<string>, j: nat)
    requires i <= |s| && Lexes(s, i, WordToks(more), j)
    requires forall k :: 0 <= k < |more| ==> more[k] != ""
    ensures j <= |s| && Body(s, i, init + [Command(exe, args)]) == Body(s, j, init + [Command(exe, args + more)])
    decreases |more|
  {
    hide ParseToken, Close, Recover, Chain;
    if more == [] {
      assert args + [] == args;
    } else {
      var m := LexesSplit(s, i, [Tok(Str, more[0])], WordToks(more[1..]), j);
      LexesOne(s, i, Tok(Str, more[0]));
      var exprs := init + [Command(exe, args)];
      assert AddWord(exprs, more[0]) == init + [Command(exe, args + [more[0]])];
      ArgsRead(s, m, init, exe, args + [more[0]], more[1..], j);
      assert args + [more[0]] + more[1..] == args + more;
    }
  }

  lemma ExprRead(s: string, i: nat, exprs: seq<Expr>, j: nat)
    requires i <= |s| && exprs != [] && Chain(exprs)
    requires Lexes(s, i, ExprToks(exprs[|exprs| - 1]), j)
    ensures j <= |s| && Body(s, i, exprs[..|exprs| - 1]) == Body(s, j, exprs)
  {
    var last := |exprs| - 1;
    var init, e := exprs[..last], exprs[last];
    assert init + [e] == exprs && ValidExpr(e);
    assert init != [] ==> (init[last - 1].Command? <==> !e.Command?);
    match e
    case Command(exe, args) =>
      var m := LexesSplit(s, i, [Tok(Str, exe)], WordToks(args), j);
      LexesOne(s, i, Tok(Str, exe));
      assert AddWord(init, exe) == init + [Command(exe, [])];
      ArgsRead(s, m, init, exe, [], args, j);
      assert [] + args == args;
    case PipeOp => LexesOne(s, i, Tok(Pipe, ""));
    case AndOp => LexesOne(s, i, Tok(And, ""));
    case OrOp => LexesOne(s, i, Tok(Or, ""));
  }

  lemma {:induction false} ChainRead(s: string, n: nat, exprs: seq<Expr>, i: nat)
    requires Chain(exprs) && Lexes(s, 0, NewLines(n) + ChainToks(exprs), i)
    ensures i <= |s| && PopNext(s) == Body(s, i, exprs)
    decreases |exprs|
  {
    if exprs == [] {
      assert NewLines(n) + [] == NewLines(n);
      NewLinesRead(s, n, i);
    } else {
      var last := |exprs| - 1;
      var front := NewLines(n) + ChainToks(exprs[..last]);
      assert NewLines(n) + ChainToks(exprs) == front + ExprToks(exprs[last]);
      var j := LexesSplit(s, 0, front, ExprToks(exprs[last]), i);
      ChainRead(s, n, exprs[..last], j);
      ExprRead(s, j, exprs, i);
    }
  }

  lemma {:induction false} SkippedRead(s: string, i: nat, error: Error, skipped: seq<Tok>, j: nat)
    requires i <= |s| && ThroughNewLine(skipped) && Lexes(s, i, skipped, j)
    ensures Recover(s, i, error) == Failed(error, j)
    decreases |skipped|
  {
    TokenBounds(s, i);
    var m := ParseToken(s, i).next;
    if |skipped| > 1 {
      SkippedRead(s, m, error, skipped[1..], j);
    }
  }

  /** The optional ampersand leads to Finish. */
  lemma AmpersandRead(s: string, i: nat, line: Line, t: Tok, j: nat) returns (k: Kind, w: string, m: nat)
    requires i <= |s| && Lexes(s, i, BackgroundToks(line.background) + [t], j)
    requires t.kind.Background? ==> line.background
    ensures ParseToken(s, i) == Token(k, w, m) && i < m <= |s| && j <= |s|
    ensures k == if line.background then Background else t.kind
    ensures Ampersand(s, m, line.exprs, line.output, k) == Finish(s, j, line, t.kind)
  {
    var b := LexesSplit(s, i, BackgroundToks(line.background), [t], j);
    LexesOne(s, b, t);
    if line.background {
      LexesOne(s, i, Tok(Background, ""));
      k, w, m := Background, "", b;
    } else {
      k, w, m := t.kind, t.text, j;
    }
  }

  /** The optional redirection leads to the ampersand. */
  lemma OutputRead(s: string, i: nat, exprs: seq<Expr>, output: Output, b: nat, k: Kind, w: string, m: nat)
    requires i <= |s| && b <= |s| && ValidOutput(output) && Lexes(s, i, OutputToks(output), b)
    requires ParseToken(s, b) == Token(k, w, m) && b < m <= |s|
    requires output.Stdout? ==> k.Background? || (k.NewLine? && exprs != [])
    ensures Body(s, i, exprs) == Ampersand(s, m, exprs, output, k)
  {
    if !output.Stdout? {
      var op := OutputToks(output)[0];
      var word := OutputToks(output)[1];
      assert OutputToks(output) == [op] + [word];
      var a := LexesSplit(s, i, [op], [word], b);
      LexesOne(s, i, op);
      LexesOne(s, a, word);
    }
  }

  /** After the chain, the optional parts lead to Finish. */
  lemma TailRead(s: string, i: nat, line: Line, t: Tok, j: nat)
    requires i <= |s| && ValidOutput(line.output)
    requires Lexes(s, i, OutputToks(line.output) + BackgroundToks(line.background) + [t], j)
    requires line.exprs == [] || !t.kind.NewLine? ==> line.output != Stdout || line.background
    requires t.kind.Background? ==> line.background
    ensures j <= |s| && Body(s, i, line.exprs) == Finish(s, j, line, t.kind)
  {
    var tail := BackgroundToks(line.background) + [t];
    assert OutputToks(line.output) + BackgroundToks(line.background) + [t] == OutputToks(line.output) + tail;
    var b := LexesSplit(s, i, OutputToks(line.output), tail, j);
    var k, w, m := AmpersandRead(s, b, line, t, j);
    OutputRead(s, i, line.exprs, line.output, b, k, w, m);
  }

  lemma AcceptedIsParsed(s: string, line: Line, used: nat)
    requires Accepts(s, line, used)
    ensures PopNext(s) == Parsed(line, used)
  {
    var n :| Lexes(s, 0, NewLines(n) + LineToks(line) + [NL], used);
    var front := NewLines(n) + ChainToks(line.exprs);
    var tail := OutputToks(line.output) + BackgroundToks(line.background) + [NL];
    assert NewLines(n) + LineToks(line) + [NL] == front + tail;
    var i := LexesSplit(s, 0, front, tail, used);
    ChainRead(s, n, line.exprs, i);
    TailRead(s, i, line, NL, used);
  }

  function ViolationChain(v: Violation): seq<Expr> {
    match v
    case Connective(exprs, _) => exprs
    case BadRedirect(exprs, _, _) => exprs
    case TooLate(line, _) => line.exprs
    case Dangling(line) => line.exprs
  }

  /** The tokens of a violation after its chain. */
  function ViolationTail(v: Violation): seq<Tok> {
    match v
    case Connective(_, kind) => [Tok(kind, "")]
    case BadRedirect(_, append, offender) => [Tok(if append then OutAppend else OutNew, "")] + [offender]
    case TooLate(line, offender) => OutputToks(line.output) + BackgroundToks(line.background) + [offender]
    case Dangling(line) => OutputToks(line.output) + BackgroundToks(line.background) + [NL]
  }

  lemma ViolationRead(s: string, i: nat, v: Violation, j: nat)
    requires i <= |s| && ValidViolation(v) && Lexes(s, i, ViolationTail(v), j)
    ensures j <= |s|
    ensures Body(s, i, ViolationChain(v)) ==
      if v.Dangling? then Failed(EndsNotWithACommand, j) else Recover(s, j, ViolationError(v))
  {
    match v
    case Connective(_, kind) => LexesOne(s, i, Tok(kind, ""));
    case BadRedirect(_, append, offender) =>
      var op := Tok(if append then OutAppend else OutNew, "");
      var m := LexesSplit(s, i, [op], [offender], j);
      LexesOne(s, i, op);
      LexesOne(s, m, offender);
    case TooLate(line, offender) => TailRead(s, i, line, offender, j);
    case Dangling(line) => TailRead(s, i, line, NL, j);
  }

  lemma ViolationSplits(v: Violation)
    requires ValidViolation(v)
    ensures ViolationToks(v) == ChainToks(ViolationChain(v)) + ViolationTail(v)
  {
  }

  /** Behind a violation the parser is in its recovery. */
  lemma ViolationReached(s: string, n: nat, v: Violation, j: nat)
    requires ValidViolation(v) && Lexes(s, 0, NewLines(n) + ViolationToks(v), j)
    ensures j <= |s|
    ensures PopNext(s) == if v.Dangling? then Failed(EndsNotWithACommand, j) else Recover(s, j, ViolationError(v))
  {
    var front := NewLines(n) + ChainToks(ViolationChain(v));
    ViolationSplits(v);
    assert NewLines(n) + ViolationToks(v) == front + ViolationTail(v);
    var i := LexesSplit(s, 0, front, ViolationTail(v), j);
    ChainRead(s, n, ViolationChain(v), i);
    ViolationRead(s, i, v, j);
  }

  lemma ViolationFails(s: string, n: nat, v: Violation, skipped: seq<Tok>, used: nat)
    requires ValidViolation(v) && Skipped(v, skipped)
    requires Lexes(s, 0, NewLines(n) + ViolationToks(v) + skipped, used)
    ensures PopNext(s) == Failed(ViolationError(v), used)
  {
    var j := LexesSplit(s, 0, NewLines(n) + ViolationToks(v), skipped, used);
    ViolationReached(s, n, v, j);
    if !v.Dangling? {
      SkippedRead(s, j, ViolationError(v), skipped, used);
    }
  }

  lemma RejectedFails(s: string, error: Error, used: nat)
    requires Rejects(s, error, used)
    ensures PopNext(s) == Failed(error, used)
  {
    var n, v, skipped :|
      && ValidViolation(v) && ViolationError(v) == error && Skipped(v, skipped)
      && Lexes(s, 0, NewLines(n) + ViolationToks(v) + skipped, used);
    ViolationFails(s, n, v, skipped, used);
  }

  /** A pop returns a line exactly when the tokens are those of a well-formed line, and it
      returns that line and consumes exactly those tokens. */
  lemma ParsedIffWellFormed(s: string, line: Line, used: nat)
    ensures PopNext(s) == Parsed(line, used) <==> Accepts(s, line, used)
  {
    assert Lexes(s, 0, NewLines(0) + ChainToks([]), 0);
    BodyJustified(s, 0, 0, []);
    if Accepts(s, line, used) {
      AcceptedIsParsed(s, line, used);
    }
  }

  /** A pop returns an error exactly when the line has a first violation of that kind and is
      complete, and it consumes exactly through the first newline token after the violation
      (through the newline that is the violation, for a line that ends with an operator). */
  lemma FailedIffViolation(s: string, error: Error, used: nat)
    ensures PopNext(s) == Failed(error, used) <==> Rejects(s, error, used)
  {
    assert Lexes(s, 0, NewLines(0) + ChainToks([]), 0);
    BodyJustified(s, 0, 0, []);
    if Rejects(s, error, used) {
      RejectedFails(s, error, used);
    }
  }
}

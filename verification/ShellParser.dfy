/** One command line from the buffer: what parser_pop_next of 2/parser.c (287-435) returns
    and consumes, as a function of the buffer. */
module ShellParser {
  import opened ShellLexer

  datatype Expr = Command(exe: string, args: seq<string>) | PipeOp | AndOp | OrOp

  datatype Output = Stdout | FileNew(name: string) | FileAppend(name: string)

  datatype Line = Line(exprs: seq<Expr>, output: Output, background: bool)

  datatype Error =
    | PipeWithNoLeftArg
    | PipeWithLeftArgNotACommand
    | AndWithNoLeftArg
    | AndWithLeftArgNotACommand
    | OrWithNoLeftArg
    | OrWithLeftArgNotACommand
    | RedirectBadArg
    | TooLateArguments
    | EndsNotWithACommand

  /** NoLine is "no error, no line"; Aborted is a failed assert. */
  datatype Pop = NoLine | Parsed(line: Line, used: nat) | Failed(error: Error, used: nat) | Aborted

  predicate IsConnective(k: Kind) {
    k.Pipe? || k.And? || k.Or?
  }

  predicate IsRedirect(k: Kind) {
    k.OutNew? || k.OutAppend?
  }

  function OpExpr(k: Kind): Expr
    requires IsConnective(k)
  {
    match k case Pipe => PipeOp case And => AndOp case Or => OrOp
  }

  function NoLeftArg(k: Kind): Error
    requires IsConnective(k)
  {
    match k case Pipe => PipeWithNoLeftArg case And => AndWithNoLeftArg case Or => OrWithNoLeftArg
  }

  function NotACommand(k: Kind): Error
    requires IsConnective(k)
  {
    match k
    case Pipe => PipeWithLeftArgNotACommand
    case And => AndWithLeftArgNotACommand
    case Or => OrWithLeftArgNotACommand
  }

  predicate EndsWithCommand(exprs: seq<Expr>) {
    exprs != [] && exprs[|exprs| - 1].Command?
  }

  /** Lines 305-313: a word continues the last command or starts a new one. */
  function AddWord(exprs: seq<Expr>, word: string): seq<Expr> {
    if EndsWithCommand(exprs) then
      var last := |exprs| - 1;
      exprs[last := exprs[last].(args := exprs[last].args + [word])]
    else exprs + [Command(word, [])]
  }

  /** The main loop, lines 297-365, at position i with the expressions read so far. */
  function Body(s: string, i: nat, exprs: seq<Expr>): Pop
    requires i <= |s|
    decreases |s| - i
  {
    TokenBounds(s, i);
    match ParseToken(s, i)
    case NeedMore => NoLine
    case AssertFailed => Aborted
    case Token(k, w, j) =>
      if k.Str? then
        if w == "" then Aborted else Body(s, j, AddWord(exprs, w))
      else if k.NewLine? && exprs == [] then
        Body(s, j, exprs)
      else if IsConnective(k) then
        if exprs == [] then Recover(s, j, NoLeftArg(k))
        else if !EndsWithCommand(exprs) then Recover(s, j, NotACommand(k))
        else Body(s, j, exprs + [OpExpr(k)])
      else
        Close(s, j, exprs, k)
  }

  /** Lines 368-388: the redirection, if token k begins one. */
  function Close(s: string, i: nat, exprs: seq<Expr>, k: Kind): Pop
    requires i <= |s|
  {
    if !IsRedirect(k) then Ampersand(s, i, exprs, Stdout, k)
    else
      TokenBounds(s, i);
      match ParseToken(s, i)
      case NeedMore => NoLine
      case AssertFailed => Aborted
      case Token(k1, w1, i1) =>
        if !k1.Str? then Recover(s, i1, RedirectBadArg)
        else if w1 == "" then Aborted
        else
          TokenBounds(s, i1);
          match ParseToken(s, i1)
          case NeedMore => NoLine
          case AssertFailed => Aborted
          case Token(k2, _, i2) => Ampersand(s, i2, exprs, if k.OutNew? then FileNew(w1) else FileAppend(w1), k2)
  }

  /** Lines 389-395: the ampersand, if token k is one. */
  function Ampersand(s: string, i: nat, exprs: seq<Expr>, output: Output, k: Kind): Pop
    requires i <= |s|
  {
    if !k.Background? then Finish(s, i, Line(exprs, output, false), k)
    else
      TokenBounds(s, i);
      match ParseToken(s, i)
      case NeedMore => NoLine
      case AssertFailed => Aborted
      case Token(k1, _, i1) => Finish(s, i1, Line(exprs, output, true), k1)
  }

  /** Lines 396-408: the newline. */
  function Finish(s: string, i: nat, line: Line, k: Kind): Pop
    requires i <= |s|
  {
    if !k.NewLine? then Recover(s, i, TooLateArguments)
    else if line.exprs == [] then Aborted
    else if !EndsWithCommand(line.exprs) then Failed(EndsNotWithACommand, i)
    else Parsed(line, i)
  }

  /** Lines 410-426: skip through the next newline token. */
  function Recover(s: string, i: nat, error: Error): Pop
    requires i <= |s|
    decreases |s| - i
  {
    TokenBounds(s, i);
    match ParseToken(s, i)
    case NeedMore => NoLine
    case AssertFailed => Aborted
    case Token(k, _, j) => if k.NewLine? then Failed(error, j) else Recover(s, j, error)
  }

  /** parser_pop_next on a buffer holding s. */
  function PopNext(s: string): Pop {
    Body(s, 0, [])
  }

  // ---- progress ----

  predicate UsesBetween(r: Pop, lo: int, hi: int) {
    (r.Parsed? || r.Failed?) ==> lo < r.used <= hi
  }

  lemma {:induction false} RecoverProgress(s: string, i: nat, error: Error)
    requires i <= |s|
    ensures UsesBetween(Recover(s, i, error), i, |s|) && !Recover(s, i, error).Parsed?
    decreases |s| - i
  {
    TokenBounds(s, i);
    match ParseToken(s, i)
    case Token(k, _, j) => if !k.NewLine? { RecoverProgress(s, j, error); }
    case _ =>
  }

  lemma CloseProgress(s: string, i: nat, exprs: seq<Expr>, k: Kind)
    requires 0 < i <= |s|
    ensures UsesBetween(Close(s, i, exprs, k), 0, |s|)
  {
    forall j, e | 0 <= j <= |s| ensures UsesBetween(Recover(s, j, e), 0, |s|) {
      RecoverProgress(s, j, e);
    }
    forall j | 0 <= j <= |s|
      ensures ParseToken(s, j).Token? ==> j < ParseToken(s, j).next <= |s|
    {
      TokenBounds(s, j);
    }
  }

  lemma {:induction false} BodyProgress(s: string, i: nat, exprs: seq<Expr>)
    requires i <= |s|
    ensures UsesBetween(Body(s, i, exprs), 0, |s|)
    decreases |s| - i
  {
    TokenBounds(s, i);
    match ParseToken(s, i)
    case Token(k, w, j) =>
      if k.Str? {
        BodyProgress(s, j, AddWord(exprs, w));
      } else if k.NewLine? && exprs == [] {
        BodyProgress(s, j, exprs);
      } else if IsConnective(k) {
        if exprs == [] {
          RecoverProgress(s, j, NoLeftArg(k));
        } else if !EndsWithCommand(exprs) {
          RecoverProgress(s, j, NotACommand(k));
        } else {
          BodyProgress(s, j, exprs + [OpExpr(k)]);
        }
      } else {
        CloseProgress(s, j, exprs, k);
      }
    case _ =>
  }

  /** A pop that returns a line or an error consumes a nonempty part of the buffer. */
  lemma PopProgress(s: string)
    ensures UsesBetween(PopNext(s), 0, |s|)
  {
    BodyProgress(s, 0, []);
  }

  // ---- a verdict does not change when text is appended ----

  lemma {:induction false} RecoverStable(s: string, t: string, i: nat, error: Error)
    requires i <= |s| && Recover(s, i, error) != NoLine
    ensures Recover(s + t, i, error) == Recover(s, i, error)
    decreases |s| - i
  {
    TokenBounds(s, i);
    TokenStable(s, t, i);
    match ParseToken(s, i)
    case Token(k, _, j) => if !k.NewLine? { RecoverStable(s, t, j, error); }
    case AssertFailed =>
  }

  lemma FinishStable(s: string, t: string, i: nat, line: Line, k: Kind)
    requires i <= |s| && Finish(s, i, line, k) != NoLine
    ensures Finish(s + t, i, line, k) == Finish(s, i, line, k)
  {
    if !k.NewLine? {
      RecoverStable(s, t, i, TooLateArguments);
    }
  }

  lemma AmpersandStable(s: string, t: string, i: nat, exprs: seq<Expr>, output: Output, k: Kind)
    requires i <= |s| && Ampersand(s, i, exprs, output, k) != NoLine
    ensures Ampersand(s + t, i, exprs, output, k) == Ampersand(s, i, exprs, output, k)
  {
    if !k.Background? {
      FinishStable(s, t, i, Line(exprs, output, false), k);
    } else {
      TokenBounds(s, i);
      TokenStable(s, t, i);
      match ParseToken(s, i)
      case Token(k1, _, i1) => FinishStable(s, t, i1, Line(exprs, output, true), k1);
      case AssertFailed =>
    }
  }

  lemma CloseStable(s: string, t: string, i: nat, exprs: seq<Expr>, k: Kind)
    requires i <= |s| && Close(s, i, exprs, k) != NoLine
    ensures Close(s + t, i, exprs, k) == Close(s, i, exprs, k)
  {
    if !IsRedirect(k) {
      AmpersandStable(s, t, i, exprs, Stdout, k);
    } else {
      TokenBounds(s, i);
      TokenStable(s, t, i);
      match ParseToken(s, i)
      case AssertFailed =>
      case Token(k1, w1, i1) =>
        if !k1.Str? {
          RecoverStable(s, t, i1, RedirectBadArg);
        } else if w1 != "" {
          TokenBounds(s, i1);
          TokenStable(s, t, i1);
          match ParseToken(s, i1)
          case AssertFailed =>
          case Token(k2, _, i2) =>
            AmpersandStable(s, t, i2, exprs, if k.OutNew? then FileNew(w1) else FileAppend(w1), k2);
        }
    }
  }

  lemma {:induction false} BodyStable(s: string, t: string, i: nat, exprs: seq<Expr>)
    requires i <= |s| && Body(s, i, exprs) != NoLine
    ensures Body(s + t, i, exprs) == Body(s, i, exprs)
    decreases |s| - i
  {
    TokenBounds(s, i);
    TokenStable(s, t, i);
    match ParseToken(s, i)
    case AssertFailed =>
    case Token(k, w, j) =>
      if k.Str? {
        if w != "" { BodyStable(s, t, j, AddWord(exprs, w)); }
      } else if k.NewLine? && exprs == [] {
        BodyStable(s, t, j, exprs);
      } else if IsConnective(k) {
        if exprs == [] {
          RecoverStable(s, t, j, NoLeftArg(k));
        } else if !EndsWithCommand(exprs) {
          RecoverStable(s, t, j, NotACommand(k));
        } else {
          BodyStable(s, t, j, exprs + [OpExpr(k)]);
        }
      } else {
        CloseStable(s, t, j, exprs, k);
      }
  }

  /** A line, an error or a failed assert found in a prefix of the input stays what it is. */
  lemma PopStable(s: string, t: string)
    requires PopNext(s) != NoLine
    ensures PopNext(s + t) == PopNext(s)
  {
    BodyStable(s, t, 0, []);
  }
}

/** Command lines over tokens, said independently of the parser: what a line is, what the
    first violation of an ill-formed one is, and where a token is asked for that the parser
    asserts not to get. */
module ShellGrammar {
  import opened ShellLexer
  import opened ShellParser

  datatype Tok = Tok(kind: Kind, text: string)

  /** The lexer reads toks from position i and goes on at j. */
  ghost predicate Lexes(s: string, i: nat, toks: seq<Tok>, j: nat)
    requires i <= |s|
    decreases |toks|
  {
    if toks == [] then j == i
    else
      TokenBounds(s, i);
      var r := ParseToken(s, i);
      r.Token? && r.kind == toks[0].kind && r.text == toks[0].text && Lexes(s, r.next, toks[1..], j)
  }

  // ---- the grammar ----

  function WordToks(words: seq<string>): seq<Tok> {
    if words == [] then [] else [Tok(Str, words[0])] + WordToks(words[1..])
  }

  function ExprToks(e: Expr): seq<Tok> {
    match e
    case Command(exe, args) => [Tok(Str, exe)] + WordToks(args)
    case PipeOp => [Tok(Pipe, "")]
    case AndOp => [Tok(And, "")]
    case OrOp => [Tok(Or, "")]
  }

  function ChainToks(exprs: seq<Expr>): seq<Tok> {
    if exprs == [] then [] else ChainToks(exprs[..|exprs| - 1]) + ExprToks(exprs[|exprs| - 1])
  }

  predicate ValidExpr(e: Expr) {
    e.Command? ==> e.exe != "" && forall k :: 0 <= k < |e.args| ==> e.args[k] != ""
  }

  /** Commands and operators alternate, a command first; the last may be either. */
  predicate Chain(exprs: seq<Expr>) {
    && (forall k :: 0 <= k < |exprs| ==> ValidExpr(exprs[k]))
    && (forall k :: 0 <= k < |exprs| ==> (exprs[k].Command? <==> k % 2 == 0))
  }

  function OutputToks(o: Output): seq<Tok> {
    match o
    case Stdout => []
    case FileNew(name) => [Tok(OutNew, ""), Tok(Str, name)]
    case FileAppend(name) => [Tok(OutAppend, ""), Tok(Str, name)]
  }

  predicate ValidOutput(o: Output) {
    !o.Stdout? ==> o.name != ""
  }

  function BackgroundToks(background: bool): seq<Tok> {
    if background then [Tok(Background, "")] else []
  }

  /** word+ (op word+)*, an optional redirection with a word, an optional &. */
  predicate WellFormed(line: Line) {
    Chain(line.exprs) && EndsWithCommand(line.exprs) && ValidOutput(line.output)
  }

  function LineToks(line: Line): seq<Tok> {
    ChainToks(line.exprs) + OutputToks(line.output) + BackgroundToks(line.background)
  }

  function NewLines(n: nat): seq<Tok> {
    if n == 0 then [] else NewLines(n - 1) + [Tok(NewLine, "")]
  }

  // ---- ill-formed lines ----

  /** The first token of a line that no continuation can repair, and what stands before it:
      an operator after nothing or after an operator, a redirection without a word, a token
      after the end of the line's last part, a newline after an operator. */
  datatype Violation =
    | Connective(exprs: seq<Expr>, kind: Kind)
    | BadRedirect(exprs: seq<Expr>, append: bool, offender: Tok)
    | TooLate(line: Line, offender: Tok)
    | Dangling(line: Line)

  predicate ValidViolation(v: Violation) {
    match v
    case Connective(exprs, kind) => Chain(exprs) && !EndsWithCommand(exprs) && (kind.Pipe? || kind.And? || kind.Or?)
    case BadRedirect(exprs, _, offender) => Chain(exprs) && !offender.kind.Str?
    case TooLate(line, offender) =>
      && Chain(line.exprs) && ValidOutput(line.output)
      && (line.output.Stdout? ==> line.background)
      && !offender.kind.NewLine? && (offender.kind.Background? ==> line.background)
    case Dangling(line) =>
      Chain(line.exprs) && line.exprs != [] && !EndsWithCommand(line.exprs) && ValidOutput(line.output)
  }

  function ViolationToks(v: Violation): seq<Tok> {
    match v
    case Connective(exprs, kind) => ChainToks(exprs) + [Tok(kind, "")]
    case BadRedirect(exprs, append, offender) =>
      ChainToks(exprs) + [Tok(if append then OutAppend else OutNew, "")] + [offender]
    case TooLate(line, offender) => LineToks(line) + [offender]
    case Dangling(line) => LineToks(line) + [Tok(NewLine, "")]
  }

  function ViolationError(v: Violation): Error
    requires ValidViolation(v)
  {
    match v
    case Connective(exprs, kind) =>
      if kind.Pipe? then (if exprs == [] then PipeWithNoLeftArg else PipeWithLeftArgNotACommand)
      else if kind.And? then (if exprs == [] then AndWithNoLeftArg else AndWithLeftArgNotACommand)
      else (if exprs == [] then OrWithNoLeftArg else OrWithLeftArgNotACommand)
    case BadRedirect(_, _, _) => RedirectBadArg
    case TooLate(_, _) => TooLateArguments
    case Dangling(_) => EndsNotWithACommand
  }

  /** Tokens up to and including the first newline. */
  predicate ThroughNewLine(toks: seq<Tok>) {
    && toks != [] && toks[|toks| - 1].kind.NewLine?
    && forall k :: 0 <= k < |toks| - 1 ==> !toks[k].kind.NewLine?
  }

  /** What is skipped after a violation: through the next newline, unless it was one that
      completed the line. */
  predicate Skipped(v: Violation, toks: seq<Tok>) {
    if v.Dangling? then toks == [] else ThroughNewLine(toks)
  }

  // ---- failed asserts ----

  /** Where a token is asked for: in a line, behind a redirection operator, or while the rest
      of an ill-formed line is skipped. */
  datatype Ask =
    | InLine(line: Line)
    | ForFileName(exprs: seq<Expr>, append: bool)
    | Skipping(v: Violation, toks: seq<Tok>)

  predicate ValidAsk(a: Ask) {
    match a
    case InLine(line) => Chain(line.exprs) && ValidOutput(line.output)
    case ForFileName(exprs, _) => Chain(exprs)
    case Skipping(v, toks) =>
      ValidViolation(v) && !v.Dangling? && forall k :: 0 <= k < |toks| ==> !toks[k].kind.NewLine?
  }

  /** What has been read when the token is asked for. */
  function AskToks(a: Ask): seq<Tok> {
    match a
    case InLine(line) => LineToks(line)
    case ForFileName(exprs, append) => ChainToks(exprs) + [Tok(if append then OutAppend else OutNew, "")]
    case Skipping(v, toks) => ViolationToks(v) + toks
  }

  /** A token the parser asserts not to get: an empty word where it takes a word (a command,
      an argument or a file name), or a newline when the line has a redirection or an & but
      no command. */
  predicate Unforeseen(a: Ask, t: Tok) {
    match a
    case InLine(line) =>
      if line.output.Stdout? && !line.background then t == Tok(Str, "")
      else line.exprs == [] && t.kind.NewLine?
    case ForFileName(_, _) => t == Tok(Str, "")
    case Skipping(_, _) => false
  }

  /** The token asked for at i fails an assert of the lexer or of the parser. */
  ghost predicate AbortsAt(s: string, n: nat, a: Ask, i: nat) {
    && ValidAsk(a) && i <= |s| && Lexes(s, 0, NewLines(n) + AskToks(a), i)
    && match ParseToken(s, i)
       case AssertFailed => true
       case Token(k, w, _) => Unforeseen(a, Tok(k, w))
       case NeedMore => false
  }

  // ---- lexing composes ----

  lemma {:induction false} LexesBounds(s: string, i: nat, toks: seq<Tok>, j: nat)
    requires i <= |s| && Lexes(s, i, toks, j)
    ensures i <= j <= |s| && (toks != [] ==> i < j)
    decreases |toks|
  {
    if toks != [] {
      TokenBounds(s, i);
      LexesBounds(s, ParseToken(s, i).next, toks[1..], j);
    }
  }

  lemma {:induction false} LexesJoin(s: string, i: nat, a: seq<Tok>, j: nat, b: seq<Tok>, n: nat)
    requires i <= |s| && Lexes(s, i, a, j) && j <= |s| && Lexes(s, j, b, n)
    ensures Lexes(s, i, a + b, n)
    decreases |a|
  {
    if a == [] {
      assert a + b == b;
    } else {
      TokenBounds(s, i);
      assert (a + b)[1..] == a[1..] + b;
      LexesJoin(s, ParseToken(s, i).next, a[1..], j, b, n);
    }
  }

  lemma {:induction false} LexesSplit(s: string, i: nat, a: seq<Tok>, b: seq<Tok>, n: nat) returns (j: nat)
    requires i <= |s| && Lexes(s, i, a + b, n)
    ensures i <= j <= |s| && Lexes(s, i, a, j) && Lexes(s, j, b, n)
    decreases |a|
  {
    if a == [] {
      assert a + b == b;
      j := i;
    } else {
      TokenBounds(s, i);
      assert (a + b)[1..] == a[1..] + b;
      j := LexesSplit(s, ParseToken(s, i).next, a[1..], b, n);
    }
  }

  lemma LexesOne(s: string, i: nat, t: Tok)
    requires i <= |s|
    ensures var r := ParseToken(s, i);
      r.Token? && r.kind == t.kind && r.text == t.text ==> r.next <= |s| && Lexes(s, i, [t], r.next)
    ensures forall j: nat :: Lexes(s, i, [t], j) ==>
      ParseToken(s, i) == Token(t.kind, t.text, j) && i < j <= |s|
  {
    TokenBounds(s, i);
    assert [t][1..] == [];
  }

  /** One more token after what has been read. */
  lemma LexesMore(s: string, i: nat, a: seq<Tok>, j: nat)
    requires i <= |s| && Lexes(s, i, a, j) && j <= |s| && ParseToken(s, j).Token?
    ensures var r := ParseToken(s, j); r.next <= |s| && Lexes(s, i, a + [Tok(r.kind, r.text)], r.next)
  {
    var r := ParseToken(s, j);
    LexesOne(s, j, Tok(r.kind, r.text));
    LexesJoin(s, i, a, j, [Tok(r.kind, r.text)], r.next);
  }

  // ---- chains grow by words and operators ----

  lemma {:induction false} WordToksMore(words: seq<string>, w: string)
    ensures WordToks(words + [w]) == WordToks(words) + [Tok(Str, w)]
  {
    if words == [] {
    } else {
      assert (words + [w])[1..] == words[1..] + [w];
      WordToksMore(words[1..], w);
    }
  }

  lemma ChainWord(exprs: seq<Expr>, w: string)
    requires Chain(exprs) && w != ""
    ensures Chain(AddWord(exprs, w)) && EndsWithCommand(AddWord(exprs, w))
    ensures ChainToks(AddWord(exprs, w)) == ChainToks(exprs) + [Tok(Str, w)]
  {
    if EndsWithCommand(exprs) {
      ChainArgument(exprs, w);
    } else {
      var last := |exprs| - 1;
      assert AddWord(exprs, w) == exprs + [Command(w, [])];
      assert (exprs + [Command(w, [])])[..|exprs|] == exprs;
      assert exprs != [] ==> !exprs[last].Command?;
    }
  }

  lemma ChainArgument(exprs: seq<Expr>, w: string)
    requires Chain(exprs) && EndsWithCommand(exprs) && w != ""
    ensures Chain(AddWord(exprs, w)) && EndsWithCommand(AddWord(exprs, w))
    ensures ChainToks(AddWord(exprs, w)) == ChainToks(exprs) + [Tok(Str, w)]
  {
    hide WordToks;
    var last := |exprs| - 1;
    WordToksMore(exprs[last].args, w);
    var e := exprs[last].(args := exprs[last].args + [w]);
    assert AddWord(exprs, w)[..last] == exprs[..last];
    assert ExprToks(e) == ExprToks(exprs[last]) + [Tok(Str, w)];
    assert ValidExpr(exprs[last]);
  }

  lemma ChainOperator(exprs: seq<Expr>, k: Kind)
    requires Chain(exprs) && EndsWithCommand(exprs) && IsConnective(k)
    ensures Chain(exprs + [OpExpr(k)]) && !EndsWithCommand(exprs + [OpExpr(k)])
    ensures ChainToks(exprs + [OpExpr(k)]) == ChainToks(exprs) + [Tok(k, "")]
  {
    assert (exprs + [OpExpr(k)])[..|exprs|] == exprs;
    assert exprs[|exprs| - 1].Command?;
  }

  // ---- the parser's verdict in terms of tokens ----

  const NL: Tok := Tok(NewLine, "")

  /** s begins with newlines and the tokens of a well-formed line, up to `used`. */
  ghost predicate Accepts(s: string, line: Line, used: nat) {
    WellFormed(line) && exists n :: Lexes(s, 0, NewLines(n) + LineToks(line) + [NL], used)
  }

  /** s begins with newlines, a line up to its first violation, and what is skipped. */
  ghost predicate Rejects(s: string, error: Error, used: nat) {
    exists n, v, skipped ::
      && ValidViolation(v) && ViolationError(v) == error && Skipped(v, skipped)
      && Lexes(s, 0, NewLines(n) + ViolationToks(v) + skipped, used)
  }

  /** s begins with newlines and tokens after which the parser asks for another one, and on
      that one an assert fails. */
  ghost predicate Aborts(s: string) {
    exists n, a, i :: AbortsAt(s, n, a, i)
  }

  /** The verdict r on s is justified by the grammar. */
  ghost predicate Justified(s: string, r: Pop) {
    match r
    case Parsed(line, used) => Accepts(s, line, used)
    case Failed(error, used) => Rejects(s, error, used)
    case Aborted => Aborts(s)
    case NoLine => true
  }
}

/** The parser of 2/parser.c as it works: a growing buffer, a token that is filled in place,
    a linked list of expressions. Every method computes the function of ShellLexer,
    ShellParser or ShellStream that stands for it. */
module ShellCode {
  import opened Common
  import opened ShellLexer
  import opened ShellParser
  import opened ShellStream

  /** An array that grows by the rule of token_append (45-54) and command_append_arg (64-73). */
  class GrowBuf<T(0)> {
    var data: array<T>
    var size: nat

    ghost predicate Valid()
      reads this
    {
      size <= data.Length
    }

    ghost function Contents(): seq<T>
      requires Valid()
      reads this, data
    {
      data[..size]
    }

    constructor ()
      ensures Valid() && Contents() == [] && fresh(data)
    {
      data := new T[0];
      size := 0;
    }

    method Append(x: T)
      requires Valid()
      modifies this, data
      ensures Valid() && Contents() == old(Contents()) + [x]
      ensures data == old(data) || fresh(data)
      ensures data.Length == if old(size) == old(data.Length) then (old(data.Length) + 1) * 2 else old(data.Length)
    {
      if size == data.Length {
        var grown := new T[(data.Length + 1) * 2];
        forall i | 0 <= i < size {
          grown[i] := data[i];
        }
        data := grown;
      }
      data[size] := x;
      size := size + 1;
    }

    method Clear()
      requires Valid()
      modifies this
      ensures Valid() && Contents() == [] && data == old(data)
    {
      size := 0;
    }
  }

  /** struct token: its type, None before it is known, and its text. */
  class TokenBuf {
    var kind: Option<Kind>
    const text: GrowBuf<char>

    constructor ()
      ensures fresh(text) && fresh(text.data) && text.Valid()
    {
      kind := None;
      text := new GrowBuf<char>();
    }
  }

  /** The token `out` holds, and the `used` and `ok` of a call that began at `begin`, are r. */
  ghost predicate Returns(r: Lex, begin: nat, used: nat, ok: bool, out: TokenBuf)
    requires out.text.Valid()
    reads out, out.text, out.text.data
  {
    && ok == !r.AssertFailed?
    && (r.NeedMore? ==> used == 0)
    && (r.Token? ==> begin + used == r.next && used > 0 && out.kind == Some(r.kind) && out.text.Contents() == r.text)
  }

  /** Lines 268-276, behind a `#`. */
  method SkipComment(buffer: array<char>, begin: nat, start: nat, end: nat, out: TokenBuf) returns (used: nat)
    requires begin < start <= end <= buffer.Length && out.text.Valid() && out.text.Contents() == []
    modifies out
    ensures Returns(Comment(buffer[..end], start), begin, used, true, out)
  {
    ghost var s := buffer[..end];
    var pos := start;
    while pos < end
      invariant start <= pos <= end
      invariant Comment(s, pos) == Comment(s, start)
    {
      if buffer[pos] == '\n' {
        out.kind := Some(NewLine);
        return pos + 1 - begin;
      }
      pos := pos + 1;
    }
    return 0;
  }

  /** Lines 211-246: an operator at position pos. */
  method ReadOperator(buffer: array<char>, begin: nat, pos: nat, end: nat, out: TokenBuf) returns (used: nat)
    requires begin <= pos < end <= buffer.Length && IsOperator(buffer[pos])
    requires out.text.Valid() && out.text.Contents() == []
    modifies out
    ensures Returns(Unquoted(buffer[..end], pos, ""), begin, used, true, out)
  {
    var c := buffer[pos];
    if pos + 1 == end {
      return 0;
    }
    var doubled := buffer[pos + 1] == c;
    out.kind := Some(OperatorKind(c, doubled));
    return (if doubled then pos + 2 else pos + 1) - begin;
  }

  /** Lines 202-276 outside quotes: a character that ends a word, if there is one, or is a
      token of its own. */
  method EndWord(buffer: array<char>, begin: nat, pos: nat, end: nat, out: TokenBuf) returns (used: nat, ok: bool)
    requires begin <= pos < end <= buffer.Length && EndsWord(buffer[pos])
    requires out.text.Valid() && (out.text.size > 0 ==> begin < pos)
    modifies out
    ensures Returns(Unquoted(buffer[..end], pos, out.text.Contents()), begin, used, ok, out)
  {
    var c := buffer[pos];
    if out.text.size > 0 {
      out.kind := Some(Str);
      return (if IsBlank(c) then pos + 1 else pos) - begin, true;
    }
    if IsOperator(c) {
      used := ReadOperator(buffer, begin, pos, end, out);
      return used, true;
    } else if c == '#' {
      used := SkipComment(buffer, begin, pos + 1, end, out);
      return used, true;
    }
    return 0, false;
  }

  /** Lines 152-284: from the first character that is not white space. */
  method ReadWord(buffer: array<char>, begin: nat, start: nat, end: nat, out: TokenBuf) returns (used: nat, ok: bool)
    requires begin <= start <= end <= buffer.Length && buffer != out.text.data
    requires out.text.Valid() && out.text.Contents() == []
    modifies out, out.text, out.text.data
    ensures out.text.Valid() && (out.text.data == old(out.text.data) || fresh(out.text.data))
    ensures Returns(Word(buffer[..end], start, NoQuote, ""), begin, used, ok, out)
  {
    ghost var s := buffer[..end];
    ghost var want := Word(s, start, NoQuote, "");
    WordBounds(s, start, NoQuote, "");
    var pos, quote := start, NoQuote;
    while pos < end
      invariant start <= pos <= end
      invariant out.text.Valid() && (out.text.data == old(out.text.data) || fresh(out.text.data))
      invariant Word(s, pos, quote, out.text.Contents()) == want && (out.text.size > 0 ==> begin < pos)
      decreases end - pos
    {
      var c := buffer[pos];
      if QuoteOf(c) != NoQuote && quote == NoQuote {
        quote := QuoteOf(c);
        pos := pos + 1;
        continue;
      } else if QuoteOf(c) != NoQuote && quote == QuoteOf(c) {
        out.kind := Some(Str);
        return pos + 1 - begin, true;
      } else if c == '\\' && quote != Single {
        pos := pos + 1;
        if pos == end {
          return 0, true;
        }
        c := buffer[pos];
        if c == '\n' {
          pos := pos + 1;
          continue;
        }
        if quote == Double && c != '\\' && c != '"' {
          out.text.Append('\\');
        }
      } else if quote == NoQuote && EndsWord(c) {
        used, ok := EndWord(buffer, begin, pos, end, out);
        return;
      }
      out.text.Append(c);
      pos := pos + 1;
    }
    return 0, true;
  }

  predicate EndsWord(c: char) {
    IsOperator(c) || IsBlank(c) || c == '\n' || c == '#'
  }

  /** parse_token, lines 138-285. `used` is 0 when the token is incomplete; `ok` is false when
      an assert fails. */
  method ReadToken(buffer: array<char>, begin: nat, end: nat, out: TokenBuf) returns (used: nat, ok: bool)
    requires begin <= end <= buffer.Length && out.text.Valid() && buffer != out.text.data
    modifies out, out.text, out.text.data
    ensures out.text.Valid() && (out.text.data == old(out.text.data) || fresh(out.text.data))
    ensures Returns(ParseToken(buffer[..end], begin), begin, used, ok, out)
  {
    ghost var s := buffer[..end];
    out.text.Clear();
    out.kind := None;
    var pos := begin;
    while pos < end && IsSpace(buffer[pos])
      invariant begin <= pos <= end
      invariant SkipSpace(s, pos) == SkipSpace(s, begin)
      invariant out.text.data == old(out.text.data) && out.text.Valid() && out.text.Contents() == []
    {
      if buffer[pos] == '\n' {
        out.kind := Some(NewLine);
        return pos + 1 - begin, true;
      }
      pos := pos + 1;
    }
    used, ok := ReadWord(buffer, begin, pos, end, out);
  }

  // ---- the expression list ----

  /** Where the main loop goes on after a token: on, to return_error or close_and_return, to
      the end because the token is incomplete, or nowhere because an assert fails. */
  datatype Verdict = Continue | Refuse(error: Error) | ClosesLine | Incomplete | AssertFails

  /** struct expr with its struct command: the words of a command, or an operator. */
  class ExprNode {
    const op: Option<Kind>
    const exe: string
    var args: array<string>
    var argCount: nat
    var next: ExprNode?

    constructor (op: Option<Kind>, exe: string)
      ensures this.op == op && this.exe == exe && argCount == 0 && next == null && fresh(args)
    {
      this.op, this.exe, argCount, next := op, exe, 0, null;
      args := new string[0];
    }

    ghost predicate Valid()
      reads `args, `argCount
    {
      argCount <= args.Length && (op.Some? ==> IsConnective(op.value))
    }

    ghost function Value(): Expr
      requires Valid()
      reads `args, `argCount, args
    {
      if op.Some? then OpExpr(op.value) else Command(exe, args[..argCount])
    }

    /** command_append_arg, lines 63-73. */
    method AppendArg(word: string)
      requires Valid() && op.None?
      modifies this`args, this`argCount, args
      ensures Valid() && (args == old(args) || fresh(args))
      ensures args.Length == if old(argCount) == old(args.Length) then (old(args.Length) + 1) * 2 else old(args.Length)
      ensures Value() == Command(exe, old(args[..argCount]) + [word])
    {
      if argCount == args.Length {
        var grown := new string[(args.Length + 1) * 2];
        forall i | 0 <= i < argCount {
          grown[i] := args[i];
        }
        args := grown;
      }
      args[argCount] := word;
      argCount := argCount + 1;
    }
  }

  /** The links of a list of expressions, and that no two of them share anything. */
  ghost predicate Chained(nodes: seq<ExprNode>, head: ExprNode?, tail: ExprNode?)
    reads nodes`next
  {
    && head == (if nodes == [] then null else nodes[0])
    && tail == (if nodes == [] then null else nodes[|nodes| - 1])
    && (forall i {:trigger nodes[i].next} :: 0 <= i < |nodes| - 1 ==> nodes[i].next == nodes[i + 1])
    && (nodes != [] ==> nodes[|nodes| - 1].next == null)
  }

  ghost predicate Separate(nodes: seq<ExprNode>)
    reads nodes`args
  {
    forall i, j :: 0 <= i < j < |nodes| ==> nodes[i] != nodes[j] && nodes[i].args != nodes[j].args
  }

  ghost function Arrays(nodes: seq<ExprNode>): set<array<string>>
    reads nodes`args
  {
    set n | n in nodes :: n.args
  }

  ghost predicate Spells(nodes: seq<ExprNode>, exprs: seq<Expr>)
    reads nodes`args, nodes`argCount, Arrays(nodes)
  {
    |exprs| == |nodes| && forall i :: 0 <= i < |nodes| ==> nodes[i].Valid() && exprs[i] == nodes[i].Value()
  }

  lemma SeparateMore(nodes: seq<ExprNode>, e: ExprNode)
    requires Separate(nodes) && e !in nodes && e.args !in Arrays(nodes)
    ensures Separate(nodes + [e])
  {
    forall n | n in nodes ensures n.args != e.args {
      assert n.args in Arrays(nodes);
    }
  }

  lemma SpellsMore(nodes: seq<ExprNode>, exprs: seq<Expr>, e: ExprNode)
    requires Spells(nodes, exprs) && e.Valid()
    ensures Spells(nodes + [e], exprs + [e.Value()])
  {
  }

  /** struct command_line: a singly linked list with a tail pointer. `nodes` is the list,
      `exprs` the expressions it stands for. */
  class CommandLine {
    var head: ExprNode?
    var tail: ExprNode?
    var output: Output
    var background: bool
    ghost var nodes: seq<ExprNode>
    ghost var exprs: seq<Expr>

    ghost predicate Valid()
      reads `head, `tail, `nodes, `exprs, nodes, Arrays(nodes)
    {
      Chained(nodes, head, tail) && Separate(nodes) && Spells(nodes, exprs) && TailOk()
    }

    /** The list grows at its end; what it gained is new. */
    twostate predicate Grows()
      reads this, nodes
    {
      && old(nodes) <= nodes
      && (forall i :: |old(nodes)| <= i < |nodes| ==> fresh(nodes[i]))
      && (forall i :: 0 <= i < |nodes| ==> fresh(nodes[i].args) || nodes[i].args in old(Arrays(nodes)))
    }

    /** The tail pointer tells whether the list ends with a command. */
    ghost predicate TailOk()
      reads `tail, `exprs
    {
      (tail == null <==> exprs == []) && (tail != null ==> (tail.op == None <==> EndsWithCommand(exprs)))
    }

    ghost function ToLine(): Line
      reads this
    {
      Line(exprs, output, background)
    }

    constructor ()
      ensures Valid() && nodes == [] && ToLine() == Line([], Stdout, false)
    {
      head, tail, output, background := null, null, Stdout, false;
      nodes, exprs := [], [];
    }

    /** command_line_append, lines 94-102. */
    method AppendNode(e: ExprNode)
      requires Valid() && e !in nodes && e.args !in Arrays(nodes) && e.next == null && e.Valid()
      modifies this, if tail == null then {} else {tail}`next
      ensures Valid() && nodes == old(nodes) + [e]
      ensures ToLine() == old(ToLine()).(exprs := old(exprs) + [e.Value()])
    {
      hide Spells, Separate;
      ghost var was := nodes;
      if head == null {
        head := e;
      } else {
        tail.next := e;
      }
      tail := e;
      nodes, exprs := nodes + [e], exprs + [e.Value()];
      SeparateMore(was, e);
      SpellsMore(was, old(exprs), e);
    }

    /** command_append_arg on the last expression, lines 63-73 and 305-306. */
    method AppendArg(word: string)
      requires Valid() && nodes != [] && tail.op == None
      modifies this`exprs, tail`args, tail`argCount, tail.args
      ensures Valid() && nodes == old(nodes) && Grows()
      ensures ToLine() == old(ToLine()).(exprs := AddWord(old(exprs), word))
    {
      hide Separate, Chained;
      assert exprs[|exprs| - 1] == tail.Value() by { TailValue(); }
      GrowTail(word);
    }

    lemma TailValue()
      requires Valid() && nodes != []
      ensures tail == nodes[|nodes| - 1] && tail.Valid() && |exprs| == |nodes| && exprs[|exprs| - 1] == tail.Value()
    {
    }

    /** The others share nothing with the last expression. */
    method GrowTail(word: string)
      requires Valid() && nodes != [] && tail.op == None
      modifies this`exprs, tail`args, tail`argCount, tail.args
      ensures Chained(nodes, head, tail) && Separate(nodes) && Spells(nodes, exprs) && Grows()
      ensures exprs == old(exprs)[|old(exprs)| - 1 := Command(tail.exe, old(tail.args[..tail.argCount]) + [word])]
    {
      hide Chained, CommandLine.TailOk;
      ghost var last := |nodes| - 1;
      TailValue();
      assert forall i :: 0 <= i < last ==> nodes[i] != tail && nodes[i].args != tail.args;
      assert forall i :: 0 <= i < last ==> nodes[i].Valid() && nodes[i].Value() == exprs[i];
      tail.AppendArg(word);
      exprs := exprs[last := tail.Value()];
      assert forall i :: 0 <= i < last ==> nodes[i].args == old(nodes[i].args);
      assert forall i :: 0 <= i < last ==> nodes[i].Valid() && nodes[i].Value() == exprs[i];
    }

    /** Lines 305-313: a word is an argument of the last command or begins a new one. */
    method TakeWord(word: string)
      requires Valid()
      modifies this, nodes, Arrays(nodes)
      ensures Valid() && Grows()
      ensures ToLine() == old(ToLine()).(exprs := AddWord(old(exprs), word))
    {
      if tail != null && tail.op == None {
        AppendArg(word);
      } else {
        var e := new ExprNode(None, word);
        AppendNode(e);
      }
    }

    /** Lines 328-330, 341-343, 354-356: an operator. */
    method TakeOperator(kind: Kind)
      requires Valid() && IsConnective(kind)
      modifies this, nodes, Arrays(nodes)
      ensures Valid() && Grows()
      ensures ToLine() == old(ToLine()).(exprs := old(exprs) + [OpExpr(kind)])
    {
      var e := new ExprNode(Some(kind), "");
      AppendNode(e);
    }

    /** Follow the links from the head, as the client of the list does. */
    method Walk() returns (line: Line)
      requires Valid()
      ensures line == ToLine()
    {
      var e, read: seq<Expr> := head, [];
      ghost var i := 0;
      while e != null
        invariant 0 <= i <= |nodes| && e == (if i < |nodes| then nodes[i] else null)
        invariant read == exprs[..i]
        decreases |nodes| - i
      {
        assert e.next == if i + 1 < |nodes| then nodes[i + 1] else null;
        read := read + [if e.op.Some? then OpExpr(e.op.value) else Command(e.exe, e.args[..e.argCount])];
        e := e.next;
        i := i + 1;
      }
      return Line(read, output, background);
    }

    /** Lines 303-360: what the main loop does with a complete token. */
    method TakeToken(kind: Kind, text: string) returns (verdict: Verdict)
      requires Valid()
      modifies this, nodes, Arrays(nodes)
      ensures Valid() && Grows()
      ensures verdict == OnToken(old(exprs), kind, text)
      ensures ToLine() == old(ToLine()).(exprs := if verdict.Continue? then Grown(old(exprs), kind,
          text) else old(exprs))
    {
      if kind == Str {
        if text == "" {
          return AssertFails;
        }
        TakeWord(text);
        return Continue;
      } else if kind == NewLine && tail == null {
        return Continue;
      } else if IsConnective(kind) {
        if tail == null {
          return Refuse(NoLeftArg(kind));
        }
        if tail.op != None {
          return Refuse(NotACommand(kind));
        }
        TakeOperator(kind);
        return Continue;
      }
      return ClosesLine;
    }
  }

  function OnToken(exprs: seq<Expr>, kind: Kind, text: string): Verdict {
    if kind.Str? then (if text == "" then AssertFails else Continue)
    else if kind.NewLine? && exprs == [] then Continue
    else if IsConnective(kind) then
      if exprs == [] then Refuse(NoLeftArg(kind))
      else if !EndsWithCommand(exprs) then Refuse(NotACommand(kind))
      else Continue
    else ClosesLine
  }

  /** The expressions after a token with which the main loop continues. */
  function Grown(exprs: seq<Expr>, kind: Kind, text: string): seq<Expr> {
    if kind.Str? then AddWord(exprs, text)
    else if IsConnective(kind) then exprs + [OpExpr(kind)]
    else exprs
  }

  /** How the line goes on at position j after a verdict on a token of the given kind. */
  function Resume(s: string, j: nat, exprs: seq<Expr>, kind: Kind, verdict: Verdict): Pop
    requires j <= |s|
  {
    match verdict
    case Continue => Body(s, j, exprs)
    case Refuse(error) => Recover(s, j, error)
    case ClosesLine => Close(s, j, exprs, kind)
    case Incomplete => NoLine
    case AssertFails => Aborted
  }

  lemma BodyStep(s: string, i: nat, exprs: seq<Expr>)
    requires i <= |s|
    ensures var r := ParseToken(s, i);
      && (r.NeedMore? ==> Body(s, i, exprs) == NoLine)
      && (r.AssertFailed? ==> Body(s, i, exprs) == Aborted)
      && (r.Token? ==>
            var verdict := OnToken(exprs, r.kind, r.text);
            && r.next <= |s|
            && Body(s, i, exprs) ==
               Resume(s, r.next, if verdict.Continue? then Grown(exprs, r.kind, r.text) else exprs, r.kind, verdict))
  {
    TokenBounds(s, i);
  }

  // ---- the parser ----

  /** struct parser: the buffer is an array whose length is the capacity. */
  class Parser {
    var buffer: array<char>
    var size: nat

    ghost predicate Valid()
      reads this
    {
      size <= buffer.Length
    }

    ghost function Contents(): string
      requires Valid()
      reads this, buffer
    {
      buffer[..size]
    }

    /** The growth rule of lines 113-119. */
    static function NextCapacity(capacity: nat, size: nat, len: nat): (r: nat)
      ensures r >= size + len && (r == capacity <==> size + len <= capacity)
      ensures r != capacity ==> r >= 2 * capacity + 2 && (r == 2 * capacity + 2 || r == size + len)
    {
      if capacity >= size + len then capacity else Max((capacity + 1) * 2, size + len)
    }

    /** parser_new, lines 104-108. */
    constructor ()
      ensures Valid() && Contents() == "" && fresh(buffer) && buffer.Length == 0
    {
      buffer := new char[0];
      size := 0;
    }

    /** parser_feed, lines 110-124, where no 32-bit sum wraps. */
    method Feed(str: string)
      requires Valid()
      requires buffer.Length < 0x7FFF_FFFF && size + |str| < 0x1_0000_0000
      modifies this, buffer
      ensures Valid() && Contents() == old(Contents()) + str
      ensures buffer == old(buffer) || fresh(buffer)
      ensures buffer.Length == NextCapacity(old(buffer.Length), old(size), |str|) < 0x1_0000_0000
    {
      if buffer.Length - size < |str| {
        var newCapacity := (buffer.Length + 1) * 2;
        if newCapacity - size < |str| {
          newCapacity := size + |str|;
        }
        var grown := new char[newCapacity];
        forall i | 0 <= i < size {
          grown[i] := buffer[i];
        }
        buffer := grown;
      }
      forall i | 0 <= i < |str| {
        buffer[size + i] := str[i];
      }
      size := size + |str|;
    }

    /** parser_consume, lines 126-136. */
    method Consume(n: nat)
      requires Valid() && n <= size
      modifies this`size, buffer
      ensures Valid() && Contents() == old(Contents())[n..]
    {
      if n == size {
        size := 0;
        return;
      }
      forall i | 0 <= i < size - n {
        buffer[i] := buffer[i + n];
      }
      size := size - n;
    }

    /** What a call that found the buffer holding `before` returned, and what it left. */
    ghost predicate Popped(r: Pop, before: string, error: Option<Error>, line: CommandLine?, ok: bool)
      requires Valid()
      reads this, buffer, line
    {
      match r
      case NoLine => ok && error == None && line == null && Contents() == before
      case Aborted => !ok
      case Failed(e, used) => ok && error == Some(e) && line == null && used <= |before| && Contents() == before[used..]
      case Parsed(l, used) =>
        ok && error == None && line != null && line.ToLine() == l && used <= |before| && Contents() == before[used..]
    }

    /** The label return_error, lines 410-426: res stays `error` if the line can be skipped. */
    method ReturnError(start: nat, error: Error, token: TokenBuf) returns (res: Option<Error>, ok: bool)
      requires Valid() && start <= size && token.text.Valid() && token.text.data != buffer
      modifies this`size, buffer, token, token.text, token.text.data
      ensures Valid() && Popped(Recover(old(Contents()), start, error), old(Contents()), res, null, ok)
    {
      ghost var s := Contents();
      RecoverProgress(s, start, error);
      var pos := start;
      while pos < size
        invariant Valid() && start <= pos <= size && Contents() == s
        invariant token.text.Valid() && token.text.data != buffer
        invariant token.text.data == old(token.text.data) || fresh(token.text.data)
        invariant Recover(s, pos, error) == Recover(s, start, error)
        decreases size - pos
      {
        TokenBounds(s, pos);
        var used, fine := ReadToken(buffer, pos, size, token);
        if !fine {
          return None, false;
        }
        if used == 0 {
          break;
        }
        pos := pos + used;
        if token.kind == Some(NewLine) {
          Consume(pos);
          return Some(error), true;
        }
      }
      return None, true;
    }

    /** Lines 396-408, behind the token that must be the newline. */
    method FinishLine(start: nat, line: CommandLine, token: TokenBuf)
      returns (error: Option<Error>, out: CommandLine?, ok: bool)
      requires Valid() && start <= size && token.text.Valid() && token.text.data != buffer
      requires token.kind.Some? && line.TailOk()
      modifies this`size, buffer, token, token.text, token.text.data
      ensures Valid() && (out != null ==> out == line)
      ensures Popped(Finish(old(Contents()), start, old(line.ToLine()), old(token.kind.value)), old(Contents()),
          error, out, ok)
    {
      if token.kind != Some(NewLine) {
        error, ok := ReturnError(start, TooLateArguments, token);
        return error, null, ok;
      }
      if line.tail == null {
        return None, null, false;
      }
      Consume(start);
      if line.tail.op != None {
        return Some(EndsNotWithACommand), null, true;
      }
      return None, line, true;
    }

    /** Lines 389-395, then the end of the line. */
    method FinishBackground(start: nat, line: CommandLine, token: TokenBuf)
      returns (error: Option<Error>, out: CommandLine?, ok: bool)
      requires Valid() && start <= size && token.text.Valid() && token.text.data != buffer
      requires token.kind.Some? && line.TailOk() && !line.background
      modifies this`size, buffer, token, token.text, token.text.data, line`background
      ensures Valid() && (out != null ==> out == line)
      ensures Popped(Ampersand(old(Contents()), start, old(line.exprs), old(line.output), old(token.kind.value)),
                     old(Contents()), error, out, ok)
    {
      var pos := start;
      if token.kind == Some(Kind.Background) {
        line.background := true;
        TokenBounds(Contents(), pos);
        var used, fine := ReadToken(buffer, pos, size, token);
        if !fine || used == 0 {
          return None, null, fine;
        }
        pos := pos + used;
      }
      error, out, ok := FinishLine(pos, line, token);
    }

    /** Lines 375-387, behind a redirection operator: the file name and the token after it.
        `stuck` tells that the call is over with the error and ok returned. */
    method ReadFileName(start: nat, appending: bool, line: CommandLine, token: TokenBuf)
      returns (pos: nat, stuck: bool, error: Option<Error>, ok: bool)
      requires Valid() && start <= size && token.text.Valid() && token.text.data != buffer
      modifies this`size, buffer, token, token.text, token.text.data, line`output
      ensures Valid()
      ensures var s := old(Contents()); var k := if appending then OutAppend else OutNew;
        if stuck then Popped(Close(s, start, line.exprs, k), s, error, null, ok)
        else
          && Contents() == s && start <= pos <= size && token.kind.Some? && token.text.Valid()
          && (token.text.data == old(token.text.data) || fresh(token.text.data))
          && Close(s, start, line.exprs, k) == Ampersand(s, pos, line.exprs, line.output, token.kind.value)
    {
      pos, stuck, error, ok := start, true, None, true;
      TokenBounds(Contents(), pos);
      var used, fine := ReadToken(buffer, pos, size, token);
      if !fine || used == 0 {
        ok := fine;
        return;
      }
      pos := pos + used;
      if token.kind != Some(Str) {
        error, ok := ReturnError(pos, RedirectBadArg, token);
        return;
      }
      if token.text.size == 0 {
        ok := false;
        return;
      }
      var name := token.text.data[..token.text.size];
      line.output := if appending then FileAppend(name) else FileNew(name);
      TokenBounds(Contents(), pos);
      used, fine := ReadToken(buffer, pos, size, token);
      if !fine || used == 0 {
        ok := fine;
        return;
      }
      pos := pos + used;
      stuck := false;
    }

    /** The label close_and_return, lines 368-408, with the token that led there. */
    method CloseAndReturn(start: nat, line: CommandLine, token: TokenBuf)
      returns (error: Option<Error>, out: CommandLine?, ok: bool)
      requires Valid() && start <= size && token.text.Valid() && token.text.data != buffer
      requires token.kind.Some? && line.TailOk() && line.output == Stdout && !line.background
      modifies this`size, buffer, token, token.text, token.text.data, line`output, line`background
      ensures Valid() && (out != null ==> out == line)
      ensures Popped(Close(old(Contents()), start, old(line.exprs), old(token.kind.value)), old(Contents()),
          error, out, ok)
    {
      var pos := start;
      if token.kind == Some(OutNew) || token.kind == Some(OutAppend) {
        var stuck;
        pos, stuck, error, ok := ReadFileName(pos, token.kind == Some(OutAppend), line, token);
        if stuck {
          return error, null, ok;
        }
      }
      error, out, ok := FinishBackground(pos, line, token);
    }

    /** Lines 298-302; the line is left alone. */
    method NextToken(pos: nat, line: CommandLine, token: TokenBuf) returns (used: nat, fine: bool)
      requires Valid() && pos <= size && token.text.Valid() && token.text.data != buffer && line.Valid()
      modifies token, token.text, token.text.data
      ensures line.Valid() && token.text.Valid()
      ensures token.text.data == old(token.text.data) || fresh(token.text.data)
      ensures Contents() == old(Contents())
      ensures Returns(ParseToken(Contents(), pos), pos, used, fine, token)
    {
      hide Returns, ParseToken;
      used, fine := ReadToken(buffer, pos, size, token);
    }

    /** Lines 298-360: one turn of the main loop. */
    method Advance(pos: nat, line: CommandLine, token: TokenBuf) returns (next: nat, verdict: Verdict)
      requires Valid() && pos <= size && token.text.Valid() && token.text.data != buffer
      requires line.Valid() && token.text.data != buffer
      modifies token, token.text, token.text.data, line, line.nodes, Arrays(line.nodes)
      ensures Valid() && token.text.data != buffer && Contents() == old(Contents())
      ensures token.text.Valid() && (token.text.data == old(token.text.data) || fresh(token.text.data))
      ensures line.Valid() && line.Grows()
      ensures line.output == old(line.output) && line.background == old(line.background)
      ensures pos <= next <= size && (verdict.Continue? ==> pos < next) && (verdict.ClosesLine? ==> token.kind.Some?)
      ensures Body(old(Contents()), pos, old(line.exprs))
           == Resume(old(Contents()), next, line.exprs, if token.kind.Some? then token.kind.value else Str, verdict)
    {
      hide CommandLine.Valid;
      BodyStep(Contents(), pos, line.exprs);
      var used, fine := NextToken(pos, line, token);
      if !fine || used == 0 {
        return pos, if fine then Incomplete else AssertFails;
      }
      next := pos + used;
      verdict := line.TakeToken(token.kind.value, token.text.data[..token.text.size]);
    }

    /** The labels behind the main loop, lines 366-434. */
    method Conclude(pos: nat, line: CommandLine, token: TokenBuf, verdict: Verdict)
      returns (error: Option<Error>, out: CommandLine?, ok: bool)
      requires Valid() && pos <= size && token.text.Valid() && token.text.data != buffer
      requires line.TailOk() && line.output == Stdout && !line.background
      requires !verdict.Continue? && (verdict.ClosesLine? ==> token.kind.Some?)
      modifies this`size, buffer, token, token.text, token.text.data, line`output, line`background
      ensures Valid() && (out != null ==> out == line)
      ensures var s := old(Contents()); var kind := old(token.kind);
        Popped(Resume(s, pos, old(line.exprs), if kind.Some? then kind.value else Str, verdict), s, error, out, ok)
    {
      match verdict {
        case Incomplete => return None, null, true;
        case AssertFails => return None, null, false;
        case Refuse(e) =>
          error, ok := ReturnError(pos, e, token);
          out := null;
        case ClosesLine =>
          error, out, ok := CloseAndReturn(pos, line, token);
      }
    }

    /** The same; the list of expressions is left alone. */
    method Deliver(pos: nat, line: CommandLine, token: TokenBuf, verdict: Verdict)
      returns (error: Option<Error>, out: CommandLine?, ok: bool)
      requires Valid() && pos <= size && token.text.Valid() && token.text.data != buffer
      requires line.Valid() && line.output == Stdout && !line.background
      requires !verdict.Continue? && (verdict.ClosesLine? ==> token.kind.Some?)
      modifies this`size, buffer, token, token.text, token.text.data, line`output, line`background
      ensures Valid() && line.Valid() && (out != null ==> out == line)
      ensures var s := old(Contents()); var kind := old(token.kind);
        Popped(Resume(s, pos, old(line.exprs), if kind.Some? then kind.value else Str, verdict), s, error, out, ok)
    {
      hide Popped, Resume;
      error, out, ok := Conclude(pos, line, token, verdict);
    }

    /** The main loop, lines 297-365. */
    method ReadBody(line: CommandLine, token: TokenBuf) returns (pos: nat, verdict: Verdict)
      requires Valid() && token.text.Valid() && line.Valid() && token.text.data != buffer && line.exprs == []
      modifies token, token.text, token.text.data, line, line.nodes, Arrays(line.nodes)
      ensures Valid() && token.text.data != buffer && Contents() == old(Contents())
      ensures token.text.Valid() && (token.text.data == old(token.text.data) || fresh(token.text.data))
      ensures line.Valid() && line.Grows()
      ensures line.output == old(line.output) && line.background == old(line.background)
      ensures pos <= size && !verdict.Continue? && (verdict.ClosesLine? ==> token.kind.Some?)
      ensures ShellParser.PopNext(old(Contents()))
           == Resume(old(Contents()), pos, line.exprs, if token.kind.Some? then token.kind.value else Str, verdict)
    {
      hide CommandLine.Valid;
      ghost var s := Contents();
      pos, verdict := 0, Continue;
      while pos < size && verdict == Continue
        invariant Valid() && pos <= size && Contents() == s && token.text.data != buffer
        invariant token.text.Valid() && (token.text.data == old(token.text.data) || fresh(token.text.data))
        invariant line.Valid() && line.Grows()
        invariant line.output == old(line.output) && line.background == old(line.background)
        invariant verdict.ClosesLine? ==> token.kind.Some?
        invariant Resume(s, pos, line.exprs, if token.kind.Some? then token.kind.value else Str, verdict)
               == ShellParser.PopNext(s)
        decreases size - pos, verdict == Continue
      {
        pos, verdict := Advance(pos, line, token);
      }
      if verdict == Continue {
        verdict := Incomplete;
      }
    }

    /** parser_pop_next, lines 287-435. */
    method PopNext() returns (error: Option<Error>, out: CommandLine?, ok: bool)
      requires Valid()
      modifies this`size, buffer
      ensures Valid() && (out != null ==> fresh(out) && out.Valid())
      ensures Popped(ShellParser.PopNext(old(Contents())), old(Contents()), error, out, ok)
    {
      hide CommandLine.Valid, Popped, Resume;
      var line := new CommandLine();
      var token := new TokenBuf();
      var pos, verdict := ReadBody(line, token);
      error, out, ok := Deliver(pos, line, token, verdict);
    }
  }

  /** The state of the program after a loop with outcome o. */
  ghost predicate DrainedTo(o: Outcome, events: seq<Event>, p: Parser, crashed: bool)
    requires p.Valid()
    reads p, p.buffer
  {
    crashed == o.Crashed? && events == o.events && (o.Waiting? ==> p.Contents() == o.rest)
  }

  /** Lines 217-227 of 2/solution.c: pop until there is neither a line nor an error. */
  method DrainLoop(p: Parser) returns (events: seq<Event>, crashed: bool)
    requires p.Valid()
    modifies p`size, p.buffer
    ensures p.Valid() && DrainedTo(Drain(old(p.Contents())), events, p, crashed)
  {
    ghost var want := Drain(p.Contents());
    events, crashed := [], false;
    BeforeJoins([], [], want);
    while true
      invariant p.Valid()
      invariant want == Before(events, Drain(p.Contents()))
      decreases p.size
    {
      PopProgress(p.Contents());
      var error, line, ok := p.PopNext();
      if !ok {
        return events, true;
      }
      if error == None && line == null {
        return events, false;
      }
      var event;
      if error != None {
        event := Report(error.value);
      } else {
        var l := line.Walk();
        event := Execute(l);
      }
      BeforeJoins(events, [event], Drain(p.Contents()));
      events := events + [event];
    }
  }

  /** One turn of the outer loop: the chunk is fed and the buffer drained. */
  method Turn(p: Parser, ghost done: seq<Event>, chunk: string, ghost later: seq<string>)
    returns (events: seq<Event>, crashed: bool)
    requires p.Valid() && p.buffer.Length < 0x7FFF_FFFF && p.size + |chunk| < 0x1_0000_0000
    modifies p, p.buffer
    ensures p.Valid() && (p.buffer == old(p.buffer) || fresh(p.buffer))
    ensures p.buffer.Length == Parser.NextCapacity(old(p.buffer.Length), old(p.size), |chunk|)
    ensures |p.Contents()| <= old(|p.Contents()|) + |chunk| || crashed
    ensures var o := Before(done, Stream(old(p.Contents()), [chunk] + later));
      if crashed then o == Crashed(done + events) else o == Before(done + events, Stream(p.Contents(), later))
  {
    assert ([chunk] + later)[1..] == later;
    p.Feed(chunk);
    ghost var o := Drain(p.Contents());
    DrainShrinks(p.Contents());
    events, crashed := DrainLoop(p);
    BeforeJoins(done, events, Stream(p.Contents(), later));
  }

  /** The read loop of main in 2/solution.c, lines 214-228, over the chunks read() returns;
      the bound keeps the 32-bit sizes of the buffer from wrapping. `crashed` tells that an
      assert failed, `rest` is the text left in the buffer. However the input is cut, the
      outcome is that of the whole input: what popping it line by line gives. */
  method ReadLoop(chunks: seq<string>) returns (events: seq<Event>, rest: string, crashed: bool)
    requires |Concat(chunks)| < 0x3FFF_FFFF
    ensures var o := Drain(Concat(chunks));
      crashed == o.Crashed? && events == o.events && (o.Waiting? ==> rest == o.rest)
    ensures var o := if crashed then Crashed(events) else Waiting(events, rest);
      exists cuts :: DrainsTo(Concat(chunks), o, cuts)
  {
    hide Drain, Parser.NextCapacity;
    StreamingIsBatch(chunks);
    DrainIff(Concat(chunks), Drain(Concat(chunks)));
    ghost var want, total := Stream("", chunks), |Concat(chunks)|;
    var p := new Parser();
    events, rest, crashed := [], "", false;
    assert chunks[0..] == chunks;
    BeforeJoins([], [], want);
    for i := 0 to |chunks|
      invariant p.Valid() && fresh(p) && fresh(p.buffer) && !crashed
      invariant want == Before(events, Stream(p.Contents(), chunks[i..]))
      invariant |p.Contents()| + |Concat(chunks[i..])| <= total && p.buffer.Length <= 2 * total
    {
      assert chunks[i..] == [chunks[i]] + chunks[i + 1..];
      var more: seq<Event>;
      more, crashed := Turn(p, events, chunks[i], chunks[i + 1..]);
      events := events + more;
      if crashed {
        return;
      }
    }
    rest := p.buffer[..p.size];
  }
}

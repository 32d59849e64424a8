/** Printing a command line so that the parser reads it back. */
module ShellPrint {
  import opened ShellLexer
  import opened ShellSpelling
  import opened ShellParser
  import opened ShellGrammar
  import opened ShellAgreement
  import opened ShellStream

  /** A word in double quotes, with the quote and the backslash escaped. */
  function Inners(word: string): seq<Inner> {
    if word == "" then []
    else [if word[0] == '"' || word[0] == '\\' then Quoted(word[0]) else Raw(word[0])] + Inners(word[1..])
  }

  function PrintWord(word: string): string {
    "\"" + InnersSource(Inners(word)) + "\""
  }

  /** A token and a blank behind it; a newline ends the line. */
  function PrintTok(t: Tok): string {
    match t.kind
    case Str => PrintWord(t.text) + " "
    case NewLine => "\n"
    case Pipe => "| "
    case And => "&& "
    case Or => "|| "
    case OutNew => "> "
    case OutAppend => ">> "
    case Background => "& "
  }

  function PrintToks(toks: seq<Tok>): string {
    if toks == [] then "" else PrintTok(toks[0]) + PrintToks(toks[1..])
  }

  function Print(line: Line): string {
    PrintToks(LineToks(line) + [NL])
  }

  predicate Printable(t: Tok) {
    t.kind.Str? || t.text == ""
  }

  lemma {:induction false} InnersMean(word: string)
    ensures ValidInners(Inners(word)) && InnersMeaning(Inners(word)) == word
  {
    if word != "" {
      InnersMean(word[1..]);
      assert Inners(word)[1..] == Inners(word[1..]);
    }
  }

  /** A position from which only blanks separate the next printed token. */
  predicate Gap(s: string, i: nat, j: nat) {
    i <= j <= |s| && (j == i || (j == i + 1 && s[i] == ' '))
  }

  lemma ParseAt(s: string, i: nat, j: nat)
    requires Gap(s, i, j) && j < |s| && !IsSpace(s[j])
    ensures ParseToken(s, i) == Unquoted(s, j, "")
  {
    assert SkipSpace(s, j) == j;
    assert SkipSpace(s, i) == j;
  }

  lemma UnquotedQuote(s: string, j: nat)
    requires j < |s| && s[j] == '"'
    ensures Unquoted(s, j, "") == Word(s, j + 1, Double, "")
  {
  }

  lemma PrintedWord(s: string, i: nat, j: nat, word: string)
    requires Gap(s, i, j) && At(s, j, PrintWord(word))
    ensures ParseToken(s, i) == Token(Str, word, j + |PrintWord(word)|)
  {
    hide Word, Inners, InnersSource, SkipSpace;
    var body := InnersSource(Inners(word)) + "\"";
    assert "\"" + body == PrintWord(word);
    AtSplit(s, j, "\"", body);
    assert s[j] == s[j..j + 1][0] == '"';
    ParseAt(s, i, j);
    UnquotedQuote(s, j);
    InnersMean(word);
    ReadInners(s, j + 1, Inners(word), "");
    assert "" + word == word;
  }

  /** One operator character, then a blank. */
  lemma PrintedSingle(s: string, i: nat, j: nat, c: char)
    requires Gap(s, i, j) && IsOperator(c) && At(s, j, [c, ' '])
    ensures ParseToken(s, i) == Token(OperatorKind(c, false), "", j + 1) && Gap(s, j + 1, j + 2)
  {
    var w := s[j..j + 2];
    assert s[j] == w[0] && s[j + 1] == w[1];
    ParseAt(s, i, j);
  }

  /** Two equal operator characters, then a blank. */
  lemma PrintedDouble(s: string, i: nat, j: nat, c: char)
    requires Gap(s, i, j) && IsOperator(c) && At(s, j, [c, c, ' '])
    ensures ParseToken(s, i) == Token(OperatorKind(c, true), "", j + 2) && Gap(s, j + 2, j + 3)
  {
    var w := s[j..j + 3];
    assert s[j] == w[0] && s[j + 1] == w[1] && s[j + 2] == w[2];
    ParseAt(s, i, j);
  }

  lemma PrintedTok(s: string, i: nat, j: nat, t: Tok)
    requires Gap(s, i, j) && At(s, j, PrintTok(t)) && Printable(t)
    ensures var r := ParseToken(s, i); var n := j + |PrintTok(t)|;
      && r.Token? && r.kind == t.kind && r.text == t.text
      && (if t.kind.NewLine? then r.next == n else Gap(s, r.next, n))
  {
    match t.kind
    case Str =>
      AtSplit(s, j, PrintWord(t.text), " ");
      PrintedWord(s, i, j, t.text);
      var m := j + |PrintWord(t.text)|;
      assert s[m] == s[m..m + 1][0];
    case NewLine =>
      assert s[j] == s[j..j + 1][0];
      assert SkipSpace(s, j) == j;
    case Pipe => PrintedSingle(s, i, j, '|');
    case OutNew => PrintedSingle(s, i, j, '>');
    case Background => PrintedSingle(s, i, j, '&');
    case And => PrintedDouble(s, i, j, '&');
    case Or => PrintedDouble(s, i, j, '|');
    case OutAppend => PrintedDouble(s, i, j, '>');
  }

  predicate AllPrintable(toks: seq<Tok>) {
    forall k :: 0 <= k < |toks| ==> Printable(toks[k])
  }

  /** Reading one printed token leaves a gap before what is printed next. */
  lemma PrintedHead(s: string, i: nat, j: nat, t: Tok, rest: seq<Tok>) returns (m: nat)
    requires Gap(s, i, j) && At(s, j, PrintTok(t) + PrintToks(rest)) && Printable(t)
    ensures i <= |s| && m <= |s| && Lexes(s, i, [t], m)
    ensures var j' := j + |PrintTok(t)|;
      Gap(s, m, j') && At(s, j', PrintToks(rest)) && (t.kind.NewLine? ==> m == j')
  {
    AtSplit(s, j, PrintTok(t), PrintToks(rest));
    PrintedTok(s, i, j, t);
    m := ParseToken(s, i).next;
    LexesOne(s, i, t);
  }

  lemma {:induction false} PrintedToks(s: string, i: nat, j: nat, toks: seq<Tok>) returns (n: nat)
    requires Gap(s, i, j) && At(s, j, PrintToks(toks)) && AllPrintable(toks)
    requires toks != [] && toks[|toks| - 1].kind.NewLine?
    ensures i <= |s| && Lexes(s, i, toks, n) && n == j + |PrintToks(toks)|
    decreases |toks|
  {
    hide PrintTok, At, Lexes;
    var t, rest := toks[0], toks[1..];
    var m := PrintedHead(s, i, j, t, rest);
    assert toks == [t] + rest;
    if rest == [] {
      assert toks == [t];
      n := m;
    } else {
      n := PrintedToks(s, m, j + |PrintTok(t)|, rest);
      LexesJoin(s, i, [t], m, rest, n);
    }
  }

  lemma {:induction false} WordsPrintable(words: seq<string>)
    ensures AllPrintable(WordToks(words))
  {
    if words != [] {
      WordsPrintable(words[1..]);
    }
  }

  lemma {:induction false} ChainPrintable(exprs: seq<Expr>)
    ensures AllPrintable(ChainToks(exprs))
    decreases |exprs|
  {
    if exprs != [] {
      var last := |exprs| - 1;
      ChainPrintable(exprs[..last]);
      if exprs[last].Command? {
        WordsPrintable(exprs[last].args);
      }
    }
  }

  /** Round trip: whatever follows, a printed well-formed line is popped as that line, and
      exactly the printed text is consumed. */
  lemma PrintThenPop(line: Line, rest: string)
    requires WellFormed(line)
    ensures PopNext(Print(line) + rest) == Parsed(line, |Print(line)|)
  {
    hide PopNext, Lexes;
    var s := Print(line) + rest;
    var toks := LineToks(line) + [NL];
    ChainPrintable(line.exprs);
    assert At(s, 0, PrintToks(toks));
    var n := PrintedToks(s, 0, 0, toks);
    assert NewLines(0) + LineToks(line) + [NL] == toks;
    assert Accepts(s, line, n);
    AcceptedIsParsed(s, line, n);
  }

  function PrintAll(lines: seq<Line>): string {
    if lines == [] then "" else Print(lines[0]) + PrintAll(lines[1..])
  }

  function Executions(lines: seq<Line>): seq<Event> {
    seq(|lines|, k requires 0 <= k < |lines| => Execute(lines[k]))
  }

  lemma NothingToPop()
    ensures PopNext("") == NoLine
  {
  }

  /** A script of printed lines is executed line by line, and nothing is left. */
  lemma {:induction false} PrintThenDrain(lines: seq<Line>)
    requires forall k :: 0 <= k < |lines| ==> WellFormed(lines[k])
    ensures Drain(PrintAll(lines)) == Waiting(Executions(lines), "")
  {
    hide PopNext, Print, WellFormed;
    if lines == [] {
      NothingToPop();
    } else {
      var head, rest := Print(lines[0]), PrintAll(lines[1..]);
      PrintThenPop(lines[0], rest);
      assert (head + rest)[|head|..] == rest;
      PrintThenDrain(lines[1..]);
      assert Executions(lines) == [Execute(lines[0])] + Executions(lines[1..]);
    }
  }

  /** Whatever line the parser returns, printing it and parsing again gives it back. */
  lemma PopThenPrint(s: string, rest: string)
    requires PopNext(s).Parsed?
    ensures var line := PopNext(s).line; PopNext(Print(line) + rest) == Parsed(line, |Print(line)|)
  {
    var r := PopNext(s);
    ParsedIffWellFormed(s, r.line, r.used);
    PrintThenPop(r.line, rest);
  }
}

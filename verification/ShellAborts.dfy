/** Exactly which texts reach an assert of 2/parser.c, said over tokens. */
module ShellAborts {
  import opened ShellLexer
  import opened ShellSpelling
  import opened ShellTokens
  import opened ShellParser
  import opened ShellGrammar
  import opened ShellSoundness
  import opened ShellAgreement

  // ---- every abort is reached ----

  lemma {:induction false} SkippingAborts(s: string, i: nat, error: Error, skipped: seq<Tok>, m: nat)
    requires i <= |s| && Lexes(s, i, skipped, m) && m <= |s| && ParseToken(s, m).AssertFailed?
    requires forall k :: 0 <= k < |skipped| ==> !skipped[k].kind.NewLine?
    ensures Recover(s, i, error).Aborted?
    decreases |skipped|
  {
    if skipped != [] {
      TokenBounds(s, i);
      SkippingAborts(s, ParseToken(s, i).next, error, skipped[1..], m);
    }
  }

  lemma SkippingReached(s: string, n: nat, v: Violation, skipped: seq<Tok>, i: nat)
    requires AbortsAt(s, n, Skipping(v, skipped), i)
    ensures PopNext(s).Aborted?
  {
    assert NewLines(n) + AskToks(Skipping(v, skipped)) == NewLines(n) + ViolationToks(v) + skipped;
    var j := LexesSplit(s, 0, NewLines(n) + ViolationToks(v), skipped, i);
    ViolationReached(s, n, v, j);
    SkippingAborts(s, j, ViolationError(v), skipped, i);
  }

  lemma FileNameReached(s: string, n: nat, exprs: seq<Expr>, append: bool, i: nat)
    requires AbortsAt(s, n, ForFileName(exprs, append), i)
    ensures PopNext(s).Aborted?
  {
    var op := Tok(if append then OutAppend else OutNew, "");
    assert NewLines(n) + AskToks(ForFileName(exprs, append)) == NewLines(n) + ChainToks(exprs) + [op];
    var j := LexesSplit(s, 0, NewLines(n) + ChainToks(exprs), [op], i);
    ChainRead(s, n, exprs, j);
    LexesOne(s, j, op);
  }

  /** Behind a redirection the next token is asked for and must be foreseen. */
  lemma OutputAborts(s: string, i: nat, line: Line, b: nat)
    requires i <= |s| && b <= |s| && ValidOutput(line.output) && !line.output.Stdout? && !line.background
    requires Lexes(s, i, OutputToks(line.output), b)
    requires var r := ParseToken(s, b); r.AssertFailed? || (r.Token? && r.kind.NewLine? && line.exprs == [])
    ensures Body(s, i, line.exprs).Aborted?
  {
    var r := ParseToken(s, b);
    if r.Token? {
      TokenBounds(s, b);
      OutputRead(s, i, line.exprs, line.output, b, r.kind, r.text, r.next);
    } else {
      var op, word := OutputToks(line.output)[0], OutputToks(line.output)[1];
      assert OutputToks(line.output) == [op] + [word];
      var a := LexesSplit(s, i, [op], [word], b);
      LexesOne(s, i, op);
      LexesOne(s, a, word);
    }
  }

  /** Behind an ampersand likewise. */
  lemma AmpersandAborts(s: string, i: nat, line: Line, b: nat)
    requires i <= |s| && b <= |s| && ValidOutput(line.output) && line.background
    requires Lexes(s, i, OutputToks(line.output) + [Tok(Background, "")], b)
    requires var r := ParseToken(s, b); r.AssertFailed? || (r.Token? && r.kind.NewLine? && line.exprs == [])
    ensures Body(s, i, line.exprs).Aborted?
  {
    var a := LexesSplit(s, i, OutputToks(line.output), [Tok(Background, "")], b);
    LexesOne(s, a, Tok(Background, ""));
    OutputRead(s, i, line.exprs, line.output, a, Background, "", b);
  }

  lemma LineReached(s: string, n: nat, line: Line, i: nat)
    requires AbortsAt(s, n, InLine(line), i)
    ensures PopNext(s).Aborted?
  {
    var front := NewLines(n) + ChainToks(line.exprs);
    var tail := OutputToks(line.output) + BackgroundToks(line.background);
    assert NewLines(n) + AskToks(InLine(line)) == front + tail;
    var j := LexesSplit(s, 0, front, tail, i);
    ChainRead(s, n, line.exprs, j);
    if line.background {
      AmpersandAborts(s, j, line, i);
    } else if line.output.Stdout? {
      assert tail == [];
    } else {
      assert tail == OutputToks(line.output);
      OutputAborts(s, j, line, i);
    }
  }

  /** A pop fails an assert exactly when, after newlines and tokens that a line or its
      recovery can begin with, the lexer fails on the token asked for, or that token is an
      empty word where a word is taken, or a newline that ends a redirection or & without a
      command. */
  lemma AbortedIffUnforeseen(s: string)
    ensures PopNext(s).Aborted? <==> Aborts(s)
  {
    assert Lexes(s, 0, NewLines(0) + ChainToks([]), 0);
    BodyJustified(s, 0, 0, []);
    if Aborts(s) {
      var n, a, i :| AbortsAt(s, n, a, i);
      match a
      case InLine(line) => LineReached(s, n, line, i);
      case ForFileName(exprs, append) => FileNameReached(s, n, exprs, append, i);
      case Skipping(v, toks) => SkippingReached(s, n, v, toks, i);
    }
  }

  // ---- texts that reach the asserts ----

  lemma ParseHere(s: string, i: nat)
    requires i < |s| && (s[i] == '\n' || !IsSpace(s[i]))
    ensures ParseToken(s, i) == if s[i] == '\n' then Token(NewLine, "", i + 1) else Unquoted(s, i, "")
  {
  }

  /** An empty quoted word (line 37), in either kind of quotes. */
  lemma EmptyWordAborts(c: char, rest: string)
    requires c == '\'' || c == '"'
    ensures PopNext([c, c] + rest).Aborted?
  {
    var s := [c, c] + rest;
    assert s[0] == c && s[1] == c;
    ParseHere(s, 0);
    assert Word(s, 1, QuoteOf(c), "") == Token(Str, "", 2);
  }

  /** A joined line with no word before the next white space (252 and 258). */
  lemma JoinedBlankAborts(c: char, rest: string)
    requires BlankOrNewline(c)
    ensures PopNext("\\\n" + [c] + rest).Aborted?
  {
    var s := "\\\n" + [c] + rest;
    assert s[0] == '\\' && s[1] == '\n' && s[2] == c;
    assert Behind(s, 0, 0) && Joins(s, 0, 2) && Leads(s, 0, 0, 2);
    TokenAbortsIff(s, 0);
  }

  /** A line that begins with an ampersand and ends there (397). */
  lemma LoneAmpersandAborts(rest: string)
    ensures PopNext("&\n" + rest).Aborted?
  {
    var s := "&\n" + rest;
    assert s[0] == '&' && s[1] == '\n';
    ParseHere(s, 0);
    ParseHere(s, 1);
  }

  /** A line that is only a redirection reaches the same assert. */
  lemma LoneRedirectAborts(append: bool, rest: string)
    ensures PopNext((if append then ">>f\n" else ">f\n") + rest).Aborted?
  {
    var s := (if append then ">>f\n" else ">f\n") + rest;
    var i := if append then 2 else 1;
    assert s[0] == '>' && (append ==> s[1] == '>') && s[i] == 'f' && s[i + 1] == '\n';
    ParseHere(s, 0);
    ParseHere(s, i);
    ParseHere(s, i + 1);
    assert Word(s, i + 1, NoQuote, "f") == Token(Str, "f", i + 1);
    assert "" + ['f'] == "f";
  }

  /** An empty word that is not taken does no harm: behind an ampersand it is one argument
      too late, and the line is skipped. */
  lemma LateEmptyWordIsSkipped()
    ensures PopNext("a&''\n") == Failed(TooLateArguments, 5)
  {
    var s := "a&''\n";
    ParseHere(s, 0);
    assert "" + ['a'] == "a" && Word(s, 1, NoQuote, "a") == Token(Str, "a", 1);
    ParseHere(s, 1);
    ParseHere(s, 2);
    assert Word(s, 3, Single, "") == Token(Str, "", 4);
    ParseHere(s, 4);
  }
}

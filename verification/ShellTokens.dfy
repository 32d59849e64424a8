/** Exactly which characters are read as which token, or fail an assert of the lexer. */
module ShellTokens {
  import opened ShellLexer
  import opened ShellSpelling

  /** The text of an operator. */
  function Sign(k: Kind): (w: string)
    requires !k.Str? && !k.NewLine?
    ensures w == "|" || w == "||" || w == "&" || w == "&&" || w == ">" || w == ">>"
  {
    match k
    case Pipe => "|"
    case Or => "||"
    case Background => "&"
    case And => "&&"
    case OutNew => ">"
    case OutAppend => ">>"
  }

  /** Joined lines, if any, and nothing else stand between j and m. */
  predicate Joins(s: string, j: nat, m: nat)
    decreases |s| - j
  {
    j == m || (j + 1 < |s| && s[j] == '\\' && s[j + 1] == '\n' && Joins(s, j + 2, m))
  }

  /** White space stands between i and j, and joined lines between j and m. */
  ghost predicate Leads(s: string, i: nat, j: nat, m: nat) {
    Behind(s, i, j) && Joins(s, j, m) && m <= |s|
  }

  /** The lexer is told nothing by joined lines. */
  lemma {:induction false} JoinsRead(s: string, j: nat, m: nat)
    requires j <= |s| && Joins(s, j, m)
    ensures m <= |s| && Word(s, j, NoQuote, "") == Word(s, m, NoQuote, "")
    decreases |s| - j
  {
    if j != m {
      JoinsRead(s, j + 2, m);
    }
  }

  lemma {:induction false} JoinsEnd(s: string, j: nat) returns (m: nat)
    requires j <= |s|
    ensures j <= m <= |s| && Joins(s, j, m)
    ensures !(m + 1 < |s| && s[m] == '\\' && s[m + 1] == '\n')
    decreases |s| - j
  {
    m := j;
    if j + 1 < |s| && s[j] == '\\' && s[j + 1] == '\n' {
      m := JoinsEnd(s, j + 2);
    }
  }

  lemma {:induction false} JoinsOnly(s: string, j: nat, m: nat)
    requires Joins(s, j, m)
    ensures j <= m && (j < m ==> j < |s| && s[j] == '\\')
    decreases |s| - j
  {
    if j != m {
      JoinsOnly(s, j + 2, m);
    }
  }

  /** What has begun as a word ends as one. */
  lemma {:induction false} BegunIsWord(s: string, i: nat, quote: Quote, text: string)
    requires i <= |s| && (quote != NoQuote || text != "")
    ensures var r := Word(s, i, quote, text); !r.AssertFailed? && (r.Token? ==> r.kind.Str?)
    decreases |s| - i
  {
    if i < |s| {
      var c := s[i];
      BegunIsWord(s, i + 1, quote, text + [c]);
      if QuoteOf(c) != NoQuote {
        BegunIsWord(s, i + 1, QuoteOf(c), text);
      }
      if i + 1 < |s| {
        var d := s[i + 1];
        BegunIsWord(s, i + 2, quote, text + [d]);
        BegunIsWord(s, i + 2, quote, text);
        BegunIsWord(s, i + 2, quote, text + ['\\'] + [d]);
      }
    }
  }

  /** A newline behind a comment sign at m: the first one from there on. */
  ghost predicate EndsComment(s: string, m: nat, next: nat) {
    && m < next - 1 < |s| && s[next - 1] == '\n'
    && forall k :: m < k < next - 1 ==> s[k] != '\n'
  }

  lemma {:induction false} CommentIs(s: string, m: nat, i: nat, next: nat)
    requires m < i <= |s| && forall k :: m < k < i ==> s[k] != '\n'
    ensures Comment(s, i) == Token(NewLine, "", next) <==> EndsComment(s, m, next)
    ensures Comment(s, i).NeedMore? || (Comment(s, i).Token? && Comment(s, i).kind.NewLine? && Comment(s, i).text == "")
    decreases |s| - i
  {
    if i < |s| && s[i] != '\n' {
      CommentIs(s, m, i + 1, next);
    }
  }

  /** The operator k stands at m; a single sign is known to be one by the character behind it. */
  ghost predicate SignAt(s: string, m: nat, k: Kind, next: nat)
    requires !k.Str? && !k.NewLine?
  {
    && At(s, m, Sign(k)) && next == m + |Sign(k)|
    && (|Sign(k)| == 1 ==> next < |s| && s[next] != s[m])
  }

  lemma SignIs(s: string, m: nat, k: Kind, next: nat)
    requires !k.Str? && !k.NewLine?
    ensures SignAt(s, m, k, next) <==>
      && next == m + |Sign(k)| <= |s|
      && s[m] == Sign(k)[0]
      && (if |Sign(k)| == 2 then s[m + 1] == s[m] else next < |s| && s[next] != s[m])
  {
    var w := Sign(k);
    if m + |w| <= |s| {
      assert |w| == 1 ==> s[m..m + 1] == [s[m]];
      assert |w| == 2 ==> s[m..m + 2] == [s[m], s[m + 1]];
      if At(s, m, w) {
        assert s[m..m + |w|][0] == w[0];
        assert |w| == 2 ==> s[m..m + |w|][1] == w[1];
      }
    }
  }

  // ---- a text at which nothing has been read, with no joined line before it ----

  predicate NoJoin(s: string, m: nat) {
    m <= |s| && !(m + 1 < |s| && s[m] == '\\' && s[m + 1] == '\n')
  }

  /** Elsewhere a word begins. */
  lemma WordBegins(s: string, m: nat)
    requires NoJoin(s, m)
    requires m < |s| ==> !IsOperator(s[m]) && !IsBlank(s[m]) && s[m] != '\n' && s[m] != '#'
    ensures var r := Word(s, m, NoQuote, ""); !r.AssertFailed? && (r.Token? ==> r.kind.Str?)
  {
    if m < |s| {
      var c := s[m];
      if QuoteOf(c) != NoQuote {
        BegunIsWord(s, m + 1, QuoteOf(c), "");
      } else if c == '\\' {
        if m + 1 < |s| { BegunIsWord(s, m + 2, NoQuote, "" + [s[m + 1]]); }
      } else {
        BegunIsWord(s, m + 1, NoQuote, "" + [c]);
      }
    }
  }

  lemma OperatorHere(s: string, m: nat, k: Kind, text: string, next: nat)
    requires NoJoin(s, m) && !k.Str? && !k.NewLine?
    ensures Word(s, m, NoQuote, "") == Token(k, text, next) <==> text == "" && SignAt(s, m, k, next)
  {
    SignIs(s, m, k, next);
    if m < |s| && s[m] == '#' {
      CommentIs(s, m, m + 1, next);
    } else if m >= |s| || !IsOperator(s[m]) {
      if m >= |s| || (!IsBlank(s[m]) && s[m] != '\n') { WordBegins(s, m); }
    }
  }

  lemma CommentHere(s: string, m: nat, text: string, next: nat)
    requires NoJoin(s, m)
    ensures Word(s, m, NoQuote, "") == Token(NewLine, text, next) <==>
      text == "" && m < |s| && s[m] == '#' && EndsComment(s, m, next)
  {
    if m < |s| && s[m] == '#' {
      CommentIs(s, m, m + 1, next);
    } else if m >= |s| || (!IsOperator(s[m]) && !IsBlank(s[m]) && s[m] != '\n') {
      WordBegins(s, m);
    }
  }

  predicate BlankOrNewline(c: char) {
    c == ' ' || c == '\t' || c == '\r' || c == '\n'
  }

  lemma AbortHere(s: string, m: nat)
    requires NoJoin(s, m)
    ensures Word(s, m, NoQuote, "").AssertFailed? <==> m < |s| && BlankOrNewline(s[m])
  {
    if m < |s| && s[m] == '#' {
      CommentIs(s, m, m + 1, 0);
    } else if m >= |s| || (!IsOperator(s[m]) && !IsBlank(s[m]) && s[m] != '\n') {
      WordBegins(s, m);
    }
  }

  // ---- the tokens ----

  /** From i on the lexer skips the white space, then joined lines, and stands at m. */
  lemma Approach(s: string, i: nat) returns (j: nat, m: nat)
    requires i <= |s|
    ensures Leads(s, i, j, m) && NoJoin(s, m)
    ensures ParseToken(s, i) ==
      if j < |s| && s[j] == '\n' then Token(NewLine, "", j + 1) else Word(s, m, NoQuote, "")
    ensures forall j', m' :: Leads(s, i, j', m') && NoJoin(s, m') ==> j' == j && m' == m
  {
    j := SkipSpace(s, i);
    BehindIs(s, i, j);
    m := JoinsEnd(s, j);
    JoinsRead(s, j, m);
    forall j', m' | Leads(s, i, j', m') && NoJoin(s, m') ensures j' == j && m' == m {
      BehindIs(s, i, j');
      JoinsSame(s, j, m, m');
    }
  }

  lemma {:induction false} JoinsSame(s: string, j: nat, m: nat, n: nat)
    requires Joins(s, j, m) && Joins(s, j, n) && NoJoin(s, m) && NoJoin(s, n)
    ensures m == n
    decreases |s| - j
  {
    if j != m && j != n {
      JoinsSame(s, j + 2, m, n);
    }
  }

  /** The lexer reads a word from position i exactly when a spelling of that word stands
      behind the white space there, and then goes on right behind the spelling. */
  lemma WordsAreSpellings(s: string, i: nat, text: string, next: nat)
    requires i <= |s|
    ensures ParseToken(s, i) == Token(Str, text, next)
      <==> exists j: nat, sp: Spelling :: Behind(s, i, j) && Spells(s, j, sp, text, next)
  {
    hide Word, Spells, SkipSpace;
    if ParseToken(s, i) == Token(Str, text, next) {
      var j := SkipSpace(s, i);
      var sp := WordIsSpelled(s, j, text, next);
      BehindIs(s, i, j);
      assert Behind(s, i, j) && Spells(s, j, sp, text, next);
    }
    if j: nat, sp: Spelling :| Behind(s, i, j) && Spells(s, j, sp, text, next) {
      SpellingIsRead(s, j, sp, text, next);
      BehindIs(s, i, j);
    }
  }

  /** The lexer reads an operator from position i exactly when its sign stands behind the
      white space and the joined lines there, and goes on right behind it. */
  lemma OperatorsAreSigns(s: string, i: nat, k: Kind, text: string, next: nat)
    requires i <= |s| && !k.Str? && !k.NewLine?
    ensures ParseToken(s, i) == Token(k, text, next)
      <==> text == "" && exists j: nat, m: nat :: Leads(s, i, j, m) && SignAt(s, m, k, next)
  {
    var j, m := Approach(s, i);
    OperatorHere(s, m, k, text, next);
    forall j': nat, m': nat | Leads(s, i, j', m') && SignAt(s, m', k, next) ensures j' == j && m' == m {
      SignIs(s, m', k, next);
    }
    if SignAt(s, m, k, next) {
      SignIs(s, m, k, next);
      JoinsOnly(s, j, m);
    }
  }

  ghost predicate LineEndsAt(s: string, j: nat, m: nat, next: nat) {
    m < |s| && if s[m] == '\n' then m == j && next == m + 1 else s[m] == '#' && EndsComment(s, m, next)
  }

  /** It reads a newline exactly when one stands behind the white space, or when behind white
      space and joined lines a comment begins, which the first newline in it ends. */
  lemma NewLinesAre(s: string, i: nat, text: string, next: nat)
    requires i <= |s|
    ensures ParseToken(s, i) == Token(NewLine, text, next)
      <==> text == "" && exists j: nat, m: nat :: Leads(s, i, j, m) && LineEndsAt(s, j, m, next)
  {
    var j, m := Approach(s, i);
    CommentHere(s, m, text, next);
    JoinsOnly(s, j, m);
    if j < |s| && s[j] == '\n' {
      assert Joins(s, j, j);
      assert Leads(s, i, j, j);
    }
  }

  /** It fails an assert exactly when behind the white space there are joined lines, and
      behind them a blank or a newline. */
  lemma TokenAbortsIff(s: string, i: nat)
    requires i <= |s|
    ensures ParseToken(s, i).AssertFailed?
      <==> exists j: nat, m: nat :: Leads(s, i, j, m) && j < m < |s| && BlankOrNewline(s[m])
  {
    var j, m := Approach(s, i);
    AbortHere(s, m);
    JoinsOnly(s, j, m);
  }
}

/** The tokens of the shell: what parse_token of 2/parser.c (138-285) returns, as a
    function of the text and a position in it. */
module ShellLexer {

  datatype Kind = Str | NewLine | Pipe | And | Or | OutNew | OutAppend | Background

  /** `next` is the position after the token. NeedMore is the return value 0; AssertFailed
      is a failed assert of the C code. */
  datatype Lex = NeedMore | Token(kind: Kind, text: string, next: nat) | AssertFailed

  datatype Quote = NoQuote | Single | Double

  /** isspace of the C locale. */
  predicate IsSpace(c: char) {
    c == ' ' || c == '\t' || c == '\n' || c == '\U{0B}' || c == '\U{0C}' || c == '\r'
  }

  /** The blanks that end a word (247-249). */
  predicate IsBlank(c: char) {
    c == ' ' || c == '\t' || c == '\r'
  }

  predicate IsOperator(c: char) {
    c == '&' || c == '|' || c == '>'
  }

  function QuoteOf(c: char): Quote {
    if c == '\'' then Single else if c == '"' then Double else NoQuote
  }

  /** The operator that starts with c (214-245). */
  function OperatorKind(c: char, doubled: bool): Kind
    requires IsOperator(c)
  {
    if c == '&' then (if doubled then And else Background)
    else if c == '|' then (if doubled then Or else Pipe)
    else (if doubled then OutAppend else OutNew)
  }

  /** Lines 143-151: to the first newline or character that is not whitespace. */
  function SkipSpace(s: string, i: nat): (j: nat)
    requires i <= |s|
    ensures i <= j <= |s|
    ensures j < |s| ==> !IsSpace(s[j]) || s[j] == '\n'
    decreases |s| - i
  {
    if i < |s| && IsSpace(s[i]) && s[i] != '\n' then SkipSpace(s, i + 1) else i
  }

  /** Lines 269-276: the rest of a comment. */
  function Comment(s: string, i: nat): Lex
    requires i <= |s|
    decreases |s| - i
  {
    if i == |s| then NeedMore
    else if s[i] == '\n' then Token(NewLine, "", i + 1)
    else Comment(s, i + 1)
  }

  /** Lines 152-284: from position i, inside the quote, with the text collected so far. */
  function Word(s: string, i: nat, quote: Quote, text: string): Lex
    requires i <= |s|
    decreases |s| - i
  {
    if i == |s| then NeedMore
    else
      var c := s[i];
      if quote.NoQuote? then Unquoted(s, i, text)
      else if QuoteOf(c) == quote then Token(Str, text, i + 1)
      else if c == '\\' && quote.Double? then
        if i + 1 == |s| then NeedMore
        else
          var d := s[i + 1];
          Word(s, i + 2, quote,
               if d == '\\' || d == '"' then text + [d]
               else if d == '\n' then text
               else text + ['\\'] + [d])
      else Word(s, i + 1, quote, text + [c])
  }

  /** One character outside quotes. */
  function Unquoted(s: string, i: nat, text: string): Lex
    requires i < |s|
    decreases |s| - i, 0
  {
    var c := s[i];
    if QuoteOf(c) != NoQuote then
      Word(s, i + 1, QuoteOf(c), text)
    else if c == '\\' then
      if i + 1 == |s| then NeedMore
      else Word(s, i + 2, NoQuote, if s[i + 1] == '\n' then text else text + [s[i + 1]])
    else if IsOperator(c) then
      if text != "" then Token(Str, text, i)
      else if i + 1 == |s| then NeedMore
      else
        var doubled := s[i + 1] == c;
        Token(OperatorKind(c, doubled), "", if doubled then i + 2 else i + 1)
    else if IsBlank(c) then
      if text == "" then AssertFailed else Token(Str, text, i + 1)
    else if c == '\n' then
      if text == "" then AssertFailed else Token(Str, text, i)
    else if c == '#' then
      if text != "" then Token(Str, text, i) else Comment(s, i + 1)
    else Word(s, i + 1, NoQuote, text + [c])
  }

  /** parse_token at position i of s. */
  function ParseToken(s: string, i: nat): Lex
    requires i <= |s|
  {
    var j := SkipSpace(s, i);
    if j < |s| && s[j] == '\n' then Token(NewLine, "", j + 1) else Word(s, j, NoQuote, "")
  }

  // ---- every token consumes something, inside the text ----

  lemma {:induction false} CommentBounds(s: string, i: nat)
    requires i <= |s|
    ensures var r := Comment(s, i); r.Token? ==> i < r.next <= |s| && r.text == "" && r.kind.NewLine?
    ensures !Comment(s, i).AssertFailed?
    decreases |s| - i
  {
    if i < |s| && s[i] != '\n' {
      CommentBounds(s, i + 1);
    }
  }

  lemma {:induction false} WordBounds(s: string, i: nat, quote: Quote, text: string)
    requires i <= |s|
    ensures var r := Word(s, i, quote, text);
      r.Token? ==> i <= r.next <= |s| && (text == "" ==> i < r.next) && (r.text != "" ==> r.kind.Str?)
    decreases |s| - i
  {
    if i < |s| {
      var c := s[i];
      if i + 1 <= |s| {
        WordBounds(s, i + 1, quote, text + [c]);
        if QuoteOf(c) != NoQuote { WordBounds(s, i + 1, QuoteOf(c), text); }
      }
      if i + 2 <= |s| {
        var d := s[i + 1];
        WordBounds(s, i + 2, quote, text + [d]);
        WordBounds(s, i + 2, quote, text);
        WordBounds(s, i + 2, quote, text + ['\\'] + [d]);
      }
      CommentBounds(s, i + 1);
    }
  }

  /** A token ends after its start and within the text; only words carry text. */
  lemma TokenBounds(s: string, i: nat)
    requires i <= |s|
    ensures var r := ParseToken(s, i); r.Token? ==> i < r.next <= |s| && (r.text != "" ==> r.kind.Str?)
  {
    WordBounds(s, SkipSpace(s, i), NoQuote, "");
  }

  // ---- a verdict does not change when text is appended ----

  lemma {:induction false} SkipSpaceStable(s: string, t: string, i: nat)
    requires i <= |s| && SkipSpace(s, i) < |s|
    ensures SkipSpace(s + t, i) == SkipSpace(s, i)
    decreases |s| - i
  {
    if i < |s| {
      assert (s + t)[i] == s[i];
      if IsSpace(s[i]) && s[i] != '\n' {
        SkipSpaceStable(s, t, i + 1);
      }
    }
  }

  lemma {:induction false} CommentStable(s: string, t: string, i: nat)
    requires i <= |s| && Comment(s, i) != NeedMore
    ensures Comment(s + t, i) == Comment(s, i)
    decreases |s| - i
  {
    assert (s + t)[i] == s[i];
    if s[i] != '\n' {
      CommentStable(s, t, i + 1);
    }
  }

  lemma {:induction false} WordStable(s: string, t: string, i: nat, quote: Quote, text: string)
    requires i <= |s| && Word(s, i, quote, text) != NeedMore
    ensures Word(s + t, i, quote, text) == Word(s, i, quote, text)
    decreases |s| - i
  {
    var c := s[i];
    assert (s + t)[i] == c;
    if quote.NoQuote? {
      UnquotedStable(s, t, i, text);
    } else if QuoteOf(c) == quote {
    } else if c == '\\' && quote.Double? {
      var d := s[i + 1];
      assert (s + t)[i + 1] == d;
      var text' := if d == '\\' || d == '"' then text + [d] else if d == '\n' then text else text + ['\\'] + [d];
      WordStable(s, t, i + 2, quote, text');
    } else {
      WordStable(s, t, i + 1, quote, text + [c]);
    }
  }

  lemma {:induction false} UnquotedStable(s: string, t: string, i: nat, text: string)
    requires i < |s| && Unquoted(s, i, text) != NeedMore
    ensures Unquoted(s + t, i, text) == Unquoted(s, i, text)
    decreases |s| - i, 0
  {
    var c := s[i];
    assert (s + t)[i] == c;
    if i + 1 < |s| {
      assert (s + t)[i + 1] == s[i + 1];
    }
    if QuoteOf(c) != NoQuote {
      WordStable(s, t, i + 1, QuoteOf(c), text);
    } else if c == '\\' {
      WordStable(s, t, i + 2, NoQuote, if s[i + 1] == '\n' then text else text + [s[i + 1]]);
    } else if IsOperator(c) || IsBlank(c) || c == '\n' {
    } else if c == '#' {
      if text == "" { CommentStable(s, t, i + 1); }
    } else {
      WordStable(s, t, i + 1, NoQuote, text + [c]);
    }
  }

  /** A token, or a failed assert, found in a prefix of the input stays what it is. */
  lemma TokenStable(s: string, t: string, i: nat)
    requires i <= |s| && ParseToken(s, i) != NeedMore
    ensures ParseToken(s + t, i) == ParseToken(s, i)
  {
    var j := SkipSpace(s, i);
    SkipSpaceStable(s, t, i);
    assert (s + t)[j] == s[j];
    if s[j] != '\n' {
      WordStable(s, t, j, NoQuote, "");
    }
  }
}

/** The ways to write a word, said independently of the lexer: plain and escaped characters
    and joined lines, then possibly one quoted part, which ends the word. The lexer reads
    these spellings and no others, and from each the word it stands for. */
module ShellSpelling {
  import opened ShellLexer

  /** Outside quotes: a character, a backslash and a character, a backslash and a newline. */
  datatype Piece = Plain(c: char) | Escaped(c: char) | Joined

  /** Inside double quotes: a character; an escaped quote or backslash; a backslash that is
      kept before any other character; a backslash and a newline. */
  datatype Inner = Raw(c: char) | Quoted(c: char) | Kept(c: char) | Continued

  datatype Ending = Bare | SingleQuoted(body: string) | DoubleQuoted(inners: seq<Inner>)

  predicate ValidPiece(p: Piece) {
    match p
    case Plain(c) =>
      && c != '\'' && c != '"' && c != '\\' && c != '#' && c != '&' && c != '|' && c != '>'
      && c != ' ' && c != '\t' && c != '\r' && c != '\n'
    case Escaped(c) => c != '\n'
    case Joined => true
  }

  predicate ValidInner(p: Inner) {
    match p
    case Raw(c) => c != '"' && c != '\\'
    case Quoted(c) => c == '"' || c == '\\'
    case Kept(c) => c != '"' && c != '\\' && c != '\n'
    case Continued => true
  }

  predicate ValidPieces(ps: seq<Piece>) {
    forall k :: 0 <= k < |ps| ==> ValidPiece(ps[k])
  }

  predicate ValidInners(ps: seq<Inner>) {
    forall k :: 0 <= k < |ps| ==> ValidInner(ps[k])
  }

  predicate ValidEnding(e: Ending) {
    match e
    case Bare => true
    case SingleQuoted(body) => '\'' !in body
    case DoubleQuoted(inners) => ValidInners(inners)
  }

  function PieceSource(p: Piece): string {
    match p
    case Plain(c) => [c]
    case Escaped(c) => ['\\', c]
    case Joined => ['\\', '\n']
  }

  function PieceMeaning(p: Piece): string {
    match p
    case Plain(c) => [c]
    case Escaped(c) => [c]
    case Joined => []
  }

  function InnerSource(p: Inner): string {
    match p
    case Raw(c) => [c]
    case Quoted(c) => ['\\', c]
    case Kept(c) => ['\\', c]
    case Continued => ['\\', '\n']
  }

  function InnerMeaning(p: Inner): string {
    match p
    case Raw(c) => [c]
    case Quoted(c) => [c]
    case Kept(c) => ['\\', c]
    case Continued => []
  }

  function PiecesSource(ps: seq<Piece>): string {
    if ps == [] then [] else PieceSource(ps[0]) + PiecesSource(ps[1..])
  }

  function PiecesMeaning(ps: seq<Piece>): string {
    if ps == [] then [] else PieceMeaning(ps[0]) + PiecesMeaning(ps[1..])
  }

  function InnersSource(ps: seq<Inner>): string {
    if ps == [] then [] else InnerSource(ps[0]) + InnersSource(ps[1..])
  }

  function InnersMeaning(ps: seq<Inner>): string {
    if ps == [] then [] else InnerMeaning(ps[0]) + InnersMeaning(ps[1..])
  }

  function EndingSource(e: Ending): string {
    match e
    case Bare => []
    case SingleQuoted(body) => "'" + body + "'"
    case DoubleQuoted(inners) => "\"" + InnersSource(inners) + "\""
  }

  function EndingMeaning(e: Ending): string {
    match e
    case Bare => []
    case SingleQuoted(body) => body
    case DoubleQuoted(inners) => InnersMeaning(inners)
  }

  /** A spelling of a word: pieces, then at most one quoted part, which ends the word. */
  datatype Spelling = Spelling(pieces: seq<Piece>, ending: Ending) {
    predicate Valid() {
      ValidPieces(pieces) && ValidEnding(ending)
    }

    function Source(): string {
      PiecesSource(pieces) + EndingSource(ending)
    }

    function Meaning(): string {
      PiecesMeaning(pieces) + EndingMeaning(ending)
    }
  }

  const QUOTE: char := '\''
  const CLOSES_SINGLE: string := "'"
  const CLOSES_DOUBLE: string := "\""

  /** w stands in s at position i. */
  predicate At(s: string, i: nat, w: string) {
    i + |w| <= |s| && s[i..i + |w|] == w
  }

  lemma AtSplit(s: string, i: nat, a: string, b: string)
    ensures At(s, i, a + b) <==> At(s, i, a) && At(s, i + |a|, b)
  {
    if At(s, i, a + b) {
      assert s[i..i + |a|] == (a + b)[..|a|];
      assert s[i + |a|..i + |a| + |b|] == (a + b)[|a|..];
    }
    if At(s, i, a) && At(s, i + |a|, b) {
      assert s[i..i + |a + b|] == s[i..i + |a|] + s[i + |a|..i + |a| + |b|];
    }
  }

  /** How a word without a quoted part ends: a blank is eaten, anything else is left. */
  predicate EndsBare(s: string, i: nat, next: nat) {
    i < |s| &&
    (if s[i] == ' ' || s[i] == '\t' || s[i] == '\r' then next == i + 1
     else (s[i] == '\n' || s[i] == '#' || s[i] == '&' || s[i] == '|' || s[i] == '>') && next == i)
  }

  /** The word `text` is spelled in s from i on, and the lexer goes on at `next`. */
  ghost predicate Spells(s: string, i: nat, sp: Spelling, text: string, next: nat) {
    && sp.Valid() && sp.Meaning() == text && At(s, i, sp.Source())
    && (if sp.ending.Bare? then text != "" && EndsBare(s, i + |sp.Source()|, next)
        else next == i + |sp.Source()|)
  }

  /** White space other than a newline: blank, tab, vertical tab, form feed, carriage return. */
  predicate White(c: char) {
    c == ' ' || c == '\t' || c == '\U{0B}' || c == '\U{0C}' || c == '\r'
  }

  /** Position j is behind the white space at i. */
  ghost predicate Behind(s: string, i: nat, j: nat) {
    i <= j <= |s| && (forall k :: i <= k < j ==> White(s[k])) && (j < |s| ==> !White(s[j]))
  }

  lemma {:induction false} BehindIs(s: string, i: nat, j: nat)
    requires i <= |s|
    ensures Behind(s, i, j) <==> j == SkipSpace(s, i)
    decreases |s| - i
  {
    if i < |s| && White(s[i]) {
      BehindIs(s, i + 1, j);
    }
  }

  // ---- one step ----

  /** The lexer reads one part of a double-quoted string as what it stands for. */
  lemma InnerStep(s: string, i: nat, p: Inner, text: string)
    requires ValidInner(p) && At(s, i, InnerSource(p))
    ensures Word(s, i, Double, text) == Word(s, i + |InnerSource(p)|, Double, text + InnerMeaning(p))
  {
    var w := s[i..i + |InnerSource(p)|];
    assert s[i] == w[0];
    if !p.Raw? {
      assert s[i + 1] == w[1];
    }
    assert text + [] == text;
    assert p.Kept? ==> text + ['\\'] + [p.c] == text + InnerMeaning(p);
  }

  lemma PieceStep(s: string, i: nat, p: Piece, text: string)
    requires ValidPiece(p) && At(s, i, PieceSource(p))
    ensures Word(s, i, NoQuote, text) == Word(s, i + |PieceSource(p)|, NoQuote, text + PieceMeaning(p))
  {
    var w := s[i..i + |PieceSource(p)|];
    assert s[i] == w[0];
    if !p.Plain? {
      assert s[i + 1] == w[1];
    }
    assert text + [] == text;
  }

  /** A part of a double-quoted string stands wherever the lexer goes on inside one. */
  lemma InnerAt(s: string, i: nat, text: string) returns (p: Inner)
    requires i <= |s| && Word(s, i, Double, text).Token? && s[i] != '"'
    ensures ValidInner(p) && At(s, i, InnerSource(p))
  {
    if s[i] == '\\' {
      var d := s[i + 1];
      p := if d == '\\' || d == '"' then Quoted(d) else if d == '\n' then Continued else Kept(d);
    } else {
      p := Raw(s[i]);
    }
  }

  lemma InnersCons(s: string, i: nat, p: Inner, rest: seq<Inner>, tail: string)
    ensures At(s, i, InnersSource([p] + rest) + tail)
      <==> At(s, i, InnerSource(p)) && At(s, i + |InnerSource(p)|, InnersSource(rest) + tail)
    ensures InnersMeaning([p] + rest) == InnerMeaning(p) + InnersMeaning(rest)
    ensures |InnersSource([p] + rest)| == |InnerSource(p)| + |InnersSource(rest)|
  {
    assert ([p] + rest)[1..] == rest;
    AtSplit(s, i, InnerSource(p), InnersSource(rest) + tail);
    assert InnersSource([p] + rest) + tail == InnerSource(p) + (InnersSource(rest) + tail);
  }

  lemma PiecesCons(s: string, i: nat, p: Piece, rest: seq<Piece>, tail: string)
    ensures At(s, i, PiecesSource([p] + rest) + tail)
      <==> At(s, i, PieceSource(p)) && At(s, i + |PieceSource(p)|, PiecesSource(rest) + tail)
    ensures PiecesMeaning([p] + rest) == PieceMeaning(p) + PiecesMeaning(rest)
    ensures |PiecesSource([p] + rest)| == |PieceSource(p)| + |PiecesSource(rest)|
  {
    assert ([p] + rest)[1..] == rest;
    AtSplit(s, i, PieceSource(p), PiecesSource(rest) + tail);
    assert PiecesSource([p] + rest) + tail == PieceSource(p) + (PiecesSource(rest) + tail);
  }

  // ---- every spelling is read as its meaning ----

  lemma {:induction false} ReadInners(s: string, i: nat, ps: seq<Inner>, text: string)
    requires At(s, i, InnersSource(ps) + CLOSES_DOUBLE) && ValidInners(ps)
    ensures Word(s, i, Double, text) == Token(Str, text + InnersMeaning(ps), i + |InnersSource(ps)| + 1)
    decreases |ps|
  {
    if ps == [] {
      assert s[i] == s[i..i + 1][0];
      assert text + [] == text;
    } else {
      var p, rest := ps[0], ps[1..];
      assert ps == [p] + rest;
      InnersCons(s, i, p, rest, "\"");
      InnerStep(s, i, p, text);
      ReadInners(s, i + |InnerSource(p)|, rest, text + InnerMeaning(p));
      assert text + InnersMeaning(ps) == text + InnerMeaning(p) + InnersMeaning(rest);
    }
  }

  lemma {:induction false} ReadSingle(s: string, i: nat, body: string, text: string)
    requires At(s, i, body + CLOSES_SINGLE) && QUOTE !in body
    ensures Word(s, i, Single, text) == Token(Str, text + body, i + |body| + 1)
    decreases |body|
  {
    AtSplit(s, i, body, "'");
    if body == "" {
      assert s[i..i + 1][0] == '\'';
      assert text + [] == text;
    } else {
      assert s[i] == s[i..i + |body|][0];
      assert s[i + 1..i + |body|] == s[i..i + |body|][1..];
      AtSplit(s, i + 1, body[1..], "'");
      ReadSingle(s, i + 1, body[1..], text + [body[0]]);
      assert text + [body[0]] + body[1..] == text + body;
    }
  }

  lemma ReadEnding(s: string, i: nat, e: Ending, text: string, next: nat)
    requires ValidEnding(e) && At(s, i, EndingSource(e))
    requires if e.Bare? then text != "" && EndsBare(s, i, next) else next == i + |EndingSource(e)|
    ensures Word(s, i, NoQuote, text) == Token(Str, text + EndingMeaning(e), next)
  {
    match e
    case Bare => assert text + [] == text;
    case SingleQuoted(body) =>
      AtSplit(s, i, "'", body + "'");
      assert "'" + (body + "'") == EndingSource(e);
      assert s[i] == s[i..i + 1][0];
      ReadSingle(s, i + 1, body, text);
    case DoubleQuoted(inners) =>
      AtSplit(s, i, "\"", InnersSource(inners) + "\"");
      assert "\"" + (InnersSource(inners) + "\"") == EndingSource(e);
      assert s[i] == s[i..i + 1][0];
      ReadInners(s, i + 1, inners, text);
  }

  lemma {:induction false} ReadPieces(s: string, i: nat, ps: seq<Piece>, e: Ending, text: string, next: nat)
    requires ValidPieces(ps) && ValidEnding(e)
    requires At(s, i, PiecesSource(ps) + EndingSource(e))
    requires var n := i + |PiecesSource(ps)|;
      if e.Bare? then text + PiecesMeaning(ps) != "" && EndsBare(s, n, next) else next == n + |EndingSource(e)|
    ensures Word(s, i, NoQuote, text) == Token(Str, text + PiecesMeaning(ps) + EndingMeaning(e), next)
    decreases |ps|
  {
    hide Word, EndsBare, ValidEnding, EndingSource, EndingMeaning, At;
    if ps == [] {
      assert text + [] == text;
      assert [] + EndingSource(e) == EndingSource(e);
      ReadEnding(s, i, e, text, next);
    } else {
      var p, rest := ps[0], ps[1..];
      assert ps == [p] + rest;
      PiecesCons(s, i, p, rest, EndingSource(e));
      PieceStep(s, i, p, text);
      assert text + PiecesMeaning(ps) == text + PieceMeaning(p) + PiecesMeaning(rest);
      ReadPieces(s, i + |PieceSource(p)|, rest, e, text + PieceMeaning(p), next);
    }
  }

  // ---- every word read has a spelling ----

  lemma InnersExtend(s: string, i: nat, p: Inner, rest: seq<Inner>, text: string, r: Lex)
    requires ValidInner(p) && ValidInners(rest) && At(s, i, InnerSource(p))
    requires var j := i + |InnerSource(p)|;
      && At(s, j, InnersSource(rest) + CLOSES_DOUBLE)
      && r == Token(Str, text + InnerMeaning(p) + InnersMeaning(rest), j + |InnersSource(rest)| + 1)
    ensures ValidInners([p] + rest) && At(s, i, InnersSource([p] + rest) + CLOSES_DOUBLE)
    ensures r == Token(Str, text + InnersMeaning([p] + rest), i + |InnersSource([p] + rest)| + 1)
  {
    InnersCons(s, i, p, rest, "\"");
    assert text + InnersMeaning([p] + rest) == text + InnerMeaning(p) + InnersMeaning(rest);
  }

  lemma {:induction false} InnersRead(s: string, i: nat, text: string, r: Lex) returns (ps: seq<Inner>)
    requires i <= |s| && r == Word(s, i, Double, text) && r.Token?
    ensures ValidInners(ps) && At(s, i, InnersSource(ps) + CLOSES_DOUBLE)
    ensures r == Token(Str, text + InnersMeaning(ps), i + |InnersSource(ps)| + 1)
    decreases |s| - i
  {
    if s[i] == '"' {
      ps := [];
      assert text + [] == text;
    } else {
      var p := InnerAt(s, i, text);
      InnerStep(s, i, p, text);
      var rest := InnersRead(s, i + |InnerSource(p)|, text + InnerMeaning(p), r);
      InnersExtend(s, i, p, rest, text, r);
      ps := [p] + rest;
    }
  }

  lemma {:induction false} SingleRead(s: string, i: nat, text: string) returns (body: string)
    requires i <= |s| && Word(s, i, Single, text).Token?
    ensures QUOTE !in body && At(s, i, body + CLOSES_SINGLE)
    ensures Word(s, i, Single, text) == Token(Str, text + body, i + |body| + 1)
    decreases |s| - i
  {
    if s[i] == '\'' {
      body := "";
      assert text + [] == text;
    } else {
      var rest := SingleRead(s, i + 1, text + [s[i]]);
      body := [s[i]] + rest;
      assert text + body == text + [s[i]] + rest;
      AtSplit(s, i, [s[i]], rest + "'");
      assert [s[i]] + (rest + "'") == body + "'";
    }
  }

  /** Where the lexer opens no quote and ends no word, a piece stands. */
  lemma PieceAt(s: string, i: nat, text: string) returns (p: Piece)
    requires i <= |s| && Word(s, i, NoQuote, text).Token? && !StopsPieces(s[i])
    ensures ValidPiece(p) && At(s, i, PieceSource(p))
  {
    if s[i] == '\\' {
      p := if s[i + 1] == '\n' then Joined else Escaped(s[i + 1]);
    } else {
      p := Plain(s[i]);
    }
  }

  predicate StopsPieces(c: char) {
    QuoteOf(c) != NoQuote || IsOperator(c) || IsBlank(c) || c == '\n' || c == '#'
  }

  lemma BareRead(s: string, i: nat, text: string, r: Lex)
    requires i <= |s| && r == Word(s, i, NoQuote, text) && r.Token? && r.kind.Str?
    requires StopsPieces(s[i]) && QuoteOf(s[i]) == NoQuote
    ensures r.text == text && text != "" && EndsBare(s, i, r.next)
  {
    if s[i] == '#' && text == "" { CommentBounds(s, i + 1); }
  }

  lemma QuoteOpens(s: string, i: nat, text: string)
    requires i <= |s| && Word(s, i, NoQuote, text).Token?
    ensures i < |s|
    ensures s[i] == '\'' ==> Word(s, i, NoQuote, text) == Word(s, i + 1, Single, text)
    ensures s[i] == '"' ==> Word(s, i, NoQuote, text) == Word(s, i + 1, Double, text)
  {
  }

  lemma EndingRead(s: string, i: nat, text: string, r: Lex) returns (e: Ending)
    requires i <= |s| && r == Word(s, i, NoQuote, text) && r.Token? && r.kind.Str?
    requires StopsPieces(s[i])
    ensures ValidEnding(e) && At(s, i, EndingSource(e))
    ensures r.text == text + EndingMeaning(e)
    ensures if e.Bare? then r.text != "" && EndsBare(s, i, r.next) else r.next == i + |EndingSource(e)|
  {
    hide Word;
    QuoteOpens(s, i, text);
    if s[i] == '\'' {
      var body := SingleRead(s, i + 1, text);
      e := SingleQuoted(body);
      AtSplit(s, i, "'", body + "'");
      assert "'" + (body + "'") == EndingSource(e);
    } else if s[i] == '"' {
      var inners := InnersRead(s, i + 1, text, r);
      e := DoubleQuoted(inners);
      AtSplit(s, i, "\"", InnersSource(inners) + "\"");
      assert "\"" + (InnersSource(inners) + "\"") == EndingSource(e);
    } else {
      e := Bare;
      assert text + [] == text;
      BareRead(s, i, text, r);
    }
  }

  /** r is the word that `text`, the pieces from i on and the ending make up. */
  predicate PiecesMake(s: string, i: nat, ps: seq<Piece>, e: Ending, text: string, r: Lex)
    requires r.Token?
  {
    && ValidPieces(ps) && ValidEnding(e) && At(s, i, PiecesSource(ps) + EndingSource(e))
    && r.text == text + PiecesMeaning(ps) + EndingMeaning(e)
    && var n := i + |PiecesSource(ps)|;
       if e.Bare? then r.text != "" && EndsBare(s, n, r.next) else r.next == n + |EndingSource(e)|
  }

  lemma PiecesExtend(s: string, i: nat, p: Piece, rest: seq<Piece>, e: Ending, text: string, r: Lex)
    requires r.Token? && ValidPiece(p) && At(s, i, PieceSource(p))
    requires PiecesMake(s, i + |PieceSource(p)|, rest, e, text + PieceMeaning(p), r)
    ensures PiecesMake(s, i, [p] + rest, e, text, r)
  {
    PiecesCons(s, i, p, rest, EndingSource(e));
    assert text + PiecesMeaning([p] + rest) == text + PieceMeaning(p) + PiecesMeaning(rest);
  }

  lemma {:induction false} PiecesRead(s: string, i: nat, text: string, r: Lex) returns (ps: seq<Piece>, e: Ending)
    requires i <= |s| && r == Word(s, i, NoQuote, text) && r.Token? && r.kind.Str?
    ensures PiecesMake(s, i, ps, e, text, r)
    decreases |s| - i
  {
    if StopsPieces(s[i]) {
      e := EndingRead(s, i, text, r);
      ps := [];
      assert [] + EndingSource(e) == EndingSource(e);
      assert text + [] == text;
    } else {
      var p := PieceAt(s, i, text);
      PieceStep(s, i, p, text);
      var rest, e' := PiecesRead(s, i + |PieceSource(p)|, text + PieceMeaning(p), r);
      PiecesExtend(s, i, p, rest, e', text, r);
      ps, e := [p] + rest, e';
    }
  }

  /** No spelling begins with a newline. */
  lemma NoNewlineFirst(s: string, i: nat, sp: Spelling, text: string, next: nat)
    requires Spells(s, i, sp, text, next)
    ensures i < |s| && s[i] != '\n'
  {
    var src := sp.Source();
    if sp.pieces == [] {
      assert src == EndingSource(sp.ending);
      assert !sp.ending.Bare?;
      assert s[i] == s[i..i + |src|][0];
    } else {
      var p := sp.pieces[0];
      assert ValidPiece(p);
      assert src[0] == PieceSource(p)[0];
      assert s[i] == s[i..i + |src|][0];
    }
  }

  lemma SpellingIsRead(s: string, i: nat, sp: Spelling, text: string, next: nat)
    requires Spells(s, i, sp, text, next)
    ensures i < |s| && s[i] != '\n' && Word(s, i, NoQuote, "") == Token(Str, text, next)
  {
    if sp.ending.Bare? {
      assert sp.Source() == PiecesSource(sp.pieces) && sp.Meaning() == PiecesMeaning(sp.pieces);
    }
    assert "" + PiecesMeaning(sp.pieces) == PiecesMeaning(sp.pieces);
    ReadPieces(s, i, sp.pieces, sp.ending, "", next);
    NoNewlineFirst(s, i, sp, text, next);
  }

  lemma WordIsSpelled(s: string, i: nat, text: string, next: nat) returns (sp: Spelling)
    requires i <= |s| && Word(s, i, NoQuote, "") == Token(Str, text, next)
    ensures Spells(s, i, sp, text, next)
  {
    var ps, e := PiecesRead(s, i, "", Token(Str, text, next));
    sp := Spelling(ps, e);
    assert "" + PiecesMeaning(ps) == PiecesMeaning(ps);
    assert e.Bare? ==> sp.Source() == PiecesSource(ps);
  }
}

// The first milestone's lexer (src/lexer.cpp, src/token.h) and its
// token-name table (src/token.cpp): numbers and `+ - * /` only, with
// line numbers but no columns.
module LegacyLexing {
  import opened Wrappers
  import Lexing

  datatype Kind = Number | Plus | Minus | Star | Slash | Eof | Error

  datatype Token = Token(kind: Kind, lexeme: string, line: nat)

  /** tokenName(): the printable name of each kind. */
  function TokenName(k: Kind): (name: string)
    ensures name != "UNKNOWN"
  {
    match k
    case Number => "NUMBER"
    case Plus => "PLUS"
    case Minus => "MINUS"
    case Star => "STAR"
    case Slash => "SLASH"
    case Eof => "EOF"
    case Error => "ERROR"
  }

  /** The seven names are pairwise distinct, so a name identifies its kind. */
  lemma TokenNamesDistinct(j: Kind, k: Kind)
    requires TokenName(j) == TokenName(k)
    ensures j == k
  {
  }

  /** The blanks scanToken() skips; `\r` is not one of them. */
  predicate IsBlank(c: char) { c == ' ' || c == '\t' || c == '\n' }

  /** The skip loop at the head of scanToken(): position and line after the blanks. */
  function SkipBlanks(src: string, pos: nat, line: nat): (r: (nat, nat))
    requires pos <= |src|
    ensures pos <= r.0 <= |src| && line <= r.1
    ensures r.0 == |src| || !IsBlank(src[r.0])
    decreases |src| - pos
  {
    if pos < |src| && IsBlank(src[pos]) then
      SkipBlanks(src, pos + 1, if src[pos] == '\n' then line + 1 else line)
    else (pos, line)
  }

  /**
   * number() as written: after the digit run, a '.' is checked together
   * with `source_[current_ + 1]`, which reads past the end of the source
   * when the '.' is its last character; that read is None here.
   */
  function NumberEndAsWritten(src: string, pos: nat): (r: Option<nat>)
    requires pos <= |src|
  {
    var e := Lexing.DigitRunEnd(src, pos);
    if e < |src| && src[e] == '.' then
      if e + 1 >= |src| then None
      else if Lexing.IsDigit(src[e + 1]) then Some(Lexing.DigitRunEnd(src, e + 1))
      else Some(e)
    else Some(e)
  }

  /** A source whose number ends in its last character '.' makes number() read past the end. */
  lemma DotAtEndReadsPastEnd(src: string)
    requires src == "1."
    ensures NumberEndAsWritten(src, 1) == None
  {
    assert Lexing.DigitRunEnd(src, 1) == 1;
  }

  /** The read past the end happens exactly when the digit run stops at a final '.'. */
  lemma ReadsPastEndExactly(src: string, pos: nat)
    requires pos <= |src|
    ensures NumberEndAsWritten(src, pos).None? <==>
      (Lexing.DigitRunEnd(src, pos) == |src| - 1 && src[|src| - 1] == '.')
  {
  }

  /**
   * Wherever number() as written stays inside the source, it ends where
   * the bounds-checked Lexing.NumberEnd ends; the bounds-checked version
   * is defined everywhere, and this model uses it.
   */
  lemma NumberEndAgrees(src: string, pos: nat)
    requires pos <= |src|
    ensures NumberEndAsWritten(src, pos).Some? ==> NumberEndAsWritten(src, pos).value == Lexing.NumberEnd(src, pos)
    ensures pos <= Lexing.NumberEnd(src, pos) <= |src|
  {
  }

  /**
   * scanToken() from `pos` on line `line`: the token, and the position and
   * line after it. At the end (after blanks) it yields Eof itself.
   */
  function Scan(src: string, pos: nat, line: nat): (r: (Token, nat, nat))
    requires pos < |src|
    ensures pos < r.1 <= |src|
    ensures r.0.kind != Eof ==> !IsBlank(src[r.1 - 1])
    ensures r.0.kind == Eof <==> SkipBlanks(src, pos, line).0 == |src|
  {
    var (p, l) := SkipBlanks(src, pos, line);
    if p == |src| then (Token(Eof, "", l), p, l)
    else
      var c := src[p];
      if Lexing.IsDigit(c) then
        var f := Lexing.NumberEnd(src, p + 1);
        NumberEndLastDigit(src, p + 1);
        (Token(Number, src[p..f], l), f, l)
      else if c == '+' then (Token(Plus, "+", l), p + 1, l)
      else if c == '-' then (Token(Minus, "-", l), p + 1, l)
      else if c == '*' then (Token(Star, "*", l), p + 1, l)
      else if c == '/' then (Token(Slash, "/", l), p + 1, l)
      else (Token(Error, [c], l), p + 1, l)
  }

  /** A number, with or without a fraction, ends in a digit. */
  lemma NumberEndLastDigit(src: string, pos: nat)
    requires 0 < pos <= |src| && Lexing.IsDigit(src[pos - 1])
    ensures Lexing.IsDigit(src[Lexing.NumberEnd(src, pos) - 1])
  {
    var e := Lexing.DigitRunEnd(src, pos);
    DigitRunLastDigit(src, pos);
    if Lexing.Peek(src, e) == '.' && Lexing.IsDigit(Lexing.PeekNext(src, e)) {
      assert Lexing.DigitRunEnd(src, e + 1) == Lexing.DigitRunEnd(src, e + 2);
      DigitRunLastDigit(src, e + 2);
    }
  }

  lemma {:induction false} DigitRunLastDigit(src: string, pos: nat)
    requires 0 < pos <= |src| && Lexing.IsDigit(src[pos - 1])
    ensures Lexing.IsDigit(src[Lexing.DigitRunEnd(src, pos) - 1])
    decreases |src| - pos
  {
    if pos < |src| && Lexing.IsDigit(src[pos]) { DigitRunLastDigit(src, pos + 1); }
  }

  /** tokenize(): scanToken() until the end, then one more Eof. */
  function Lexed(src: string, pos: nat, line: nat): (ts: seq<Token>)
    requires pos <= |src|
    decreases |src| - pos
  {
    if pos == |src| then [Token(Eof, "", line)]
    else
      var (t, p, l) := Scan(src, pos, line);
      [t] + Lexed(src, p, l)
  }

  function Tokenized(src: string): seq<Token>
  {
    Lexed(src, 0, 1)
  }

  /** The output always ends with Eof. */
  lemma {:induction false} LexedEndsWithEof(src: string, pos: nat, line: nat)
    requires pos <= |src|
    ensures |Lexed(src, pos, line)| >= 1 && Lexed(src, pos, line)[|Lexed(src, pos, line)| - 1].kind == Eof
    decreases |src| - pos
  {
    if pos < |src| {
      var (t, p, l) := Scan(src, pos, line);
      LexedEndsWithEof(src, p, l);
    }
  }

  /**
   * Trailing blanks give two Eof tokens: scanToken() skips them and returns
   * Eof, and tokenize() appends its own.
   */
  lemma {:induction false} TrailingBlankDoubleEof(src: string, pos: nat, line: nat)
    requires pos < |src| && IsBlank(src[|src| - 1])
    ensures var ts := Lexed(src, pos, line);
      |ts| >= 2 && ts[|ts| - 2].kind == Eof && ts[|ts| - 1].kind == Eof
    decreases |src| - pos
  {
    var (t, p, l) := Scan(src, pos, line);
    var rest := Lexed(src, p, l);
    assert Lexed(src, pos, line) == [t] + rest;
    if t.kind != Eof {
      TrailingBlankDoubleEof(src, p, l);
    }
  }

  /** Every character other than a digit, a blank or `+ - * /` is a one-character Error token. */
  lemma OthersAreErrors(src: string, pos: nat, line: nat)
    requires pos < |src| && SkipBlanks(src, pos, line) == (pos, line)
    requires var c := src[pos]; !Lexing.IsDigit(c) && c !in "+-*/"
    ensures Scan(src, pos, line) == (Token(Error, [src[pos]], line), pos + 1, line)
  {
  }

  /** `\r` and `(` are not known to this lexer. */
  lemma CarriageReturnIsError(src: string)
    requires src == "\r("
    ensures Tokenized(src) == [Token(Error, "\r", 1), Token(Error, "(", 1), Token(Eof, "", 1)]
  {
    assert Scan(src, 0, 1) == (Token(Error, "\r", 1), 1, 1);
    assert Scan(src, 1, 1) == (Token(Error, "(", 1), 2, 1);
    assert Lexed(src, 2, 1) == [Token(Eof, "", 1)];
    assert Lexed(src, 1, 1) == [Token(Error, "(", 1)] + Lexed(src, 2, 1);
    assert Lexed(src, 0, 1) == [Token(Error, "\r", 1)] + Lexed(src, 1, 1);
  }

  function NewlineCount(s: string): nat
  {
    if s == [] then 0 else (if s[0] == '\n' then 1 else 0) + NewlineCount(s[1..])
  }

  /** Skipping blanks adds one to the line for each newline passed over. */
  lemma {:induction false} SkipBlanksCountsLines(src: string, pos: nat, line: nat)
    requires pos <= |src|
    ensures SkipBlanks(src, pos, line).1 == line + NewlineCount(src[pos..SkipBlanks(src, pos, line).0])
    decreases |src| - pos
  {
    var (p, l) := SkipBlanks(src, pos, line);
    if pos < |src| && IsBlank(src[pos]) {
      SkipBlanksCountsLines(src, pos + 1, if src[pos] == '\n' then line + 1 else line);
      assert src[pos..p][1..] == src[pos + 1..p];
    } else {
      assert src[pos..p] == [];
    }
  }

  /** The lexer object: cursor fields advanced in place. */
  class Lexer {
    const source: string
    var current: nat
    var start: nat
    var line: nat

    ghost predicate Valid()
      reads this
    {
      start <= current <= |source|
    }

    constructor (source: string)
      ensures Valid() && this.source == source && current == 0 && line == 1
    {
      this.source := source;
      current, start, line := 0, 0, 1;
    }

    method Tokenize() returns (tokens: seq<Token>)
      requires Valid()
      modifies this`current, this`start, this`line
      ensures Valid()
      ensures tokens == Lexed(source, old(current), old(line))
    {
      tokens := [];
      while current < |source|
        invariant Valid()
        invariant tokens + Lexed(source, current, line) == Lexed(source, old(current), old(line))
        decreases |source| - current
      {
        start := current;
        ghost var (p, l) := (current, line);
        var t := ScanToken();
        assert tokens + [t] + Lexed(source, current, line) == Lexed(source, old(current), old(line)) by {
          assert Lexed(source, p, l) == [t] + Lexed(source, current, line);
          assert tokens + [t] + Lexed(source, current, line) == tokens + ([t] + Lexed(source, current, line));
        }
        tokens := tokens + [t];
      }
      tokens := tokens + [Token(Eof, "", line)];
    }

    /** scanToken(): blanks are walked with a local position, then one token is taken. */
    method ScanToken() returns (t: Token)
      requires Valid() && current < |source|
      modifies this`current, this`start, this`line
      ensures Valid()
      ensures (t, current, line) == Scan(source, old(current), old(line))
    {
      var pos, l := current, line;
      while pos < |source| && IsBlank(source[pos])
        invariant current <= pos <= |source|
        invariant SkipBlanks(source, pos, l) == SkipBlanks(source, current, line)
        decreases |source| - pos
      {
        if source[pos] == '\n' { l := l + 1; }
        pos := pos + 1;
      }
      current, line := pos, l;
      if current == |source| { return Token(Eof, "", line); }
      start := current;
      var c := source[current];
      current := current + 1;
      if Lexing.IsDigit(c) { t := Number(); return; }
      if c == '+' { return Token(Plus, "+", line); }
      if c == '-' { return Token(Minus, "-", line); }
      if c == '*' { return Token(Star, "*", line); }
      if c == '/' { return Token(Slash, "/", line); }
      assert source[start..start + 1] == [c];
      t := Token(Error, source[start..start + 1], line);
    }

    /** number(), with the fraction test bounds-checked. */
    method Number() returns (t: Token)
      requires Valid() && current == start + 1 && start < |source|
      modifies this`current
      ensures Valid() && current == Lexing.NumberEnd(source, start + 1)
      ensures t == Token(Kind.Number, source[start..current], line)
    {
      var pos := current;
      while pos < |source| && Lexing.IsDigit(source[pos])
        invariant current <= pos <= |source|
        invariant Lexing.DigitRunEnd(source, pos) == Lexing.DigitRunEnd(source, current)
        decreases |source| - pos
      {
        pos := pos + 1;
      }
      if pos + 1 < |source| && source[pos] == '.' && Lexing.IsDigit(source[pos + 1]) {
        pos := pos + 1;
        ghost var f := pos;
        while pos < |source| && Lexing.IsDigit(source[pos])
          invariant f <= pos <= |source|
          invariant Lexing.DigitRunEnd(source, pos) == Lexing.DigitRunEnd(source, f)
          decreases |source| - pos
        {
          pos := pos + 1;
        }
      }
      current := pos;
      t := Token(Kind.Number, source[start..current], line);
    }
  }
}

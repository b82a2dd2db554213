// The character-cursor scanner of src/lexer/lexer.cpp: specification
// functions over a cursor (position, line, column) and the Lexer class,
// whose methods advance the same cursor fields in place.
module Lexing {
  import opened Wrappers
  import opened Tokens
  import Text

  /** Where the scanner stands: index into the source, line and column. */
  datatype Cursor = Cursor(pos: nat, line: nat, column: nat)

  /** Line and column the scanner starts at (src/lexer/lexer.h is not part of this model). */
  const StartLine: nat := 1
  const StartColumn: nat := 1

  predicate IsDigit(c: char) { Text.IsDigit(c) }
  predicate IsAlpha(c: char) { 'a' <= c <= 'z' || 'A' <= c <= 'Z' || c == '_' }
  predicate IsAlphaNumeric(c: char) { IsAlpha(c) || IsDigit(c) }

  /** peek(): the current character, or NUL at the end. */
  function Peek(src: string, pos: nat): char { if pos < |src| then src[pos] else '\0' }

  /** peekNext(): the character after the current one, or NUL past the end. */
  function PeekNext(src: string, pos: nat): char { if pos + 1 < |src| then src[pos + 1] else '\0' }

  /** advance(): one character further, one column further. */
  function Step(c: Cursor): Cursor { Cursor(c.pos + 1, c.line, c.column + 1) }

  /** Stepping over a newline: next line, and column 0 that advance() makes 1. */
  function NewLine(c: Cursor): Cursor { Cursor(c.pos + 1, c.line + 1, 1) }

  function NewlineCount(s: string): nat
  {
    if s == [] then 0 else NewlineCount(s[..|s| - 1]) + (if s[|s| - 1] == '\n' then 1 else 0)
  }

  /** A `//` comment runs up to, not including, the next newline. */
  function CommentEnd(src: string, c: Cursor): (d: Cursor)
    requires c.pos <= |src|
    ensures c.pos <= d.pos <= |src| && d.line == c.line && d.column == c.column + (d.pos - c.pos)
    ensures d.pos == |src| || src[d.pos] == '\n'
    ensures c.pos < |src| && src[c.pos] != '\n' ==> c.pos < d.pos
    decreases |src| - c.pos
  {
    if c.pos < |src| && src[c.pos] != '\n' then CommentEnd(src, Step(c)) else c
  }

  /** What skipWhitespace leaves: blanks, newlines and comments stepped over. */
  function Skipped(src: string, c: Cursor): (d: Cursor)
    requires c.pos <= |src|
    ensures c.pos <= d.pos <= |src|
    decreases |src| - c.pos
  {
    if c.pos == |src| then c
    else
      var ch := src[c.pos];
      if ch == ' ' || ch == '\r' || ch == '\t' then Skipped(src, Step(c))
      else if ch == '\n' then Skipped(src, NewLine(c))
      else if ch == '/' && PeekNext(src, c.pos) == '/' then Skipped(src, CommentEnd(src, c))
      else c
  }

  /** Skipping counts one line per newline stepped over, comments included. */
  lemma {:induction false} SkippedCountsLines(src: string, c: Cursor)
    requires c.pos <= |src|
    ensures Skipped(src, c).line == c.line + NewlineCount(src[c.pos..Skipped(src, c).pos])
    decreases |src| - c.pos
  {
    var d := Skipped(src, c);
    if c.pos == |src| {
      assert src[c.pos..c.pos] == [];
    } else {
      var ch := src[c.pos];
      if ch == ' ' || ch == '\r' || ch == '\t' {
        SkippedCountsLines(src, Step(c));
        NewlineCountStep(src, c.pos, d.pos);
      } else if ch == '\n' {
        SkippedCountsLines(src, NewLine(c));
        NewlineCountStep(src, c.pos, d.pos);
      } else if ch == '/' && PeekNext(src, c.pos) == '/' {
        var e := CommentEnd(src, c);
        SkippedCountsLines(src, e);
        CommentHasNoNewline(src, c);
        NewlineCountNone(src, c.pos, e.pos);
        NewlineCountSplit(src, c.pos, e.pos, d.pos);
      } else {
        assert src[c.pos..c.pos] == [];
      }
    }
  }

  lemma {:induction false} NewlineCountSplit(src: string, i: nat, j: nat, k: nat)
    requires i <= j <= k <= |src|
    ensures NewlineCount(src[i..k]) == NewlineCount(src[i..j]) + NewlineCount(src[j..k])
    decreases k - j
  {
    if k == j {
      assert src[j..k] == [];
      assert src[i..k] == src[i..j];
    } else {
      NewlineCountSplit(src, i, j, k - 1);
      assert src[i..k][..k - i - 1] == src[i..k - 1];
      assert src[j..k][..k - j - 1] == src[j..k - 1];
    }
  }

  lemma NewlineCountStep(src: string, i: nat, k: nat)
    requires i < k <= |src|
    ensures NewlineCount(src[i..k]) == (if src[i] == '\n' then 1 else 0) + NewlineCount(src[i + 1..k])
  {
    NewlineCountSplit(src, i, i + 1, k);
    assert src[i..i + 1][..0] == [];
  }

  lemma {:induction false} NewlineCountNone(src: string, i: nat, j: nat)
    requires i <= j <= |src|
    requires forall p :: i <= p < j ==> src[p] != '\n'
    ensures NewlineCount(src[i..j]) == 0
    decreases j - i
  {
    if i < j {
      NewlineCountNone(src, i, j - 1);
      assert src[i..j][..j - i - 1] == src[i..j - 1];
    } else {
      assert src[i..j] == [];
    }
  }

  lemma {:induction false} CommentHasNoNewline(src: string, c: Cursor)
    requires c.pos <= |src|
    ensures forall i :: c.pos <= i < CommentEnd(src, c).pos ==> src[i] != '\n'
    decreases |src| - c.pos
  {
    if c.pos < |src| && src[c.pos] != '\n' { CommentHasNoNewline(src, Step(c)); }
  }

  /** End of a run of digits starting at pos. */
  function DigitRunEnd(src: string, pos: nat): (e: nat)
    requires pos <= |src|
    ensures pos <= e <= |src|
    ensures e == |src| || !IsDigit(src[e])
    decreases |src| - pos
  {
    if pos < |src| && IsDigit(src[pos]) then DigitRunEnd(src, pos + 1) else pos
  }

  /** End of a run of letters, digits and underscores starting at pos. */
  function WordEnd(src: string, pos: nat): (e: nat)
    requires pos <= |src|
    ensures pos <= e <= |src|
    ensures e == |src| || !IsAlphaNumeric(src[e])
    decreases |src| - pos
  {
    if pos < |src| && IsAlphaNumeric(src[pos]) then WordEnd(src, pos + 1) else pos
  }

  /** The cursor n characters further along the same line. */
  function Forward(c: Cursor, e: nat): Cursor
    requires c.pos <= e
  {
    Cursor(e, c.line, c.column + (e - c.pos))
  }

  /** Token text for the current token: a lexeme with no decoded string value. */
  function Make(kind: TokenType, lexeme: string, at: Cursor): Token
  {
    Token(kind, lexeme, at.line, at.column, "")
  }

  /**
   * Where number() stops, given the position after the first digit: the
   * digit run, and a fraction only when a '.' is followed by a digit.
   */
  function NumberEnd(src: string, pos: nat): (f: nat)
    requires pos <= |src|
    ensures pos <= f <= |src|
  {
    var e := DigitRunEnd(src, pos);
    if Peek(src, e) == '.' && IsDigit(PeekNext(src, e)) then DigitRunEnd(src, e + 1) else e
  }

  /** number(), the first digit at `at`. */
  function NumberToken(src: string, at: Cursor): (r: (Token, Cursor))
    requires at.pos < |src|
  {
    var f := NumberEnd(src, at.pos + 1);
    (Make(Number, src[at.pos..f], at), Forward(at, f))
  }

  /** identifier(), the first letter at `at`: a keyword kind or Identifier. */
  function WordToken(src: string, at: Cursor): (r: (Token, Cursor))
    requires at.pos < |src|
  {
    var e := WordEnd(src, at.pos + 1);
    (Make(WordKind(src[at.pos..e]), src[at.pos..e], at), Forward(at, e))
  }

  /** The decoded text of the escape `\ch`. */
  function Escape(ch: char): string
  {
    match ch
    case 'n' => "\n"
    case 't' => "\t"
    case 'r' => "\r"
    case '\\' => "\\"
    case '"' => "\""
    case '0' => "\0"
    case _ => ['\\', ch]
  }

  /**
   * The body loop of string(): scans to the closing quote or the end,
   * decoding escapes into `acc` and counting lines.
   */
  function StringBody(src: string, c: Cursor, acc: string): (r: (Cursor, string))
    requires c.pos <= |src|
    ensures c.pos <= r.0.pos <= |src|
    ensures r.0.pos == |src| || src[r.0.pos] == '"'
    decreases |src| - c.pos
  {
    if c.pos == |src| || src[c.pos] == '"' then (c, acc)
    else if src[c.pos] == '\\' then
      var b := Step(c);
      if b.pos == |src| then (b, acc)
      else StringBody(src, Step(b), acc + Escape(src[b.pos]))
    else if src[c.pos] == '\n' then StringBody(src, NewLine(c), acc + ['\n'])
    else StringBody(src, Step(c), acc + [src[c.pos]])
  }

  /** string(), the opening quote at `at`. */
  function StringToken(src: string, at: Cursor): (r: (Token, Cursor))
    requires at.pos < |src|
  {
    var (e, text) := StringBody(src, Step(at), "");
    if e.pos == |src| then (Token(Error, "Unterminated string", e.line, at.column, ""), e)
    else (Token(String, src[at.pos..e.pos + 1], e.line, at.column, text), Step(e))
  }

  /**
   * The switch of scanToken() over punctuation and operators: the kind
   * and width of the token starting with `ch` when `next` follows it. A
   * second character is taken when it completes an operator, `++` before
   * `+=` and `--` before `-=`; a character that starts no token (a lone
   * `&` or `|` among them) gives Error.
   */
  function OperatorKind(ch: char, next: char): (r: (TokenType, nat))
  {
    match ch
    case '(' => (LeftParen, 1)
    case ')' => (RightParen, 1)
    case '{' => (LeftBrace, 1)
    case '}' => (RightBrace, 1)
    case ';' => (Semicolon, 1)
    case ',' => (Comma, 1)
    case '?' => (Question, 1)
    case ':' => (Colon, 1)
    case '%' => (Percent, 1)
    case '[' => (LeftBracket, 1)
    case ']' => (RightBracket, 1)
    case '.' => (Dot, 1)
    case '+' => if next == '+' then (PlusPlus, 2) else if next == '=' then (PlusEqual, 2) else (Plus, 1)
    case '-' => if next == '-' then (MinusMinus, 2) else if next == '=' then (MinusEqual, 2) else (Minus, 1)
    case '*' => if next == '=' then (StarEqual, 2) else (Star, 1)
    case '/' => if next == '=' then (SlashEqual, 2) else (Slash, 1)
    case '=' => if next == '=' then (EqualEqual, 2) else (Equal, 1)
    case '!' => if next == '=' then (BangEqual, 2) else (Bang, 1)
    case '<' => if next == '=' then (LessEqual, 2) else (Less, 1)
    case '>' => if next == '=' then (GreaterEqual, 2) else (Greater, 1)
    case '&' => if next == '&' then (And, 2) else (Error, 1)
    case '|' => if next == '|' then (Or, 2) else (Error, 1)
    case _ => (Error, 1)
  }

  /** The operator and punctuation part of scanToken(). */
  function OperatorToken(src: string, at: Cursor): (r: (Token, Cursor))
    requires at.pos < |src|
  {
    var ch := src[at.pos];
    var next := Peek(src, at.pos + 1);
    var (kind, width) := OperatorKind(ch, next);
    if width == 2 then (Make(kind, [ch, next], at), Forward(at, at.pos + 2))
    else (Make(kind, [ch], at), Step(at))
  }

  /** scanToken() at a cursor inside the source: the token, and the cursor after it. */
  function Scanned(src: string, at: Cursor): (r: (Token, Cursor))
    requires at.pos < |src|
  {
    var ch := src[at.pos];
    if IsDigit(ch) then NumberToken(src, at)
    else if IsAlpha(ch) then WordToken(src, at)
    else if ch == '"' then StringToken(src, at)
    else OperatorToken(src, at)
  }

  /** The scanner always moves forward, stays inside the source and never produces Eof. */
  lemma ScannedAdvances(src: string, at: Cursor)
    requires at.pos < |src|
    ensures at.pos < Scanned(src, at).1.pos <= |src|
    ensures Scanned(src, at).0.kind != Eof
  {
    var ch := src[at.pos];
    if IsDigit(ch) {
      assert Scanned(src, at) == NumberToken(src, at);
    } else if IsAlpha(ch) {
      assert Scanned(src, at) == WordToken(src, at);
      WordKindIsWord(src[at.pos..WordEnd(src, at.pos + 1)]);
    } else if ch == '"' {
      assert Scanned(src, at) == StringToken(src, at);
    } else {
      assert Scanned(src, at) == OperatorToken(src, at);
      OperatorTokenAdvances(src, at);
    }
  }

  lemma OperatorTokenAdvances(src: string, at: Cursor)
    requires at.pos < |src|
    ensures at.pos < OperatorToken(src, at).1.pos <= |src|
    ensures OperatorToken(src, at).0.kind != Eof
  {
    OperatorKindShape(src[at.pos], Peek(src, at.pos + 1));
  }

  /** An operator token is one or two characters wide, and two only when a real second character completes it. */
  lemma OperatorKindShape(ch: char, next: char)
    ensures OperatorKind(ch, next).0 != Eof
    ensures OperatorKind(ch, next).1 == 1 || OperatorKind(ch, next).1 == 2
    ensures OperatorKind(ch, next).1 == 2 ==> next != '\0'
  {
  }

  /**
   * tokenize() from a cursor: blanks skipped, one token scanned, repeated
   * until the end, then one Eof at the final line and column.
   */
  function Lexed(src: string, c: Cursor): (ts: seq<Token>)
    requires c.pos <= |src|
    decreases |src| - c.pos
  {
    var d := Skipped(src, c);
    if d.pos == |src| then [Token(Eof, "", d.line, d.column, "")]
    else
      ScannedAdvances(src, d);
      [Scanned(src, d).0] + Lexed(src, Scanned(src, d).1)
  }

  /** The token sequence of a whole source text. */
  function Tokenized(src: string): seq<Token>
  {
    Lexed(src, Cursor(0, StartLine, StartColumn))
  }

  class Lexer {
    const source: string
    var current: nat
    var start: nat
    var line: nat
    var column: nat
    var startColumn: nat

    ghost predicate Valid()
      reads this
    {
      start <= current <= |source|
    }

    function Cur(): Cursor
      reads this
    {
      Cursor(current, line, column)
    }

    constructor (source: string)
      ensures Valid() && this.source == source && Cur() == Cursor(0, StartLine, StartColumn)
    {
      this.source := source;
      current, start := 0, 0;
      line, column, startColumn := StartLine, StartColumn, StartColumn;
    }

    /** A token of the given kind starting at the current token's start. */
    function MakeToken(kind: TokenType, lexeme: string): Token
      reads this
    {
      Token(kind, lexeme, line, startColumn, "")
    }

    function IsAtEnd(): bool
      reads this
    {
      current >= |source|
    }

    method Advance() returns (ch: char)
      requires current < |source|
      modifies this`current, this`column
      ensures current == old(current) + 1 && column == old(column) + 1
      ensures ch == source[old(current)]
    {
      column := column + 1;
      ch := source[current];
      current := current + 1;
    }

    method Match(expected: char) returns (matched: bool)
      requires Valid()
      modifies this`current, this`column
      ensures Valid()
      ensures matched == (old(current) < |source| && source[old(current)] == expected)
      ensures Cur() == if matched then Step(old(Cur())) else old(Cur())
    {
      if IsAtEnd() { return false; }
      if source[current] != expected { return false; }
      current := current + 1;
      column := column + 1;
      return true;
    }

    /** Moves the scanner's position, line and column to the cursor `c`. */
    method MoveTo(c: Cursor)
      requires start <= c.pos <= |source|
      modifies this`current, this`line, this`column
      ensures Valid() && Cur() == c
    {
      current, line, column := c.pos, c.line, c.column;
    }

    method Tokenize() returns (tokens: seq<Token>)
      requires Valid()
      modifies this
      ensures Valid()
      ensures tokens == Lexed(source, old(Cur()))
    {
      tokens := [];
      while !IsAtEnd()
        invariant Valid()
        invariant tokens + Lexed(source, Cur()) == Lexed(source, old(Cur()))
        decreases |source| - current
      {
        ghost var before := Cur();
        SkipWhitespace();
        assert Lexed(source, before) == Lexed(source, Cur()) by {
          SkippedIdempotent(source, before);
        }
        if IsAtEnd() { break; }
        ghost var at := Cur();
        start := current;
        startColumn := column;
        var t := ScanToken();
        assert tokens + [t] + Lexed(source, Cur()) == Lexed(source, old(Cur())) by {
          SkippedIdempotent(source, before);
          LexedAtToken(source, at);
          AppendOne(tokens, t, Lexed(source, Cur()));
        }
        tokens := tokens + [t];
      }
      LexedAtEnd(source, Cur());
      tokens := tokens + [Token(Eof, "", line, column, "")];
    }

    /** skipWhitespace(): blanks, newlines and line comments, walked with a local cursor. */
    method SkipWhitespace()
      requires Valid()
      modifies this`current, this`line, this`column
      ensures Valid() && old(current) <= current
      ensures Cur() == Skipped(source, old(Cur()))
    {
      var c := Cur();
      while c.pos < |source|
        invariant start <= c.pos <= |source|
        invariant Skipped(source, c) == Skipped(source, Cur())
        decreases |source| - c.pos
      {
        var ch := source[c.pos];
        if ch == ' ' || ch == '\r' || ch == '\t' {
          c := Step(c);
        } else if ch == '\n' {
          c := NewLine(c);
        } else if ch == '/' && PeekNext(source, c.pos) == '/' {
          ghost var at := c;
          while Peek(source, c.pos) != '\n' && c.pos < |source|
            invariant at.pos <= c.pos <= |source|
            invariant CommentEnd(source, c) == CommentEnd(source, at)
            decreases |source| - c.pos
          {
            c := Step(c);
          }
        } else {
          break;
        }
      }
      MoveTo(c);
    }

    /** scanToken(): one token from the current character on. */
    method ScanToken() returns (t: Token)
      requires Valid() && current < |source|
      modifies this
      ensures Valid() && old(current) < current
      ensures t == Scanned(source, old(Cur())).0 && Cur() == Scanned(source, old(Cur())).1
    {
      start := current;
      startColumn := column;
      var c := Advance();
      if IsDigit(c) { t := ScanNumber(); return; }
      if IsAlpha(c) { t := ScanIdentifier(); return; }
      if c == '"' { t := ScanString(); return; }
      var (kind, width) := OperatorKind(c, Peek(source, current));
      if width == 2 {
        var _ := Advance();
      }
      t := MakeToken(kind, source[start..current]);
    }

    /** number(): the rest of a number whose first digit was just consumed. */
    method ScanNumber() returns (t: Token)
      requires Valid() && current == start + 1 && start < |source| && column == startColumn + 1
      modifies this`current, this`column
      ensures Valid()
      ensures t == NumberToken(source, Cursor(start, line, startColumn)).0
      ensures Cur() == NumberToken(source, Cursor(start, line, startColumn)).1
    {
      var pos := current;
      while IsDigit(Peek(source, pos))
        invariant current <= pos <= |source|
        invariant DigitRunEnd(source, pos) == DigitRunEnd(source, current)
        decreases |source| - pos
      {
        pos := pos + 1;
      }
      if Peek(source, pos) == '.' && IsDigit(PeekNext(source, pos)) {
        pos := pos + 1;
        ghost var f := pos;
        while IsDigit(Peek(source, pos))
          invariant f <= pos <= |source|
          invariant DigitRunEnd(source, pos) == DigitRunEnd(source, f)
          decreases |source| - pos
        {
          pos := pos + 1;
        }
      }
      column := column + (pos - current);
      current := pos;
      t := MakeToken(Number, source[start..current]);
    }

    /** identifier(): the rest of a word whose first letter was just consumed. */
    method ScanIdentifier() returns (t: Token)
      requires Valid() && current == start + 1 && start < |source| && column == startColumn + 1
      modifies this`current, this`column
      ensures Valid()
      ensures t == WordToken(source, Cursor(start, line, startColumn)).0
      ensures Cur() == WordToken(source, Cursor(start, line, startColumn)).1
    {
      var pos := current;
      while IsAlphaNumeric(Peek(source, pos))
        invariant current <= pos <= |source|
        invariant WordEnd(source, pos) == WordEnd(source, current)
        decreases |source| - pos
      {
        pos := pos + 1;
      }
      column := column + (pos - current);
      current := pos;
      var text := source[start..current];
      t := MakeToken(WordKind(text), text);
    }

    /** string(): the rest of a string literal whose opening quote was just consumed. */
    method ScanString() returns (t: Token)
      requires Valid() && current == start + 1 && start < |source| && column == startColumn + 1
      modifies this`current, this`column, this`line
      ensures Valid()
      ensures t == StringToken(source, Cursor(start, old(line), startColumn)).0
      ensures Cur() == StringToken(source, Cursor(start, old(line), startColumn)).1
    {
      var c := Cur();
      var processed := "";
      while Peek(source, c.pos) != '"' && c.pos < |source|
        invariant current <= c.pos <= |source|
        invariant StringBody(source, c, processed) == StringBody(source, Cur(), "")
        decreases |source| - c.pos
      {
        if source[c.pos] == '\\' {
          c := Step(c);
          if c.pos < |source| {
            var escaped := source[c.pos];
            c := Step(c);
            processed := processed + Escape(escaped);
          }
        } else if source[c.pos] == '\n' {
          processed := processed + ['\n'];
          c := NewLine(c);
        } else {
          processed := processed + [source[c.pos]];
          c := Step(c);
        }
      }
      MoveTo(c);
      if IsAtEnd() {
        return Token(Error, "Unterminated string", line, startColumn, "");
      }
      var _ := Advance();
      t := Token(String, source[start..current], line, startColumn, processed);
    }
  }

  lemma AppendOne<T>(a: seq<T>, t: T, b: seq<T>)
    ensures (a + [t]) + b == a + ([t] + b)
  {
  }

  /** At a token start, tokenize() emits the scanned token and goes on after it. */
  lemma LexedAtToken(src: string, d: Cursor)
    requires d.pos < |src| && Skipped(src, d) == d
    ensures Lexed(src, d) == [Scanned(src, d).0] + Lexed(src, Scanned(src, d).1)
  {
  }

  /** At the end of the source, tokenize() emits only Eof at the current line and column. */
  lemma LexedAtEnd(src: string, d: Cursor)
    requires d.pos == |src|
    ensures Lexed(src, d) == [Token(Eof, "", d.line, d.column, "")]
  {
  }

  /** Skipping is idempotent, so a token sequence does not depend on blanks already skipped. */
  lemma {:induction false} SkippedIdempotent(src: string, c: Cursor)
    requires c.pos <= |src|
    ensures Skipped(src, Skipped(src, c)) == Skipped(src, c)
    ensures Lexed(src, Skipped(src, c)) == Lexed(src, c)
    decreases |src| - c.pos
  {
    if c.pos < |src| {
      var ch := src[c.pos];
      if ch == ' ' || ch == '\r' || ch == '\t' {
        SkippedIdempotent(src, Step(c));
      } else if ch == '\n' {
        SkippedIdempotent(src, NewLine(c));
      } else if ch == '/' && PeekNext(src, c.pos) == '/' {
        SkippedIdempotent(src, CommentEnd(src, c));
      }
    }
  }
}

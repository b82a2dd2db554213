// What the scanner of src/lexer/lexer.cpp guarantees about the token
// sequence it produces, stated over the specification functions of Lexing.
module LexerFacts {
  import opened Tokens
  import opened Lexing
  import Text

  /** The kinds of a token sequence, in order. */
  function Kinds(ts: seq<Token>): (ks: seq<TokenType>)
    ensures |ks| == |ts| && forall i :: 0 <= i < |ts| ==> ks[i] == ts[i].kind
  {
    if ts == [] then [] else [ts[0].kind] + Kinds(ts[1..])
  }

  /** tokenize() ends with Eof, and Eof occurs nowhere before the end. */
  lemma {:induction false} LexedEofOnce(src: string, c: Cursor)
    requires c.pos <= |src|
    ensures |Lexed(src, c)| >= 1
    ensures Lexed(src, c)[|Lexed(src, c)| - 1].kind == Eof
    ensures forall i :: 0 <= i < |Lexed(src, c)| - 1 ==> Lexed(src, c)[i].kind != Eof
    decreases |src| - c.pos
  {
    var d := Skipped(src, c);
    if d.pos < |src| {
      ScannedAdvances(src, d);
      var e := Scanned(src, d).1;
      LexedEofOnce(src, e);
      var rest := Lexed(src, e);
      assert Lexed(src, c) == [Scanned(src, d).0] + rest;
    }
  }

  lemma TokenizedEofOnce(src: string)
    ensures |Tokenized(src)| >= 1 && Tokenized(src)[|Tokenized(src)| - 1].kind == Eof
    ensures forall i :: 0 <= i < |Tokenized(src)| - 1 ==> Tokenized(src)[i].kind != Eof
  {
    LexedEofOnce(src, Cursor(0, StartLine, StartColumn));
  }

  /**
   * A character that begins no token: not a digit, letter, `_` or quote,
   * not one of the operator and punctuation characters, or an `&` or `|`
   * not doubled.
   */
  predicate Unrecognised(src: string, pos: nat)
    requires pos < |src|
  {
    var ch := src[pos];
    var next := Peek(src, pos + 1);
    !IsDigit(ch) && !IsAlpha(ch) && ch != '"' &&
    ((ch == '&' && next != '&') || (ch == '|' && next != '|') ||
     ch !in "(){};,?:%[].+-*/=!<>&|")
  }

  /**
   * Lexing never aborts: an unrecognised character becomes a one-character
   * Error token and scanning goes on right after it.
   */
  lemma UnrecognisedIsError(src: string, at: Cursor)
    requires at.pos < |src| && Unrecognised(src, at.pos)
    ensures Scanned(src, at) == (Token(Error, [src[at.pos]], at.line, at.column, ""), Step(at))
  {
  }

  /** `+` followed by `+` is `++` whatever comes next: `++` is tried before `+=`. */
  lemma GreedyIncrement(src: string, at: Cursor)
    requires at.pos + 1 < |src| && src[at.pos] == '+' && src[at.pos + 1] == '+'
    ensures Scanned(src, at) == (Token(PlusPlus, "++", at.line, at.column, ""), Forward(at, at.pos + 2))
  {
  }

  lemma GreedyDecrement(src: string, at: Cursor)
    requires at.pos + 1 < |src| && src[at.pos] == '-' && src[at.pos + 1] == '-'
    ensures Scanned(src, at) == (Token(MinusMinus, "--", at.line, at.column, ""), Forward(at, at.pos + 2))
  {
  }

  /** One step of tokenize() at a token start, stated without unfolding the scanner. */
  lemma LexedStep(src: string, c: Cursor, t: Token, e: Cursor)
    requires c.pos < |src| && Skipped(src, c) == c && Scanned(src, c) == (t, e)
    ensures Lexed(src, c) == [t] + Lexed(src, e)
  {
    LexedAtToken(src, c);
  }

  /** `+++` lexes as `++` then `+`. */
  lemma TriplePlus(src: string)
    requires src == "+++"
    ensures Tokenized(src) == [Token(PlusPlus, "++", 1, 1, ""), Token(Plus, "+", 1, 3, ""), Token(Eof, "", 1, 4, "")]
  {
    var c0, c2, c3 := Cursor(0, 1, 1), Cursor(2, 1, 3), Cursor(3, 1, 4);
    GreedyIncrement(src, c0);
    LexedStep(src, c0, Token(PlusPlus, "++", 1, 1, ""), c2);
    assert Scanned(src, c2) == (Token(Plus, "+", 1, 3, ""), c3);
    LexedStep(src, c2, Token(Plus, "+", 1, 3, ""), c3);
    LexedAtEnd(src, c3);
  }

  /**
   * A word is a keyword kind exactly when it is one of the table's
   * entries, and then it has that entry's kind; otherwise it is an
   * Identifier.
   */
  lemma WordKindKeyword(text: string)
    ensures WordKind(text) != Identifier <==> exists i :: 0 <= i < |KeywordTable| && KeywordTable[i].0 == text
    ensures WordKind(text) != Identifier ==> exists i :: 0 <= i < |KeywordTable| && KeywordTable[i] == (text, WordKind(text))
    ensures WordKind(text) != Identifier ==> IsKeywordKind(WordKind(text))
  {
    KeywordKindsAreKeywords();
  }

  lemma {:induction false} WordEndAllAlphaNumeric(src: string, pos: nat)
    requires pos <= |src|
    ensures forall i :: pos <= i < WordEnd(src, pos) ==> IsAlphaNumeric(src[i])
    decreases |src| - pos
  {
    if pos < |src| && IsAlphaNumeric(src[pos]) { WordEndAllAlphaNumeric(src, pos + 1); }
  }

  /**
   * identifier() takes the longest run of letters, digits and `_` and gives
   * it its keyword kind or Identifier.
   */
  lemma WordTokenMaximal(src: string, at: Cursor)
    requires at.pos < |src| && IsAlpha(src[at.pos])
    ensures var (t, e) := Scanned(src, at);
      t.lexeme == src[at.pos..e.pos] && t.kind == WordKind(t.lexeme) &&
      (forall i :: at.pos <= i < e.pos ==> IsAlphaNumeric(src[i])) &&
      (e.pos == |src| || !IsAlphaNumeric(src[e.pos]))
  {
    assert !IsDigit(src[at.pos]);
    assert Scanned(src, at) == WordToken(src, at);
    WordEndAllAlphaNumeric(src, at.pos + 1);
  }

  lemma {:induction false} DigitRunAllDigits(src: string, pos: nat)
    requires pos <= |src|
    ensures forall i :: pos <= i < DigitRunEnd(src, pos) ==> IsDigit(src[i])
    decreases |src| - pos
  {
    if pos < |src| && IsDigit(src[pos]) { DigitRunAllDigits(src, pos + 1); }
  }

  /**
   * A number token is a maximal digit run with a fraction only when a `.`
   * is followed by a digit; its text always reads as a decimal numeral.
   */
  lemma NumberTokenShape(src: string, at: Cursor)
    requires at.pos < |src| && IsDigit(src[at.pos])
    ensures var (t, e) := Scanned(src, at);
      t.kind == Number && t.lexeme == src[at.pos..e.pos] &&
      (e.pos == |src| || !IsDigit(src[e.pos])) &&
      Text.DecimalValue(t.lexeme).Some?
  {
    assert Scanned(src, at) == NumberToken(src, at);
    NumberTextHasValue(src, at.pos);
  }

  /** The text number() takes from a leading digit reads as a decimal numeral. */
  lemma NumberTextHasValue(src: string, p: nat)
    requires p < |src| && IsDigit(src[p])
    ensures Text.DecimalValue(src[p..NumberEnd(src, p + 1)]).Some?
  {
    var e := DigitRunEnd(src, p + 1);
    DigitRunAllDigits(src, p + 1);
    if Peek(src, e) == '.' && IsDigit(PeekNext(src, e)) {
      var f := DigitRunEnd(src, e + 1);
      assert NumberEnd(src, p + 1) == f;
      DigitRunAllDigits(src, e + 1);
      FractionHasValue(src, p, e, f);
    } else {
      assert NumberEnd(src, p + 1) == e;
      WholeHasValue(src, p, e);
    }
  }

  lemma WholeHasValue(src: string, p: nat, e: nat)
    requires p < e <= |src| && forall i :: p <= i < e ==> IsDigit(src[i])
    ensures Text.DecimalValue(src[p..e]).Some?
  {
    var s := src[p..e];
    assert s[..|s|] == s;
    assert Text.AllDigits(s[..|s|]);
    Text.DecimalShapeHasValue(s, |s|);
  }

  lemma FractionHasValue(src: string, p: nat, e: nat, f: nat)
    requires p < e < e + 1 < f <= |src| && src[e] == '.'
    requires forall i :: p <= i < e ==> IsDigit(src[i])
    requires forall i :: e + 1 <= i < f ==> IsDigit(src[i])
    ensures Text.DecimalValue(src[p..f]).Some?
  {
    var s := src[p..f];
    assert s[..e - p] == src[p..e];
    assert s[e - p + 1..] == src[e + 1..f];
    assert Text.AllDigits(s[..e - p]);
    assert Text.AllDigits(s[e - p + 1..]);
    Text.DecimalShapeHasValue(s, e - p);
  }

  /** `1.` lexes as the number `1` and then a Dot: a fraction needs a digit after the point. */
  lemma TrailingDot(src: string)
    requires src == "1."
    ensures Tokenized(src) == [Token(Number, "1", 1, 1, ""), Token(Dot, ".", 1, 2, ""), Token(Eof, "", 1, 3, "")]
  {
    var c0, c1, c2 := Cursor(0, 1, 1), Cursor(1, 1, 2), Cursor(2, 1, 3);
    assert DigitRunEnd(src, 1) == 1 && src[0..1] == "1";
    assert Scanned(src, c0) == (Token(Number, "1", 1, 1, ""), c1);
    LexedStep(src, c0, Token(Number, "1", 1, 1, ""), c1);
    assert Scanned(src, c1) == (Token(Dot, ".", 1, 2, ""), c2);
    LexedStep(src, c1, Token(Dot, ".", 1, 2, ""), c2);
    LexedAtEnd(src, c2);
  }

  /** There are no signed literals: `-1` is Minus and then the number `1`. */
  lemma NoSignedLiteral(src: string)
    requires src == "-1"
    ensures Tokenized(src) == [Token(Minus, "-", 1, 1, ""), Token(Number, "1", 1, 2, ""), Token(Eof, "", 1, 3, "")]
  {
    var c0, c1, c2 := Cursor(0, 1, 1), Cursor(1, 1, 2), Cursor(2, 1, 3);
    assert Scanned(src, c0) == (Token(Minus, "-", 1, 1, ""), c1);
    LexedStep(src, c0, Token(Minus, "-", 1, 1, ""), c1);
    assert DigitRunEnd(src, 2) == 2 && src[1..2] == "1";
    assert Scanned(src, c1) == (Token(Number, "1", 1, 2, ""), c2);
    LexedStep(src, c1, Token(Number, "1", 1, 2, ""), c2);
    LexedAtEnd(src, c2);
  }

  /**
   * Without backslashes, the string body runs to the first quote (or the
   * end) and its decoded text is exactly the characters passed over.
   */
  lemma {:induction false} StringBodyPlain(src: string, c: Cursor, acc: string, j: nat)
    requires c.pos <= j <= |src| && (j == |src| || src[j] == '"')
    requires forall i :: c.pos <= i < j ==> src[i] != '\\' && src[i] != '"'
    ensures StringBody(src, c, acc).0.pos == j
    ensures StringBody(src, c, acc).1 == acc + src[c.pos..j]
    decreases |src| - c.pos
  {
    if c.pos == j {
      assert src[c.pos..j] == [];
    } else {
      var ch := src[c.pos];
      var next := if ch == '\n' then NewLine(c) else Step(c);
      StringBodyPlain(src, next, acc + [ch], j);
      assert acc + [ch] + src[c.pos + 1..j] == acc + src[c.pos..j];
    }
  }

  /**
   * A string literal without escapes: the lexeme keeps both quotes, the
   * decoded value is the text between them.
   */
  lemma StringTokenPlain(src: string, at: Cursor, j: nat)
    requires at.pos < j < |src| && src[at.pos] == '"' && src[j] == '"'
    requires forall i :: at.pos < i < j ==> src[i] != '\\' && src[i] != '"'
    ensures var (t, e) := Scanned(src, at);
      t.kind == String && t.lexeme == src[at.pos..j + 1] && t.stringValue == src[at.pos + 1..j] &&
      t.lexeme[0] == '"' && t.lexeme[|t.lexeme| - 1] == '"' && e.pos == j + 1
  {
    StringBodyPlain(src, Step(at), "", j);
  }

  /** After a backslash, the next character is decoded by Escape and both are passed over. */
  lemma StringBodyEscape(src: string, c: Cursor, acc: string)
    requires c.pos + 1 < |src| && src[c.pos] == '\\'
    ensures StringBody(src, c, acc) == StringBody(src, Step(Step(c)), acc + Escape(src[c.pos + 1]))
  {
  }

  /** Any other character is copied to the value as it is. */
  lemma StringBodyOrdinary(src: string, c: Cursor, acc: string)
    requires c.pos < |src| && src[c.pos] != '\\' && src[c.pos] != '"' && src[c.pos] != '\n'
    ensures StringBody(src, c, acc) == StringBody(src, Step(c), acc + [src[c.pos]])
  {
  }

  /**
   * The escape `\t` inside a literal decodes to a tab; the lexeme keeps the
   * quotes and the backslash, the value has neither.
   */
  lemma DecodedEscape(src: string)
    requires src == "\"a\\tb\""
    ensures Scanned(src, Cursor(0, 1, 1)) == (Token(String, src, 1, 1, "a\tb"), Cursor(6, 1, 7))
  {
    StringBodyOrdinary(src, Cursor(1, 1, 2), "");
    assert "" + [src[1]] == "a";
    StringBodyEscape(src, Cursor(2, 1, 3), "a");
    assert "a" + Escape(src[3]) == "a\t";
    StringBodyOrdinary(src, Cursor(4, 1, 5), "a\t");
    assert "a\t" + [src[4]] == "a\tb";
    assert src[0..6] == src;
  }

  /** With no closing quote after the opening one, the string is an Error token. */
  lemma UnterminatedString(src: string, at: Cursor)
    requires at.pos < |src| && src[at.pos] == '"'
    requires forall i :: at.pos < i < |src| ==> src[i] != '"'
    ensures var (t, e) := Scanned(src, at);
      t.kind == Error && t.lexeme == "Unterminated string" && t.column == at.column && e.pos == |src|
  {
  }

  /** The newer lexer's whitespace: unlike the legacy lexer's `IsBlank`, it includes '\r'. */
  predicate Whitespace(ch: char) { ch == ' ' || ch == '\t' || ch == '\r' || ch == '\n' }

  lemma {:induction false} SkippedBlank(src: string, c: Cursor)
    requires c.pos <= |src| && forall i :: c.pos <= i < |src| ==> Whitespace(src[i])
    ensures Skipped(src, c).pos == |src|
    decreases |src| - c.pos
  {
    if c.pos < |src| {
      if src[c.pos] == '\n' { SkippedBlank(src, NewLine(c)); } else { SkippedBlank(src, Step(c)); }
    }
  }

  /**
   * Blanks produce no tokens: a source of spaces, tabs, carriage returns
   * and newlines tokenizes to one Eof, on the line after the last newline.
   */
  lemma BlankSourceOnlyEof(src: string)
    requires forall i :: 0 <= i < |src| ==> Whitespace(src[i])
    ensures |Tokenized(src)| == 1 && Tokenized(src)[0].kind == Eof
    ensures Tokenized(src)[0].line == StartLine + NewlineCount(src)
  {
    var c := Cursor(0, StartLine, StartColumn);
    SkippedBlank(src, c);
    SkippedCountsLines(src, c);
    assert src[0..|src|] == src;
  }

  /** A `//` comment produces no token: tokens resume on the next line. */
  lemma CommentProducesNothing(src: string, c: Cursor)
    requires c.pos + 1 < |src| && src[c.pos] == '/' && src[c.pos + 1] == '/'
    ensures Lexed(src, c) == Lexed(src, CommentEnd(src, c))
  {
    var e := CommentEnd(src, c);
    SkippedOverComment(src, c);
    SkippedIdempotent(src, c);
    SkippedIdempotent(src, e);
    calc {
      Lexed(src, c);
      Lexed(src, Skipped(src, c));
      Lexed(src, Skipped(src, e));
      Lexed(src, e);
    }
  }

  /** skipWhitespace() steps over a `//` comment to the end of its line. */
  lemma SkippedOverComment(src: string, c: Cursor)
    requires c.pos + 1 < |src| && src[c.pos] == '/' && src[c.pos + 1] == '/'
    ensures Skipped(src, c) == Skipped(src, CommentEnd(src, c))
  {
    assert PeekNext(src, c.pos) == '/';
  }
}

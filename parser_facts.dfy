// The link between the scanner of src/lexer/lexer.cpp and the parser of
// src/parser/parser.cpp: whatever text the lexer is given, its tokens meet
// what the parser relies on.
module ParserFacts {
  import opened Tokens
  import opened Lexing
  import LexerFacts
  import Parsing
  import Text

  /** Only number() makes a Number token, and its text always has a decimal value. */
  lemma ScannedNumberHasValue(src: string, at: Cursor)
    requires at.pos < |src|
    ensures Scanned(src, at).0.kind == Number ==>
      IsDigit(src[at.pos]) && Text.DecimalValue(Scanned(src, at).0.lexeme).Some?
  {
    var ch := src[at.pos];
    if IsDigit(ch) {
      LexerFacts.NumberTokenShape(src, at);
    } else if IsAlpha(ch) {
      var e := WordEnd(src, at.pos + 1);
      LexerFacts.WordKindKeyword(src[at.pos..e]);
    }
  }

  lemma {:induction false} LexedNumbersHaveValues(src: string, c: Cursor)
    requires c.pos <= |src|
    ensures forall i :: 0 <= i < |Lexed(src, c)| && Lexed(src, c)[i].kind == Number ==>
      Text.DecimalValue(Lexed(src, c)[i].lexeme).Some?
    decreases |src| - c.pos
  {
    var d := Skipped(src, c);
    if d.pos < |src| {
      ScannedAdvances(src, d);
      ScannedNumberHasValue(src, d);
      var e := Scanned(src, d).1;
      LexedNumbersHaveValues(src, e);
      assert Lexed(src, c) == [Scanned(src, d).0] + Lexed(src, e);
    }
  }

  /**
   * The tokens of any source text can be handed to the parser: they end
   * with Eof, and every number token's text converts to a number, which
   * the parser's primary() relies on when it reads the literal's value.
   */
  lemma TokenizedParsable(src: string)
    ensures Parsing.Parsable(Tokenized(src))
  {
    LexerFacts.TokenizedEofOnce(src);
    LexedNumbersHaveValues(src, Cursor(0, StartLine, StartColumn));
  }
}

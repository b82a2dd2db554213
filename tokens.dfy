// Token kinds and tokens of the current lexer (src/lexer/token.h).
module Tokens {
  import opened Wrappers

  datatype TokenType =
    // literals
    | Number | String | Identifier
    // keywords
    | Let | If | Else | While | For | Run | Until | Fn | Return
    | True | False | Nil | Print | Break | Continue
    // operators
    | Plus | Minus | Star | Slash | Percent
    | Equal | EqualEqual | Bang | BangEqual
    | Less | LessEqual | Greater | GreaterEqual
    | And | Or
    | PlusEqual | MinusEqual | StarEqual | SlashEqual
    | PlusPlus | MinusMinus
    | Question | Colon
    // punctuation
    | LeftParen | RightParen | LeftBrace | RightBrace
    | LeftBracket | RightBracket | Semicolon | Comma | Dot
    // special
    | Eof | Error

  /**
   * A token: its kind, the source text it covers, where it starts, and for
   * a string literal the text with escapes decoded (empty otherwise).
   */
  datatype Token = Token(kind: TokenType, lexeme: string, line: nat, column: nat, stringValue: string)

  /** The keyword table: each reserved word and its kind. */
  const KeywordTable: seq<(string, TokenType)> := [
    ("let", Let), ("if", If), ("else", Else), ("while", While), ("for", For),
    ("run", Run), ("until", Until), ("fn", Fn), ("return", Return),
    ("true", True), ("false", False), ("nil", Nil), ("print", Print),
    ("break", Break), ("continue", Continue)
  ]

  predicate IsKeywordKind(k: TokenType)
  {
    k in {Let, If, Else, While, For, Run, Until, Fn, Return, True, False, Nil, Print, Break, Continue}
  }

  /** The kind a table maps a word to, if the word is in it. */
  function Lookup(table: seq<(string, TokenType)>, text: string): (r: Option<TokenType>)
    ensures r.Some? <==> exists i :: 0 <= i < |table| && table[i].0 == text
    ensures r.Some? ==> exists i :: 0 <= i < |table| && table[i] == (text, r.value)
  {
    if table == [] then None
    else if table[0].0 == text then Some(table[0].1)
    else
      var r := Lookup(table[1..], text);
      assert forall i :: 1 <= i < |table| ==> table[i] == table[1..][i - 1];
      r
  }

  /** No entry of the keyword table maps to Identifier. */
  lemma KeywordKindsAreKeywords()
    ensures forall i :: 0 <= i < |KeywordTable| ==> IsKeywordKind(KeywordTable[i].1)
  {
  }

  /** A word is an identifier or gets a keyword kind. */
  lemma WordKindIsWord(text: string)
    ensures WordKind(text) == Identifier || IsKeywordKind(WordKind(text))
  {
    KeywordKindsAreKeywords();
  }

  /** The kind the lexer gives an identifier-shaped word: its keyword kind, or Identifier. */
  function WordKind(text: string): TokenType
  {
    match Lookup(KeywordTable, text)
    case Some(k) => k
    case None => Identifier
  }
}

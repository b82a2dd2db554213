// The recursive-descent parser of src/parser/parser.cpp and its older
// version src/parser.cpp, as one class with a `legacy` flag for the older
// one (which has no run-until statement and never reads a node's token).
module Parsing {
  import opened Wrappers
  import opened Tokens
  import opened Ast
  import Text

  /**
   * How a parsing method ends: with a node, by the runtime_error that
   * consume() throws (caught only in parseProgram and parseExpression), or
   * by reading through a null node, which is undefined behaviour.
   */
  datatype Outcome<T> = Parsed(value: T) | Thrown | Crashed

  /**
   * What the parser needs of its input, and what the lexer gives it: a
   * last Eof token, and number lexemes that std::stod reads whole.
   */
  predicate Parsable(tokens: seq<Token>)
  {
    |tokens| > 0 && tokens[|tokens| - 1].kind == Eof &&
    forall i {:trigger Readable(tokens[i])} :: 0 <= i < |tokens| ==> Readable(tokens[i])
  }

  /** A number token's text has a decimal value; any other token qualifies. */
  predicate Readable(t: Token)
  {
    t.kind == Number ==> Text.DecimalValue(t.lexeme).Some?
  }

  /** error(): `[Line L, Col C] Error at 'lexeme': message`, or `at end` on Eof. */
  function ErrorText(t: Token, message: string): string
  {
    "[Line " + Text.NatToString(t.line) + ", Col " + Text.NatToString(t.column) + "] Error"
    + (if t.kind == Eof then " at end" else " at '" + t.lexeme + "'")
    + ": " + message
  }

  /** The last of `errors` is `message`, reported at `t`. */
  predicate EndsWith(errors: seq<string>, t: Token, message: string)
  {
    |errors| > 0 && errors[|errors| - 1] == ErrorText(t, message)
  }

  /** The error primary() records when no expression starts at `t`. */
  function Missed(t: Token): string
  {
    ErrorText(t, ExpectExpression)
  }

  // The parser's error messages.
  const ExpectExpression := "Expected expression"
  const AfterValue := "Expected ';' after value"
  const VariableName := "Expected variable name"
  const AfterDeclaration := "Expected ';' after variable declaration"
  const FunctionName := "Expected function name"
  const ParenAfterName := "Expected '(' after function name"
  const TooManyParameters := "Can't have more than 255 parameters"
  const ParameterName := "Expected parameter name"
  const AfterParameters := "Expected ')' after parameters"
  const BeforeBody := "Expected '{' before function body"
  const AfterBody := "Expected '}' after function body"
  const AfterReturn := "Expected ';' after return value"
  const AfterBreak := "Expected ';' after 'break'"
  const AfterContinue := "Expected ';' after 'continue'"
  const ParenAfterIf := "Expected '(' after 'if'"
  const AfterIfCondition := "Expected ')' after if condition"
  const ParenAfterWhile := "Expected '(' after 'while'"
  const AfterCondition := "Expected ')' after condition"
  const UntilAfterBody := "Expected 'until' after run body"
  const ParenAfterUntil := "Expected '(' after 'until'"
  const AfterRunUntil := "Expected ';' after run-until statement"
  const ParenAfterFor := "Expected '(' after 'for'"
  const AfterLoopCondition := "Expected ';' after loop condition"
  const AfterForClauses := "Expected ')' after for clauses"
  const AfterBlock := "Expected '}' after block"
  const AfterExpression := "Expected ';' after expression"
  const InvalidTarget := "Invalid assignment target"
  const InvalidCompoundTarget := "Invalid compound assignment target"
  const TernaryColon := "Expected ':' in ternary expression"
  const InvalidPostfix := "Invalid postfix operand"
  const PropertyName := "Expected property name after '.'"
  const TooManyArguments := "Can't have more than 255 arguments"
  const AfterArguments := "Expected ')' after arguments"
  const AfterElements := "Expected ']' after array elements"
  const AfterIndex := "Expected ']' after array index"
  const AfterGroup := "Expected ')' after expression"

  /** The message of a prefix `++`/`--` without an identifier after it. */
  function IdentifierAfter(op: TokenType): string
  {
    "Expected identifier after '" + OpText(op) + "'"
  }

  predicate IsCompoundOp(k: TokenType)
  {
    match k
    case PlusEqual | MinusEqual | StarEqual | SlashEqual => true
    case _ => false
  }

  /** `=` and the compound assignment operators. */
  predicate IsAssignOp(k: TokenType)
  {
    k == Equal || IsCompoundOp(k)
  }

  predicate IsUpdateOp(k: TokenType)
  {
    k == PlusPlus || k == MinusMinus
  }

  /** Tokens that primary() turns into a node on their own: literals and names. */
  predicate IsLeaf(k: TokenType)
  {
    match k
    case Number | String | True | False | Nil | Identifier => true
    case _ => false
  }

  /**
   * The node primary() builds from one token: a number literal holds the
   * value of its text, a string literal its decoded value, `true`, `false`
   * and `nil` their constants, an identifier a variable of that name.
   */
  function LeafOf(t: Token): Expr
    requires IsLeaf(t.kind) && Readable(t)
  {
    match t.kind
    case Number => Literal(LNum(Text.DecimalValue(t.lexeme).value))
    case String => Literal(LStr(t.stringValue))
    case True => Literal(LBool(true))
    case False => Literal(LBool(false))
    case Nil => Literal(LNil)
    case _ => Variable(t.lexeme)
  }

  lemma LeafOfWF(t: Token)
    requires IsLeaf(t.kind) && Readable(t)
    ensures WF(LeafOf(t)) && Rank(LeafOf(t)) == PrimaryLevel
  {
    LeafWF(LNil, t.lexeme);
    if t.kind == Number { LeafWF(LNum(Text.DecimalValue(t.lexeme).value), t.lexeme); }
    if t.kind == String { LeafWF(LStr(t.stringValue), t.lexeme); }
    if t.kind == True || t.kind == False { LeafWF(LBool(t.kind == True), t.lexeme); }
  }

  predicate StartsPrimary(k: TokenType)
  {
    match k
    case Number | String | True | False | Nil | Identifier | LeftParen | LeftBracket => true
    case _ => false
  }

  /**
   * A token that neither starts an expression nor continues one at any
   * level: an expression parsed from it is the null node of primary().
   */
  predicate Inert(k: TokenType)
  {
    match k
    case Number | String | True | False | Nil | Identifier | LeftParen | LeftBracket => false
    case Bang | Minus | PlusPlus | MinusMinus | Dot => false
    case Star | Slash | Percent | Plus | Greater | GreaterEqual | Less | LessEqual => false
    case EqualEqual | BangEqual | And | Or | Question | Equal => false
    case PlusEqual | MinusEqual | StarEqual | SlashEqual => false
    case _ => true
  }

  /** The tokens call() continues with: a call, an index or a member access. */
  predicate StartsSuffix(k: TokenType)
  {
    k == LeftParen || k == LeftBracket || k == Dot
  }

  /** The statement keywords synchronize() stops before. */
  predicate IsSyncKeyword(k: TokenType)
  {
    match k
    case If | While | For | Fn | Return | Let | Print => true
    case _ => false
  }

  /** The tokens statement() dispatches on; `run` only in the current parser. */
  predicate StartsStatement(k: TokenType, legacy: bool)
  {
    match k
    case Print | Let | Fn | Return | Break | Continue | If | While | For | LeftBrace => true
    case Run => !legacy
    case _ => false
  }

  /** The statement kind statement() builds for each leading token. */
  predicate Leads(k: TokenType, s: Stmt, legacy: bool)
  {
    match k
    case Print => s.PrintStmt?
    case Let => s.Let?
    case Fn => s.FnDecl?
    case Return => s.Return?
    case Break => s.Break?
    case Continue => s.Continue?
    case If => s.If?
    case While => s.While?
    case Run => if legacy then s.ExprStmt? else s.RunUntil?
    case For => s.For?
    case LeftBrace => s.Block?
    case _ => s.ExprStmt?
  }

  /** Every expression in a statement has the precedence shape. */
  predicate StmtWF(s: Stmt)
  {
    match s
    case ExprStmt(e) => WF(e)
    case PrintStmt(e) => WF(e)
    case Let(_, e) => WF(e)
    case Block(ss) => forall i :: 0 <= i < |ss| ==> StmtWF(ss[i])
    case If(c, t, f) => WF(c) && StmtWF(t) && (f.Some? ==> StmtWF(f.value))
    case While(c, b) => WF(c) && StmtWF(b)
    case RunUntil(b, c) => StmtWF(b) && WF(c)
    case For(i, c, n, b) => (i.Some? ==> StmtWF(i.value)) && WF(c) && WF(n) && StmtWF(b)
    case FnDecl(_, _, body) => forall i :: 0 <= i < |body| ==> StmtWF(body[i])
    case Return(e) => WF(e)
    case Break => true
    case Continue => true
  }

  class Parser {
    const tokens: seq<Token>
    /** True for the older parser of src/parser.cpp. */
    const legacy: bool
    var current: nat
    var hadError: bool
    var errors: seq<string>

    predicate Valid()
      reads this
    {
      Parsable(tokens) && current < |tokens| && hadError == (|errors| > 0)
    }

    constructor(tokens: seq<Token>, legacy: bool)
      requires Parsable(tokens)
      ensures Valid() && this.tokens == tokens && this.legacy == legacy
      ensures current == 0 && errors == []
    {
      this.tokens := tokens;
      this.legacy := legacy;
      current := 0;
      hadError := false;
      errors := [];
    }

    /** The kind of token `i`. */
    function KindAt(i: nat): TokenType
      requires i < |tokens|
    {
      tokens[i].kind
    }

    /** check() at index `i`: the token there has kind `k`, and it is not Eof. */
    predicate CheckAt(i: nat, k: TokenType)
      requires i < |tokens|
    {
      tokens[i].kind != Eof && tokens[i].kind == k
    }

    predicate IsAtEnd()
      reads this
      requires Valid()
    {
      tokens[current].kind == Eof
    }

    /** advance(): steps over one token, but never past Eof. */
    method Advance()
      requires Valid()
      modifies this`current
      ensures Valid()
      ensures current == if KindAt(old(current)) == Eof then old(current) else old(current) + 1
    {
      if !IsAtEnd() {
        current := current + 1;
      }
    }

    /** match() of one kind: consumes the next token when it has that kind. */
    method Match(k: TokenType) returns (b: bool)
      requires Valid()
      modifies this`current
      ensures Valid()
      ensures b <==> CheckAt(old(current), k)
      ensures current == if b then old(current) + 1 else old(current)
    {
      b := CheckAt(current, k);
      if b {
        Advance();
      }
    }

    /** match() with the operator list of one binary precedence level. */
    method MatchLevel(level: nat) returns (b: bool)
      requires Valid() && level > 0
      modifies this`current
      ensures Valid()
      ensures b <==> BinaryLevel(KindAt(old(current))) == level
      ensures current == if b then old(current) + 1 else old(current)
    {
      b := BinaryLevel(tokens[current].kind) == level;
      if b {
        Advance();
      }
    }

    /** error(): records one message about the next token. */
    method Error(message: string)
      requires Valid()
      modifies this`errors, this`hadError
      ensures Valid()
      ensures errors == old(errors) + [ErrorText(tokens[current], message)] && hadError
    {
      errors := errors + [ErrorText(tokens[current], message)];
      hadError := true;
    }

    /**
     * consume(): steps over the expected token, or records exactly one
     * error about the token found and reports the throw (ok false).
     */
    method Consume(k: TokenType, message: string) returns (ok: bool)
      requires Valid()
      modifies this
      ensures Valid()
      ensures ok <==> CheckAt(old(current), k)
      ensures ok ==> current == old(current) + 1 && errors == old(errors) && tokens[old(current)].kind == k
      ensures !ok ==> current == old(current) && errors == old(errors) + [ErrorText(tokens[current], message)]
    {
      ok := CheckAt(current, k);
      if ok {
        Advance();
      } else {
        Error(message);
      }
    }

    /** Where synchronize() may stop: after a `;`, before a statement keyword, or at the end. */
    predicate SyncPoint(j: nat)
    {
      0 < j < |tokens| && (tokens[j].kind == Eof || tokens[j - 1].kind == Semicolon || IsSyncKeyword(tokens[j].kind))
    }

    /**
     * synchronize(): skips at least one token (unless at the end) and stops
     * at the first point after it that follows a `;`, precedes a statement
     * keyword, or is the end.
     */
    method Synchronize()
      requires Valid()
      modifies this`current
      ensures Valid()
      ensures KindAt(old(current)) == Eof ==> current == old(current)
      ensures KindAt(old(current)) != Eof ==> old(current) < current && SyncPoint(current)
      ensures forall j :: old(current) < j < current ==> !SyncPoint(j)
    {
      if IsAtEnd() {
        return;
      }
      var i := current + 1;
      while !SyncPoint(i)
        invariant current < i < |tokens|
        invariant forall j :: current < j < i ==> !SyncPoint(j)
        decreases |tokens| - i
      {
        i := i + 1;
      }
      current := i;
    }

    // -------------------------------------------------------------- programs

    /**
     * parseProgram(): statements up to Eof; a statement that throws is
     * dropped and parsing resumes after synchronize(). A crash in the
     * current parser is not caught.
     */
    method ParseProgram() returns (r: Outcome<seq<Stmt>>)
      requires Valid()
      modifies this
      ensures Valid() && |old(errors)| <= |errors|
      ensures r.Parsed? ==> IsAtEnd() && forall i :: 0 <= i < |r.value| ==> StmtWF(r.value[i])
      ensures legacy ==> r.Parsed?
      ensures !legacy && KindAt(old(current)) != Eof && Inert(KindAt(old(current))) && !StartsStatement(KindAt(old(current)), false) ==> r.Crashed?
    {
      var statements: seq<Stmt> := [];
      while !IsAtEnd()
        invariant Valid() && old(current) <= current && |old(errors)| <= |errors|
        invariant forall i :: 0 <= i < |statements| ==> StmtWF(statements[i])
        invariant !legacy && Inert(KindAt(old(current))) && !StartsStatement(KindAt(old(current)), false) ==> current == old(current)
        decreases |tokens| - current
      {
        var s := Statement();
        if s.Crashed? {
          return Crashed;
        }
        if s.Parsed? {
          statements := statements + [s.value];
        } else {
          Synchronize();
        }
      }
      r := Parsed(statements);
    }

    /** parseExpression(): a thrown error yields the null node. */
    method ParseExpression() returns (e: Expr)
      requires Valid()
      modifies this
      ensures Valid() && old(current) <= current && |old(errors)| <= |errors|
      ensures WF(e)
      ensures Inert(KindAt(old(current))) ==> e == Missing && current == old(current) && errors == old(errors) + [Missed(tokens[old(current)])]
    {
      var r := Expression();
      e := if r.Parsed? then r.value else Missing;
    }

    // ------------------------------------------------------------ statements

    /** statement(): dispatch on the leading keyword, else an expression statement. */
    method Statement() returns (r: Outcome<Stmt>)
      requires Valid()
      modifies this
      decreases |tokens| - current, 60
      ensures Valid() && old(current) <= current && |old(errors)| <= |errors|
      ensures legacy ==> !r.Crashed?
      ensures r.Parsed? ==> StmtWF(r.value) && old(current) < current && Leads(KindAt(old(current)), r.value, legacy)
      ensures Inert(KindAt(old(current))) && !StartsStatement(KindAt(old(current)), legacy) ==>
        if !legacy then r.Crashed?
        else if KindAt(old(current)) == Semicolon then
          r == Parsed(ExprStmt(Missing)) && current == old(current) + 1 && errors == old(errors) + [Missed(tokens[old(current)])]
        else
          r.Thrown? && errors == old(errors) + [Missed(tokens[old(current)]), ErrorText(tokens[old(current)], AfterExpression)]
    {
      var k := tokens[current].kind;
      if !StartsStatement(k, legacy) {
        r := ExpressionStatement();
        return;
      }
      Advance();
      if k == Print || k == TokenType.Let || k == Fn || k == TokenType.Return || k == TokenType.Break || k == TokenType.Continue {
        r := SimpleStatement(k);
      } else {
        r := CompoundStatement(k);
      }
    }

    /** The statements of statement() that hold no other statement, their keyword consumed. */
    method SimpleStatement(k: TokenType) returns (r: Outcome<Stmt>)
      requires Valid()
      requires k == Print || k == TokenType.Let || k == Fn || k == TokenType.Return || k == TokenType.Break || k == TokenType.Continue
      modifies this
      decreases |tokens| - current + 1, 59
      ensures Valid() && old(current) <= current && |old(errors)| <= |errors|
      ensures legacy ==> !r.Crashed?
      ensures r.Parsed? ==> StmtWF(r.value) && Leads(k, r.value, legacy)
    {
      if k == Print {
        r := PrintStatement();
      } else if k == TokenType.Let {
        r := LetStatement();
      } else if k == Fn {
        r := FnStatement();
      } else if k == TokenType.Return {
        r := ReturnStatement();
      } else if k == TokenType.Break {
        r := BreakStatement();
      } else {
        r := ContinueStatement();
      }
    }

    /** The statements of statement() that hold other statements, their keyword consumed. */
    method CompoundStatement(k: TokenType) returns (r: Outcome<Stmt>)
      requires Valid() && StartsStatement(k, legacy)
      requires !(k == Print || k == TokenType.Let || k == Fn || k == TokenType.Return || k == TokenType.Break || k == TokenType.Continue)
      modifies this
      decreases |tokens| - current + 1, 59
      ensures Valid() && old(current) <= current && |old(errors)| <= |errors|
      ensures legacy ==> !r.Crashed?
      ensures r.Parsed? ==> StmtWF(r.value) && Leads(k, r.value, legacy)
    {
      if k == TokenType.If {
        r := IfStatement();
      } else if k == TokenType.While {
        r := WhileStatement();
      } else if k == Run {
        r := RunUntilStatement();
      } else if k == TokenType.For {
        r := ForStatement();
      } else {
        r := BlockStatement();
      }
    }

    /** printStatement(): `print expr ;`. */
    method PrintStatement() returns (r: Outcome<Stmt>)
      requires Valid()
      modifies this
      decreases |tokens| - current + 1, 55
      ensures Valid() && old(current) <= current && |old(errors)| <= |errors|
      ensures !r.Crashed?
      ensures r.Parsed? ==> r.value.PrintStmt? && StmtWF(r.value) && old(current) < current
    {
      var e := Expression();
      if !e.Parsed? {
        return Thrown;
      }
      var ok := Consume(Semicolon, AfterValue);
      if !ok {
        return Thrown;
      }
      r := Parsed(PrintStmt(e.value));
    }

    /** letStatement(): `let name ;` or `let name = expr ;`; no initializer is the null node. */
    method LetStatement() returns (r: Outcome<Stmt>)
      requires Valid()
      modifies this
      decreases |tokens| - current + 1, 55
      ensures Valid() && old(current) <= current && |old(errors)| <= |errors|
      ensures !r.Crashed?
      ensures r.Parsed? ==> r.value.Let? && StmtWF(r.value) && old(current) < current
      ensures r.Parsed? ==> r.value.name == tokens[old(current)].lexeme
      ensures r.Parsed? && !CheckAt(old(current) + 1, Equal) ==> r.value.initializer == Missing
      ensures !CheckAt(old(current), Identifier) ==>
        r.Thrown? && current == old(current) && errors == old(errors) + [ErrorText(tokens[old(current)], VariableName)]
    {
      var name := tokens[current].lexeme;
      var named := Consume(Identifier, VariableName);
      if !named {
        return Thrown;
      }
      var init := LetInitializer();
      if !init.Parsed? {
        return Thrown;
      }
      var ok := Consume(Semicolon, AfterDeclaration);
      if !ok {
        return Thrown;
      }
      r := Parsed(Stmt.Let(name, init.value));
    }

    /** The optional `= expr` of letStatement(); without `=` the initializer is null. */
    method LetInitializer() returns (r: Outcome<Expr>)
      requires Valid()
      modifies this
      decreases |tokens| - current + 1, 54
      ensures Valid() && old(current) <= current && |old(errors)| <= |errors|
      ensures !r.Crashed? && (r.Parsed? ==> WF(r.value))
      ensures !CheckAt(old(current), Equal) ==> r == Parsed(Missing) && current == old(current) && errors == old(errors)
    {
      var eq := Match(Equal);
      if !eq {
        return Parsed(Missing);
      }
      r := Expression();
    }

    /**
     * fnStatement(): `fn name ( params ) { body }`. Past 255 parameters an
     * error is recorded and parsing goes on.
     */
    method FnStatement() returns (r: Outcome<Stmt>)
      requires Valid()
      modifies this
      decreases |tokens| - current + 1, 55
      ensures Valid() && old(current) <= current && |old(errors)| <= |errors|
      ensures legacy ==> !r.Crashed?
      ensures r.Parsed? ==> r.value.FnDecl? && StmtWF(r.value) && old(current) < current
      ensures r.Parsed? ==> r.value.name == tokens[old(current)].lexeme
      ensures r.Parsed? && |r.value.params| > 255 ==> hadError
    {
      var name := tokens[current].lexeme;
      var named := Consume(Identifier, FunctionName);
      if !named {
        return Thrown;
      }
      var ok := Consume(LeftParen, ParenAfterName);
      if !ok {
        return Thrown;
      }
      var params := Parameters();
      if !params.Parsed? {
        return Thrown;
      }
      ok := Consume(RightParen, AfterParameters);
      if !ok {
        return Thrown;
      }
      ok := Consume(LeftBrace, BeforeBody);
      if !ok {
        return Thrown;
      }
      var body := StatementsUntilBrace();
      if !body.Parsed? {
        return if body.Crashed? then Crashed else Thrown;
      }
      ok := Consume(RightBrace, AfterBody);
      if !ok {
        return Thrown;
      }
      r := Parsed(FnDecl(name, params.value, body.value));
    }

    /**
     * The parameter list of fnStatement(): comma-separated names, none
     * when `)` follows at once. Past 255 names an error is recorded for
     * each further name and parsing goes on.
     */
    method Parameters() returns (r: Outcome<seq<string>>)
      requires Valid()
      modifies this
      ensures Valid() && old(current) <= current && |old(errors)| <= |errors|
      ensures !r.Crashed?
      ensures r.Parsed? && |r.value| > 255 ==> hadError
      ensures CheckAt(old(current), RightParen) ==> r == Parsed([]) && current == old(current) && errors == old(errors)
      ensures !CheckAt(old(current), RightParen) && r.Parsed? ==> |r.value| > 0 && old(current) < current
    {
      var params: seq<string> := [];
      if CheckAt(current, RightParen) {
        return Parsed(params);
      }
      var more := true;
      while more
        invariant Valid() && old(current) <= current && |old(errors)| <= |errors|
        invariant more ==> |params| == 0 || old(current) < current
        invariant !more ==> |params| > 0 && old(current) < current
        invariant |params| > 255 ==> hadError
        decreases |tokens| - current, more
      {
        if |params| >= 255 {
          Error(TooManyParameters);
        }
        var param := tokens[current].lexeme;
        var p := Consume(Identifier, ParameterName);
        if !p {
          return Thrown;
        }
        params := params + [param];
        more := Match(Comma);
      }
      r := Parsed(params);
    }

    /** The statement loop of a block or function body: statements until `}` or the end. */
    method StatementsUntilBrace() returns (r: Outcome<seq<Stmt>>)
      requires Valid()
      modifies this
      decreases |tokens| - current + 1, 54
      ensures Valid() && old(current) <= current && |old(errors)| <= |errors|
      ensures legacy ==> !r.Crashed?
      ensures r.Parsed? ==> forall i :: 0 <= i < |r.value| ==> StmtWF(r.value[i])
    {
      var statements: seq<Stmt> := [];
      while !CheckAt(current, RightBrace) && !IsAtEnd()
        invariant Valid() && old(current) <= current && |old(errors)| <= |errors|
        invariant forall i :: 0 <= i < |statements| ==> StmtWF(statements[i])
        decreases |tokens| - current
      {
        var s := BlockMember();
        if !s.Parsed? {
          return if s.Crashed? then Crashed else Thrown;
        }
        statements := statements + [s.value];
      }
      r := Parsed(statements);
    }

    /** One statement of a block's body, with what the block needs of it. */
    method BlockMember() returns (r: Outcome<Stmt>)
      requires Valid()
      modifies this
      decreases |tokens| - current + 1, 53
      ensures Valid() && old(current) <= current && |old(errors)| <= |errors|
      ensures legacy ==> !r.Crashed?
      ensures r.Parsed? ==> StmtWF(r.value) && old(current) < current
    {
      r := Statement();
    }

    /** returnStatement(): `return ;` (the null node) or `return expr ;`. */
    method ReturnStatement() returns (r: Outcome<Stmt>)
      requires Valid()
      modifies this
      decreases |tokens| - current + 1, 55
      ensures Valid() && old(current) <= current && |old(errors)| <= |errors|
      ensures !r.Crashed?
      ensures r.Parsed? ==> r.value.Return? && StmtWF(r.value) && old(current) < current
      ensures CheckAt(old(current), Semicolon) ==> r == Parsed(Stmt.Return(Missing)) && current == old(current) + 1 && errors == old(errors)
    {
      var value := Missing;
      if !CheckAt(current, Semicolon) {
        var e := Expression();
        if !e.Parsed? {
          return Thrown;
        }
        value := e.value;
      }
      var ok := Consume(Semicolon, AfterReturn);
      if !ok {
        return Thrown;
      }
      r := Parsed(Stmt.Return(value));
    }

    /** breakStatement(): `break ;`. */
    method BreakStatement() returns (r: Outcome<Stmt>)
      requires Valid()
      modifies this
      decreases |tokens| - current + 1, 55
      ensures Valid() && |old(errors)| <= |errors|
      ensures CheckAt(old(current), Semicolon) ==> r == Parsed(Stmt.Break) && current == old(current) + 1 && errors == old(errors)
      ensures !CheckAt(old(current), Semicolon) ==>
        r == Thrown && current == old(current) && errors == old(errors) + [ErrorText(tokens[old(current)], AfterBreak)]
    {
      var ok := Consume(Semicolon, AfterBreak);
      r := if ok then Parsed(Stmt.Break) else Thrown;
    }

    /** continueStatement(): `continue ;`. */
    method ContinueStatement() returns (r: Outcome<Stmt>)
      requires Valid()
      modifies this
      decreases |tokens| - current + 1, 55
      ensures Valid() && |old(errors)| <= |errors|
      ensures CheckAt(old(current), Semicolon) ==> r == Parsed(Stmt.Continue) && current == old(current) + 1 && errors == old(errors)
      ensures !CheckAt(old(current), Semicolon) ==>
        r == Thrown && current == old(current) && errors == old(errors) + [ErrorText(tokens[old(current)], AfterContinue)]
    {
      var ok := Consume(Semicolon, AfterContinue);
      r := if ok then Parsed(Stmt.Continue) else Thrown;
    }

    /** ifStatement(): `if ( cond ) stmt` with an optional `else stmt`. */
    method IfStatement() returns (r: Outcome<Stmt>)
      requires Valid()
      modifies this
      decreases |tokens| - current + 1, 55
      ensures Valid() && old(current) <= current && |old(errors)| <= |errors|
      ensures legacy ==> !r.Crashed?
      ensures r.Parsed? ==> r.value.If? && StmtWF(r.value) && old(current) < current
    {
      var c := Condition(ParenAfterIf, AfterIfCondition);
      if !c.Parsed? {
        return Thrown;
      }
      var t := Statement();
      if !t.Parsed? {
        return if t.Crashed? then Crashed else Thrown;
      }
      var f := ElseBranch();
      if !f.Parsed? {
        return if f.Crashed? then Crashed else Thrown;
      }
      r := Parsed(Stmt.If(c.value, t.value, f.value));
    }

    /** The optional `else stmt` of ifStatement(). */
    method ElseBranch() returns (r: Outcome<Option<Stmt>>)
      requires Valid()
      modifies this
      decreases |tokens| - current + 1, 56
      ensures Valid() && old(current) <= current && |old(errors)| <= |errors|
      ensures legacy ==> !r.Crashed?
      ensures r.Parsed? ==> (r.value.None? <==> !CheckAt(old(current), Else))
      ensures r.Parsed? && r.value.None? ==> current == old(current) && errors == old(errors)
      ensures r.Parsed? && r.value.Some? ==> StmtWF(r.value.value)
    {
      var hasElse := Match(Else);
      if !hasElse {
        return Parsed(None);
      }
      var s := Statement();
      if !s.Parsed? {
        return if s.Crashed? then Crashed else Thrown;
      }
      r := Parsed(Some(s.value));
    }

    /** A parenthesised condition `( expr )`, as if, while and until read it. */
    method Condition(open: string, close: string) returns (r: Outcome<Expr>)
      requires Valid()
      modifies this
      decreases |tokens| - current + 1, 52
      ensures Valid() && old(current) <= current && |old(errors)| <= |errors|
      ensures !r.Crashed? && (r.Parsed? ==> WF(r.value) && old(current) < current)
      ensures !CheckAt(old(current), LeftParen) ==>
        r.Thrown? && current == old(current) && errors == old(errors) + [ErrorText(tokens[old(current)], open)]
    {
      var ok := Consume(LeftParen, open);
      if !ok {
        return Thrown;
      }
      var c := Expression();
      if !c.Parsed? {
        return Thrown;
      }
      ok := Consume(RightParen, close);
      if !ok {
        return Thrown;
      }
      r := c;
    }

    /** whileStatement(): `while ( cond ) stmt`. */
    method WhileStatement() returns (r: Outcome<Stmt>)
      requires Valid()
      modifies this
      decreases |tokens| - current + 1, 55
      ensures Valid() && old(current) <= current && |old(errors)| <= |errors|
      ensures legacy ==> !r.Crashed?
      ensures r.Parsed? ==> r.value.While? && StmtWF(r.value) && old(current) < current
    {
      var c := Condition(ParenAfterWhile, AfterCondition);
      if !c.Parsed? {
        return Thrown;
      }
      var b := Statement();
      if !b.Parsed? {
        return if b.Crashed? then Crashed else Thrown;
      }
      r := Parsed(Stmt.While(c.value, b.value));
    }

    /** runUntilStatement(): `run stmt until ( cond ) ;`. */
    method RunUntilStatement() returns (r: Outcome<Stmt>)
      requires Valid()
      modifies this
      decreases |tokens| - current + 1, 55
      ensures Valid() && old(current) <= current && |old(errors)| <= |errors|
      ensures legacy ==> !r.Crashed?
      ensures r.Parsed? ==> r.value.RunUntil? && StmtWF(r.value) && old(current) < current
    {
      var b := Statement();
      if !b.Parsed? {
        return if b.Crashed? then Crashed else Thrown;
      }
      r := UntilClause(b.value);
    }

    /** The rest of runUntilStatement() after the body: `until`, the condition, then `;`. */
    method UntilClause(body: Stmt) returns (r: Outcome<Stmt>)
      requires Valid() && StmtWF(body)
      modifies this
      decreases |tokens| - current + 1, 54
      ensures Valid() && old(current) <= current && |old(errors)| <= |errors|
      ensures !r.Crashed?
      ensures !CheckAt(old(current), Until) ==> r.Thrown? && errors == old(errors) + [ErrorText(tokens[old(current)], UntilAfterBody)]
      ensures r.Parsed? ==> r.value.RunUntil? && r.value.body == body && StmtWF(r.value)
    {
      var ok := Consume(Until, UntilAfterBody);
      if !ok {
        return Thrown;
      }
      var c := Condition(ParenAfterUntil, AfterCondition);
      if !c.Parsed? {
        return Thrown;
      }
      ok := Consume(Semicolon, AfterRunUntil);
      if !ok {
        return Thrown;
      }
      r := Parsed(RunUntil(body, c.value));
    }

    /**
     * forStatement(): `for ( init cond ; incr ) body`, where the
     * initializer is `;` (none), a let statement or an expression
     * statement, and a missing condition or increment is the null node.
     */
    method ForStatement() returns (r: Outcome<Stmt>)
      requires Valid()
      modifies this
      decreases |tokens| - current + 1, 55
      ensures Valid() && old(current) <= current && |old(errors)| <= |errors|
      ensures legacy ==> !r.Crashed?
      ensures r.Parsed? ==> r.value.For? && StmtWF(r.value) && old(current) < current
    {
      var ok := Consume(LeftParen, ParenAfterFor);
      if !ok {
        return Thrown;
      }
      var init := ForInitializer();
      if !init.Parsed? {
        return if init.Crashed? then Crashed else Thrown;
      }
      var cond := LoopClause(Semicolon, AfterLoopCondition);
      if !cond.Parsed? {
        return Thrown;
      }
      var incr := LoopClause(RightParen, AfterForClauses);
      if !incr.Parsed? {
        return Thrown;
      }
      var body := Statement();
      if !body.Parsed? {
        return if body.Crashed? then Crashed else Thrown;
      }
      r := Parsed(Stmt.For(init.value, cond.value, incr.value, body.value));
    }

    /**
     * The condition or the increment of forStatement(), then the token that
     * ends it (`;` or `)`): a clause that is empty, the end token at once,
     * is the null node.
     */
    method LoopClause(end: TokenType, message: string) returns (r: Outcome<Expr>)
      requires Valid()
      modifies this
      decreases |tokens| - current + 1, 54
      ensures Valid() && old(current) <= current && |old(errors)| <= |errors|
      ensures !r.Crashed? && (r.Parsed? ==> WF(r.value) && old(current) < current)
      ensures CheckAt(old(current), end) ==> r == Parsed(Missing) && current == old(current) + 1 && errors == old(errors)
    {
      var e := Missing;
      if !CheckAt(current, end) {
        var x := Expression();
        if !x.Parsed? {
          return Thrown;
        }
        e := x.value;
      }
      var ok := Consume(end, message);
      if !ok {
        return Thrown;
      }
      r := Parsed(e);
    }

    /** The initializer clause of forStatement(): `;` (none), a let statement, or an expression statement. */
    method ForInitializer() returns (r: Outcome<Option<Stmt>>)
      requires Valid()
      modifies this
      decreases |tokens| - current, 59
      ensures Valid() && old(current) <= current && |old(errors)| <= |errors|
      ensures legacy ==> !r.Crashed?
      ensures r.Parsed? ==> (r.value.Some? ==> StmtWF(r.value.value)) && old(current) < current
      ensures r.Parsed? ==> (r.value.None? <==> CheckAt(old(current), Semicolon))
      ensures r.Parsed? && r.value.Some? ==> (r.value.value.Let? <==> CheckAt(old(current), TokenType.Let))
    {
      var empty := Match(Semicolon);
      if empty {
        return Parsed(None);
      }
      var isLet := Match(TokenType.Let);
      var s;
      if isLet {
        s := LetStatement();
      } else {
        s := ExpressionStatement();
      }
      if !s.Parsed? {
        return if s.Crashed? then Crashed else Thrown;
      }
      r := Parsed(Some(s.value));
    }

    /** blockStatement(): statements until `}`, then the `}`. */
    method BlockStatement() returns (r: Outcome<Stmt>)
      requires Valid()
      modifies this
      decreases |tokens| - current + 1, 55
      ensures Valid() && old(current) <= current && |old(errors)| <= |errors|
      ensures legacy ==> !r.Crashed?
      ensures r.Parsed? ==> r.value.Block? && StmtWF(r.value) && old(current) < current
    {
      var body := StatementsUntilBrace();
      if !body.Parsed? {
        return if body.Crashed? then Crashed else Thrown;
      }
      var ok := Consume(RightBrace, AfterBlock);
      if !ok {
        return Thrown;
      }
      r := Parsed(Block(body.value));
    }

    /**
     * expressionStatement(): `expr ;`. The current parser reads the token
     * of the expression before the `;` check, which for the null node of a
     * failed primary() is undefined behaviour; the older one builds the
     * statement around the null node.
     */
    method ExpressionStatement() returns (r: Outcome<Stmt>)
      requires Valid()
      modifies this
      decreases |tokens| - current, 58
      ensures Valid() && old(current) <= current && |old(errors)| <= |errors|
      ensures legacy ==> !r.Crashed?
      ensures r.Parsed? ==> r.value.ExprStmt? && StmtWF(r.value) && old(current) < current
      ensures Inert(KindAt(old(current))) ==>
        if !legacy then r.Crashed?
        else if KindAt(old(current)) == Semicolon then
          r == Parsed(ExprStmt(Missing)) && current == old(current) + 1 && errors == old(errors) + [Missed(tokens[old(current)])]
        else
          r.Thrown? && errors == old(errors) + [Missed(tokens[old(current)]), ErrorText(tokens[old(current)], AfterExpression)]
    {
      var e := Expression();
      if !e.Parsed? {
        return Thrown;
      }
      r := ExpressionEnd(e.value);
    }

    /** The end of expressionStatement(): the legacy parser's check for a missing expression, then the `;`. */
    method ExpressionEnd(e: Expr) returns (r: Outcome<Stmt>)
      requires Valid() && WF(e)
      modifies this
      ensures Valid() && old(current) <= current && |old(errors)| <= |errors|
      ensures legacy ==> !r.Crashed?
      ensures r.Parsed? ==> r == Parsed(ExprStmt(e)) && current == old(current) + 1
      ensures e.Missing? && !legacy ==> r.Crashed?
      ensures e.Missing? && legacy ==>
        if KindAt(old(current)) == Semicolon then r.Parsed? && errors == old(errors)
        else r.Thrown? && errors == old(errors) + [ErrorText(tokens[old(current)], AfterExpression)]
    {
      if !legacy && e.Missing? {
        return Crashed;
      }
      var ok := Consume(Semicolon, AfterExpression);
      if !ok {
        return Thrown;
      }
      r := Parsed(ExprStmt(e));
    }

    // ----------------------------------------------------------- expressions

    method Expression() returns (r: Outcome<Expr>)
      requires Valid()
      modifies this
      decreases |tokens| - current, 51
      ensures Valid() && old(current) <= current && |old(errors)| <= |errors|
      ensures !r.Crashed? && (r.Parsed? ==> WF(r.value))
      ensures current == old(current) ==> r == Parsed(Missing) && errors == old(errors) + [Missed(tokens[old(current)])]
      ensures Inert(KindAt(old(current))) ==> current == old(current)
    {
      r := Assignment();
    }

    /** assignment(): a ternary-level expression, then an optional `=` or compound tail. */
    method Assignment() returns (r: Outcome<Expr>)
      requires Valid()
      modifies this
      decreases |tokens| - current, 50
      ensures Valid() && old(current) <= current && |old(errors)| <= |errors|
      ensures !r.Crashed? && (r.Parsed? ==> WF(r.value))
      ensures current == old(current) ==> r == Parsed(Missing) && errors == old(errors) + [Missed(tokens[old(current)])]
      ensures Inert(KindAt(old(current))) ==> current == old(current)
      ensures r.Parsed? ==> !IsCompoundOp(KindAt(current))
    {
      var t := Ternary();
      if !t.Parsed? {
        return t;
      }
      r := AssignmentTail(t.value);
    }

    /**
     * The rest of assignment() once its target is parsed. `=` rewrites a
     * variable or index target (right-associatively: the value is another
     * assignment); any other target records "Invalid assignment target",
     * drops the value and goes on to the compound check. A compound
     * operator accepts only a variable target.
     */
    method AssignmentTail(target: Expr) returns (r: Outcome<Expr>)
      requires Valid() && WF(target)
      modifies this
      decreases |tokens| - current, 49
      ensures Valid() && old(current) <= current && |old(errors)| <= |errors|
      ensures !r.Crashed? && (r.Parsed? ==> WF(r.value))
      ensures !IsAssignOp(KindAt(old(current))) ==> r == Parsed(target) && current == old(current) && errors == old(errors)
      ensures IsAssignOp(KindAt(old(current))) ==> old(current) < current
      ensures KindAt(old(current)) == Equal && r.Parsed? && (target.Variable? || target.Index?) ==>
        (r.value.Assign? || r.value.IndexAssign?) && TargetOf(r.value) == Some(target)
      ensures KindAt(old(current)) == Equal && r.Parsed? && !(target.Variable? || target.Index?) ==>
        r.value == target && EndsWith(errors, tokens[current], InvalidTarget)
      ensures IsCompoundOp(KindAt(old(current))) && r.Parsed? ==>
        if target.Variable? then r.value.CompoundAssign? && r.value.name == target.name && r.value.op == KindAt(old(current))
        else r.value == target && EndsWith(errors, tokens[current], InvalidCompoundTarget)
      ensures r.Parsed? ==> !IsCompoundOp(KindAt(current))
    {
      var isAssign := Match(Equal);
      if isAssign {
        r := AssignValue(target);
        if !r.Parsed? || r.value != target {
          return;
        }
      }
      r := CompoundTail(target);
    }

    /**
     * The `=` half of assignment(), after the `=`: the value, then the
     * rewrite of a variable or index target, or the error for any other.
     */
    method AssignValue(target: Expr) returns (r: Outcome<Expr>)
      requires Valid() && WF(target)
      modifies this
      decreases |tokens| - current + 1, 48
      ensures Valid() && old(current) <= current && |old(errors)| <= |errors|
      ensures !r.Crashed? && (r.Parsed? ==> WF(r.value))
      ensures r.Parsed? && (target.Variable? || target.Index?) ==>
        (r.value.Assign? || r.value.IndexAssign?) && TargetOf(r.value) == Some(target)
      ensures r.Parsed? && !(target.Variable? || target.Index?) ==> r.value == target && EndsWith(errors, tokens[current], InvalidTarget)
      ensures r.Parsed? ==> !IsCompoundOp(KindAt(current))
    {
      var v := Assignment();
      if !v.Parsed? {
        return v;
      }
      var a := AssignTarget(target, v.value);
      if a.Some? {
        AssignTargetWF(target, v.value);
        return Parsed(a.value);
      }
      Error(InvalidTarget);
      r := Parsed(target);
    }

    /** The compound half of assignment(): `+=`, `-=`, `*=`, `/=` after a variable target. */
    method CompoundTail(target: Expr) returns (r: Outcome<Expr>)
      requires Valid() && WF(target)
      modifies this
      decreases |tokens| - current, 48
      ensures Valid() && old(current) <= current && |old(errors)| <= |errors|
      ensures !r.Crashed? && (r.Parsed? ==> WF(r.value))
      ensures !IsCompoundOp(KindAt(old(current))) ==> r == Parsed(target) && current == old(current) && errors == old(errors)
      ensures IsCompoundOp(KindAt(old(current))) ==> old(current) < current
      ensures IsCompoundOp(KindAt(old(current))) && r.Parsed? ==>
        if target.Variable? then r.value.CompoundAssign? && r.value.name == target.name && r.value.op == KindAt(old(current))
        else r.value == target && EndsWith(errors, tokens[current], InvalidCompoundTarget)
      ensures r.Parsed? ==> !IsCompoundOp(KindAt(current))
    {
      var op := tokens[current].kind;
      if !IsCompoundOp(op) {
        return Parsed(target);
      }
      Advance();
      r := CompoundValue(target, op);
    }

    /**
     * The value of a compound assignment, its operator consumed: a variable
     * target makes the compound assignment node; any other target records
     * "Invalid compound assignment target" and is kept.
     */
    method CompoundValue(target: Expr, op: TokenType) returns (r: Outcome<Expr>)
      requires Valid() && WF(target) && IsCompoundOp(op)
      modifies this
      decreases |tokens| - current + 1, 47
      ensures Valid() && old(current) <= current && |old(errors)| <= |errors|
      ensures !r.Crashed? && (r.Parsed? ==> WF(r.value))
      ensures r.Parsed? ==>
        if target.Variable? then r.value.CompoundAssign? && r.value.name == target.name && r.value.op == op
        else r.value == target && EndsWith(errors, tokens[current], InvalidCompoundTarget)
      ensures r.Parsed? ==> !IsCompoundOp(KindAt(current))
    {
      var v := Assignment();
      if !v.Parsed? {
        return v;
      }
      if target.Variable? {
        CompoundWF(target.name, op, v.value);
        return Parsed(CompoundAssign(target.name, op, v.value));
      }
      Error(InvalidCompoundTarget);
      r := Parsed(target);
    }

    /** ternary(): `c ? t : e`, with a full expression between and another ternary after the colon. */
    method Ternary() returns (r: Outcome<Expr>)
      requires Valid()
      modifies this
      decreases |tokens| - current, 47
      ensures Valid() && old(current) <= current && |old(errors)| <= |errors|
      ensures !r.Crashed? && (r.Parsed? ==> WF(r.value) && Rank(r.value) >= TernaryLevel)
      ensures current == old(current) ==> r == Parsed(Missing) && errors == old(errors) + [Missed(tokens[old(current)])]
      ensures Inert(KindAt(old(current))) ==> current == old(current)
    {
      var c := LogicalOr();
      if !c.Parsed? {
        return c;
      }
      var q := Match(Question);
      if !q {
        return c;
      }
      r := TernaryRest(c.value);
    }

    /** The branches of ternary() once `?` is consumed: an expression, `:`, then another ternary(). */
    method TernaryRest(c: Expr) returns (r: Outcome<Expr>)
      requires Valid() && WF(c) && Rank(c) >= OrLevel
      modifies this
      decreases |tokens| - current + 1, 46
      ensures Valid() && old(current) <= current && |old(errors)| <= |errors|
      ensures !r.Crashed? && (r.Parsed? ==> WF(r.value) && Rank(r.value) >= TernaryLevel)
      ensures r.Parsed? ==> r.value.Ternary? && r.value.cond == c
    {
      var t := Expression();
      if !t.Parsed? {
        return t;
      }
      var ok := Consume(Colon, TernaryColon);
      if !ok {
        return Thrown;
      }
      var f := Ternary();
      if !f.Parsed? {
        return f;
      }
      TernaryWF(c, t.value, f.value);
      r := Parsed(Ast.Ternary(c, t.value, f.value));
    }

    /** logicalOr(): a left-leaning chain of `||` over logicalAnd(). */
    method LogicalOr() returns (r: Outcome<Expr>)
      requires Valid()
      modifies this
      decreases |tokens| - current, 46
      ensures Valid() && old(current) <= current && |old(errors)| <= |errors|
      ensures !r.Crashed? && (r.Parsed? ==> WF(r.value) && Rank(r.value) >= OrLevel)
      ensures current == old(current) ==> r == Parsed(Missing) && errors == old(errors) + [Missed(tokens[old(current)])]
      ensures Inert(KindAt(old(current))) ==> current == old(current)
    {
      var first := LogicalAnd();
      if !first.Parsed? {
        return first;
      }
      var e := first.value;
      var more := Match(Or);
      while more
        invariant Valid() && old(current) <= current && |old(errors)| <= |errors|
        invariant more ==> old(current) < current
        invariant WF(e) && Rank(e) >= OrLevel
        invariant current == old(current) ==> e == Missing && errors == old(errors) + [Missed(tokens[old(current)])]
        invariant Inert(KindAt(old(current))) ==> current == old(current)
        decreases |tokens| - current, more
      {
        var step := OrStep(e);
        if !step.Parsed? {
          return step;
        }
        e := step.value;
        more := Match(Or);
      }
      r := Parsed(e);
    }

    /** One round of the `||` loop, its operator consumed: the right operand, joined to the chain so far. */
    method OrStep(e: Expr) returns (r: Outcome<Expr>)
      requires Valid() && WF(e) && Rank(e) >= OrLevel
      modifies this
      decreases |tokens| - current, 46
      ensures Valid() && old(current) <= current && |old(errors)| <= |errors|
      ensures !r.Crashed? && (r.Parsed? ==> WF(r.value) && Rank(r.value) >= OrLevel)
      ensures r.Parsed? ==> r.value.Logical? && r.value.left == e && r.value.op == Or
    {
      var right := LogicalAnd();
      if !right.Parsed? {
        return right;
      }
      LogicalWF(e, Or, right.value);
      r := Parsed(Logical(e, Or, right.value));
    }

    /** logicalAnd(): a left-leaning chain of `&&` over equality(). */
    method LogicalAnd() returns (r: Outcome<Expr>)
      requires Valid()
      modifies this
      decreases |tokens| - current, 45
      ensures Valid() && old(current) <= current && |old(errors)| <= |errors|
      ensures !r.Crashed? && (r.Parsed? ==> WF(r.value) && Rank(r.value) >= AndLevel)
      ensures current == old(current) ==> r == Parsed(Missing) && errors == old(errors) + [Missed(tokens[old(current)])]
      ensures Inert(KindAt(old(current))) ==> current == old(current)
    {
      var first := Binary(EqualityLevel);
      if !first.Parsed? {
        return first;
      }
      var e := first.value;
      var more := Match(And);
      while more
        invariant Valid() && old(current) <= current && |old(errors)| <= |errors|
        invariant more ==> old(current) < current
        invariant WF(e) && Rank(e) >= AndLevel
        invariant current == old(current) ==> e == Missing && errors == old(errors) + [Missed(tokens[old(current)])]
        invariant Inert(KindAt(old(current))) ==> current == old(current)
        decreases |tokens| - current, more
      {
        var step := AndStep(e);
        if !step.Parsed? {
          return step;
        }
        e := step.value;
        more := Match(And);
      }
      r := Parsed(e);
    }

    /** One round of the `&&` loop, its operator consumed: the right operand, joined to the chain so far. */
    method AndStep(e: Expr) returns (r: Outcome<Expr>)
      requires Valid() && WF(e) && Rank(e) >= AndLevel
      modifies this
      decreases |tokens| - current, 45
      ensures Valid() && old(current) <= current && |old(errors)| <= |errors|
      ensures !r.Crashed? && (r.Parsed? ==> WF(r.value) && Rank(r.value) >= AndLevel)
      ensures r.Parsed? ==> r.value.Logical? && r.value.left == e && r.value.op == And
    {
      var right := Binary(EqualityLevel);
      if !right.Parsed? {
        return right;
      }
      LogicalWF(e, And, right.value);
      r := Parsed(Logical(e, And, right.value));
    }

    /**
     * equality(), comparison(), term() and factor(): the same loop at four
     * levels, each a left-leaning chain of its own operators over the next
     * tighter level (unary() below factor()).
     */
    method Binary(level: nat) returns (r: Outcome<Expr>)
      requires Valid() && EqualityLevel <= level <= FactorLevel
      modifies this
      decreases |tokens| - current, 40 - 2 * level
      ensures Valid() && old(current) <= current && |old(errors)| <= |errors|
      ensures !r.Crashed? && (r.Parsed? ==> WF(r.value) && Rank(r.value) >= level)
      ensures current == old(current) ==> r == Parsed(Missing) && errors == old(errors) + [Missed(tokens[old(current)])]
      ensures Inert(KindAt(old(current))) ==> current == old(current)
    {
      var first := Operand(level);
      if !first.Parsed? {
        return first;
      }
      var e := first.value;
      var op := tokens[current].kind;
      var more := MatchLevel(level);
      while more
        invariant Valid() && old(current) <= current && |old(errors)| <= |errors|
        invariant more ==> old(current) < current && BinaryLevel(op) == level
        invariant WF(e) && Rank(e) >= level
        invariant current == old(current) ==> e == Missing && errors == old(errors) + [Missed(tokens[old(current)])]
        invariant Inert(KindAt(old(current))) ==> current == old(current)
        decreases |tokens| - current, more
      {
        var right := Operand(level);
        if !right.Parsed? {
          return right;
        }
        BinaryWF(e, op, right.value);
        e := Ast.Binary(e, op, right.value);
        op := tokens[current].kind;
        more := MatchLevel(level);
      }
      r := Parsed(e);
    }

    /** The operand parser of a binary level: the next level, or unary() below factor(). */
    method Operand(level: nat) returns (r: Outcome<Expr>)
      requires Valid() && EqualityLevel <= level <= FactorLevel
      modifies this
      decreases |tokens| - current, 39 - 2 * level
      ensures Valid() && old(current) <= current && |old(errors)| <= |errors|
      ensures !r.Crashed? && (r.Parsed? ==> WF(r.value) && Rank(r.value) > level)
      ensures current == old(current) ==> r == Parsed(Missing) && errors == old(errors) + [Missed(tokens[old(current)])]
      ensures Inert(KindAt(old(current))) ==> current == old(current)
    {
      if level == FactorLevel {
        r := Unary();
      } else {
        r := Binary(level + 1);
      }
    }

    /**
     * unary(): `!` and `-` apply to another unary(); prefix `++`/`--` need
     * an identifier next and otherwise record an error and yield null.
     */
    method Unary() returns (r: Outcome<Expr>)
      requires Valid()
      modifies this
      decreases |tokens| - current, 14
      ensures Valid() && old(current) <= current && |old(errors)| <= |errors|
      ensures !r.Crashed? && (r.Parsed? ==> WF(r.value) && Rank(r.value) >= UnaryLevel)
      ensures current == old(current) ==> r == Parsed(Missing) && errors == old(errors) + [Missed(tokens[old(current)])]
      ensures Inert(KindAt(old(current))) ==> current == old(current)
      ensures IsUpdateOp(KindAt(old(current))) ==> old(current) + 1 < |tokens|
      ensures IsUpdateOp(KindAt(old(current))) && KindAt(old(current) + 1) == Identifier ==>
        r == Parsed(Update(tokens[old(current) + 1].lexeme, KindAt(old(current)), true)) &&
        current == old(current) + 2 && errors == old(errors)
      ensures IsUpdateOp(KindAt(old(current))) && KindAt(old(current) + 1) != Identifier ==>
        r == Parsed(Missing) && current == old(current) + 1 &&
        errors == old(errors) + [ErrorText(tokens[old(current) + 1], IdentifierAfter(KindAt(old(current))))]
    {
      var op := tokens[current].kind;
      if op == Bang || op == Minus {
        r := PrefixOperator();
        return;
      }
      if IsUpdateOp(op) {
        r := PrefixUpdate();
        return;
      }
      r := Postfix();
    }

    /** `!` or `-` of unary(), applied to the unary() that follows. */
    method PrefixOperator() returns (r: Outcome<Expr>)
      requires Valid() && (KindAt(current) == Bang || KindAt(current) == Minus)
      modifies this
      decreases |tokens| - current, 13
      ensures Valid() && old(current) < current && |old(errors)| <= |errors|
      ensures !r.Crashed? && (r.Parsed? ==> WF(r.value) && Rank(r.value) >= UnaryLevel)
      ensures r.Parsed? ==> r.value.Unary? && r.value.op == KindAt(old(current))
    {
      var op := tokens[current].kind;
      Advance();
      var right := Unary();
      if !right.Parsed? {
        return right;
      }
      UnaryWF(op, right.value);
      r := Parsed(Ast.Unary(op, right.value));
    }

    /** The prefix `++`/`--` of unary(): an identifier must follow, or an error is recorded and null yielded. */
    method PrefixUpdate() returns (r: Outcome<Expr>)
      requires Valid() && IsUpdateOp(KindAt(current))
      modifies this
      ensures Valid() && old(current) < current && |old(errors)| <= |errors|
      ensures r.Parsed? && WF(r.value) && Rank(r.value) >= UnaryLevel
      ensures old(current) + 1 < |tokens|
      ensures KindAt(old(current) + 1) == Identifier ==>
        r == Parsed(Update(tokens[old(current) + 1].lexeme, KindAt(old(current)), true)) &&
        current == old(current) + 2 && errors == old(errors)
      ensures KindAt(old(current) + 1) != Identifier ==>
        r == Parsed(Missing) && current == old(current) + 1 &&
        errors == old(errors) + [ErrorText(tokens[old(current) + 1], IdentifierAfter(KindAt(old(current))))]
    {
      var op := tokens[current].kind;
      Advance();
      var name := tokens[current].lexeme;
      var named := Match(Identifier);
      if named {
        UpdateWF(name, op, true);
        return Parsed(Update(name, op, true));
      }
      Error(IdentifierAfter(op));
      r := Parsed(Missing);
    }

    /** postfix(): a call-level expression and an optional `++`/`--`. */
    method Postfix() returns (r: Outcome<Expr>)
      requires Valid()
      modifies this
      decreases |tokens| - current, 13
      ensures Valid() && old(current) <= current && |old(errors)| <= |errors|
      ensures !r.Crashed? && (r.Parsed? ==> WF(r.value) && Rank(r.value) >= PostfixLevel)
      ensures current == old(current) ==> r == Parsed(Missing) && errors == old(errors) + [Missed(tokens[old(current)])]
      ensures Inert(KindAt(old(current))) ==> current == old(current)
    {
      var operand := Call();
      if !operand.Parsed? {
        return operand;
      }
      r := PostfixTail(operand.value);
    }

    /**
     * The rest of postfix(): after a variable, `++`/`--` make a postfix
     * update; after anything else they record "Invalid postfix operand"
     * and the operand is kept.
     */
    method PostfixTail(operand: Expr) returns (r: Outcome<Expr>)
      requires Valid() && WF(operand) && Rank(operand) >= CallLevel
      modifies this
      ensures Valid() && |old(errors)| <= |errors|
      ensures r.Parsed? && WF(r.value) && Rank(r.value) >= PostfixLevel
      ensures !IsUpdateOp(KindAt(old(current))) ==> r == Parsed(operand) && current == old(current) && errors == old(errors)
      ensures IsUpdateOp(KindAt(old(current))) && operand.Variable? ==>
        r == Parsed(Update(operand.name, KindAt(old(current)), false)) && current == old(current) + 1 && errors == old(errors)
      ensures IsUpdateOp(KindAt(old(current))) && !operand.Variable? ==>
        r == Parsed(operand) && current == old(current) + 1 && errors == old(errors) + [ErrorText(tokens[old(current) + 1], InvalidPostfix)]
      ensures Inert(KindAt(old(current))) ==> current == old(current)
    {
      var op := tokens[current].kind;
      if IsUpdateOp(op) {
        r := PostfixUpdate(operand);
        return;
      }
      r := Parsed(operand);
    }

    /** A postfix `++`/`--` after `operand`: an update of a variable, or an error that keeps the operand. */
    method PostfixUpdate(operand: Expr) returns (r: Outcome<Expr>)
      requires Valid() && WF(operand) && Rank(operand) >= CallLevel && IsUpdateOp(KindAt(current))
      modifies this
      ensures Valid() && |old(errors)| <= |errors| && current == old(current) + 1
      ensures r.Parsed? && WF(r.value) && Rank(r.value) >= PostfixLevel
      ensures operand.Variable? ==> r == Parsed(Update(operand.name, KindAt(old(current)), false)) && errors == old(errors)
      ensures !operand.Variable? ==> r == Parsed(operand) && errors == old(errors) + [ErrorText(tokens[old(current) + 1], InvalidPostfix)]
    {
      var op := tokens[current].kind;
      Advance();
      if operand.Variable? {
        UpdateWF(operand.name, op, false);
        return Parsed(Update(operand.name, op, false));
      }
      Error(InvalidPostfix);
      r := Parsed(operand);
    }

    /** call(): a primary followed by any number of calls, indexings and member accesses. */
    method Call() returns (r: Outcome<Expr>)
      requires Valid()
      modifies this
      decreases |tokens| - current, 12
      ensures Valid() && old(current) <= current && |old(errors)| <= |errors|
      ensures !r.Crashed? && (r.Parsed? ==> WF(r.value) && Rank(r.value) >= CallLevel)
      ensures current == old(current) ==> r == Parsed(Missing) && errors == old(errors) + [Missed(tokens[old(current)])]
      ensures Inert(KindAt(old(current))) ==> current == old(current)
    {
      var p := Primary();
      if !p.Parsed? {
        return p;
      }
      var e := p.value;
      while true
        invariant Valid() && old(current) <= current && |old(errors)| <= |errors|
        invariant WF(e) && Rank(e) >= CallLevel
        invariant current == old(current) ==> e == Missing && errors == old(errors) + [Missed(tokens[old(current)])]
        invariant Inert(KindAt(old(current))) ==> current == old(current)
        decreases |tokens| - current
      {
        var s, extended := CallSuffix(e);
        if !s.Parsed? {
          return s;
        }
        if !extended {
          break;
        }
        e := s.value;
      }
      r := Parsed(e);
    }

    /**
     * One round of call()'s loop: `( args )`, `[ index ]` or `. name`
     * extends the expression; any other token leaves it as it is.
     */
    method CallSuffix(e: Expr) returns (r: Outcome<Expr>, extended: bool)
      requires Valid() && WF(e) && Rank(e) >= CallLevel
      modifies this
      decreases |tokens| - current, 11
      ensures Valid() && old(current) <= current && |old(errors)| <= |errors|
      ensures !r.Crashed? && (r.Parsed? ==> WF(r.value) && Rank(r.value) >= CallLevel)
      ensures extended <==> StartsSuffix(KindAt(old(current)))
      ensures !extended ==> r == Parsed(e) && current == old(current) && errors == old(errors)
      ensures extended ==> old(current) < current
      ensures Inert(KindAt(old(current))) ==> !extended
    {
      var k := tokens[current].kind;
      extended := StartsSuffix(k);
      if !extended {
        return Parsed(e), false;
      }
      Advance();
      r := Suffix(e, k);
    }

    /** The suffix `k` opened, its token consumed: the arguments, the index or the member name. */
    method Suffix(e: Expr, k: TokenType) returns (r: Outcome<Expr>)
      requires Valid() && WF(e) && Rank(e) >= CallLevel && StartsSuffix(k)
      modifies this
      decreases |tokens| - current + 1, 10
      ensures Valid() && old(current) <= current && |old(errors)| <= |errors|
      ensures !r.Crashed? && (r.Parsed? ==> WF(r.value) && Rank(r.value) >= CallLevel)
    {
      if k == LeftParen {
        r := FinishCall(e);
      } else if k == LeftBracket {
        r := FinishIndex(e);
      } else {
        r := MemberName(e);
      }
    }

    /** The property name after `.` in call(). */
    method MemberName(obj: Expr) returns (r: Outcome<Expr>)
      requires Valid() && WF(obj) && Rank(obj) >= CallLevel
      modifies this
      ensures Valid() && |old(errors)| <= |errors|
      ensures CheckAt(old(current), Identifier) ==>
        r == Parsed(Member(obj, tokens[old(current)].lexeme)) && current == old(current) + 1 && errors == old(errors)
      ensures !CheckAt(old(current), Identifier) ==>
        r == Thrown && current == old(current) && errors == old(errors) + [ErrorText(tokens[old(current)], PropertyName)]
      ensures r.Parsed? ==> WF(r.value) && Rank(r.value) == CallLevel
    {
      var name := tokens[current].lexeme;
      var ok := Consume(Identifier, PropertyName);
      if !ok {
        return Thrown;
      }
      MemberWF(obj, name);
      r := Parsed(Member(obj, name));
    }

    /**
     * finishCall(): the arguments after `(`, comma-separated, then `)`.
     * Past 255 arguments an error is recorded and parsing goes on.
     */
    method FinishCall(callee: Expr) returns (r: Outcome<Expr>)
      requires Valid() && WF(callee) && Rank(callee) >= CallLevel
      modifies this
      decreases |tokens| - current + 1, 9
      ensures Valid() && old(current) <= current && |old(errors)| <= |errors|
      ensures !r.Crashed? && (r.Parsed? ==> WF(r.value) && Rank(r.value) == CallLevel && r.value.Call? && r.value.callee == callee)
      ensures r.Parsed? ==> old(current) < current
      ensures r.Parsed? && |r.value.args| > 255 ==> hadError
      ensures CheckAt(old(current), RightParen) ==> r == Parsed(Ast.Call(callee, [])) && current == old(current) + 1 && errors == old(errors)
    {
      var args: seq<Expr> := [];
      if !CheckAt(current, RightParen) {
        var parsed := Arguments();
        if !parsed.Parsed? {
          return Thrown;
        }
        args := parsed.value;
      }
      var ok := Consume(RightParen, AfterArguments);
      if !ok {
        return Thrown;
      }
      CallWF(callee, args);
      r := Parsed(Ast.Call(callee, args));
    }

    /**
     * The argument loop of finishCall(): comma-separated expressions, with
     * "Can't have more than 255 arguments" recorded before each one past
     * the 255th.
     */
    method Arguments() returns (r: Outcome<seq<Expr>>)
      requires Valid()
      modifies this
      decreases |tokens| - current + 1, 8
      ensures Valid() && old(current) <= current && |old(errors)| <= |errors|
      ensures !r.Crashed? && (r.Parsed? ==> forall i :: 0 <= i < |r.value| ==> WF(r.value[i]))
      ensures r.Parsed? && |r.value| > 255 ==> hadError
    {
      var args: seq<Expr> := [];
      var more := true;
      while more
        invariant Valid() && old(current) <= current && |old(errors)| <= |errors|
        invariant forall i :: 0 <= i < |args| ==> WF(args[i])
        invariant |args| > 255 ==> hadError
        decreases |tokens| - current, more
      {
        if |args| >= 255 {
          Error(TooManyArguments);
        }
        var a := Expression();
        if !a.Parsed? {
          return Thrown;
        }
        args := args + [a.value];
        more := Match(Comma);
      }
      r := Parsed(args);
    }

    /** finishIndexOrMember(): the index after `[`, then `]`. */
    method FinishIndex(obj: Expr) returns (r: Outcome<Expr>)
      requires Valid() && WF(obj) && Rank(obj) >= CallLevel
      modifies this
      decreases |tokens| - current + 1, 9
      ensures Valid() && old(current) <= current && |old(errors)| <= |errors|
      ensures !r.Crashed? && (r.Parsed? ==> WF(r.value) && Rank(r.value) == CallLevel && r.value.Index? && r.value.obj == obj)
      ensures r.Parsed? ==> old(current) < current
    {
      var i := Expression();
      if !i.Parsed? {
        return i;
      }
      var ok := Consume(RightBracket, AfterIndex);
      if !ok {
        return Thrown;
      }
      IndexWF(obj, i.value);
      r := Parsed(Index(obj, i.value));
    }

    /**
     * primary(): literals, names, a parenthesised expression, an array
     * literal; anything else records "Expected expression" and yields the
     * null node without consuming the token.
     */
    method Primary() returns (r: Outcome<Expr>)
      requires Valid()
      modifies this
      decreases |tokens| - current, 9
      ensures Valid() && old(current) <= current && |old(errors)| <= |errors|
      ensures !r.Crashed? && (r.Parsed? ==> WF(r.value) && Rank(r.value) >= CallLevel)
      ensures current == old(current) <==> !StartsPrimary(KindAt(old(current)))
      ensures current == old(current) ==> r == Parsed(Missing) && errors == old(errors) + [Missed(tokens[old(current)])]
      ensures IsLeaf(KindAt(old(current))) ==>
        r == Parsed(LeafOf(tokens[old(current)])) && current == old(current) + 1 && errors == old(errors)
    {
      var t := tokens[current];
      if !StartsPrimary(t.kind) {
        LeafWF(LNil, t.lexeme);
        Error(ExpectExpression);
        return Parsed(Missing);
      }
      Advance();
      if IsLeaf(t.kind) {
        LeafOfWF(t);
        r := Parsed(LeafOf(t));
      } else {
        r := Bracketed(t.kind);
      }
    }

    /** The primary that `(` or `[` opened, its token consumed: a grouping or an array literal. */
    method Bracketed(k: TokenType) returns (r: Outcome<Expr>)
      requires Valid() && (k == LeftParen || k == LeftBracket)
      modifies this
      decreases |tokens| - current + 1, 8
      ensures Valid() && old(current) <= current && |old(errors)| <= |errors|
      ensures !r.Crashed? && (r.Parsed? ==> WF(r.value) && Rank(r.value) >= CallLevel)
    {
      if k == LeftParen {
        r := Group();
      } else {
        r := ArrayLiteral();
      }
    }

    /** A parenthesised expression after `(`, kept as a grouping node. */
    method Group() returns (r: Outcome<Expr>)
      requires Valid()
      modifies this
      decreases |tokens| - current + 1, 7
      ensures Valid() && old(current) <= current && |old(errors)| <= |errors|
      ensures !r.Crashed? && (r.Parsed? ==> WF(r.value) && r.value.Grouping? && old(current) < current)
    {
      var inner := Expression();
      if !inner.Parsed? {
        return inner;
      }
      var ok := Consume(RightParen, AfterGroup);
      if !ok {
        return Thrown;
      }
      GroupingWF(inner.value);
      r := Parsed(Grouping(inner.value));
    }

    /**
     * arrayLiteral(): after `[`, either `]` at once or comma-separated
     * elements with an optional trailing comma, then `]`.
     */
    method ArrayLiteral() returns (r: Outcome<Expr>)
      requires Valid()
      modifies this
      decreases |tokens| - current + 1, 7
      ensures Valid() && old(current) <= current && |old(errors)| <= |errors|
      ensures !r.Crashed? && (r.Parsed? ==> WF(r.value) && r.value.ArrayLit?)
      ensures CheckAt(old(current), RightBracket) ==> r == Parsed(ArrayLit([])) && current == old(current) + 1 && errors == old(errors)
      ensures r.Parsed? && !CheckAt(old(current), RightBracket) ==> |r.value.elements| > 0
    {
      if CheckAt(current, RightBracket) {
        Advance();
        ArrayWF([]);
        return Parsed(ArrayLit([]));
      }
      r := ClosedElements();
    }

    /** A non-empty element list and the `]` that must close it. */
    method ClosedElements() returns (r: Outcome<Expr>)
      requires Valid()
      modifies this
      decreases |tokens| - current + 1, 6
      ensures Valid() && old(current) <= current && |old(errors)| <= |errors|
      ensures !r.Crashed? && (r.Parsed? ==> WF(r.value) && r.value.ArrayLit?)
      ensures r.Parsed? ==> (r.value.elements == [] <==> CheckAt(old(current), RightBracket))
    {
      var elements := Elements();
      if !elements.Parsed? {
        return Thrown;
      }
      var ok := Consume(RightBracket, AfterElements);
      if !ok {
        return Thrown;
      }
      ArrayWF(elements.value);
      r := Parsed(ArrayLit(elements.value));
    }

    /**
     * The elements of arrayLiteral(): expressions separated by commas; a
     * comma followed by `]` ends the list, so a trailing comma is allowed.
     */
    method Elements() returns (r: Outcome<seq<Expr>>)
      requires Valid()
      modifies this
      decreases |tokens| - current + 1, 5
      ensures Valid() && old(current) <= current && |old(errors)| <= |errors|
      ensures !r.Crashed? && (r.Parsed? ==> forall i :: 0 <= i < |r.value| ==> WF(r.value[i]))
      ensures r.Parsed? ==> (r.value == [] <==> CheckAt(old(current), RightBracket))
    {
      var elements: seq<Expr> := [];
      var more := true;
      ghost var closed := CheckAt(current, RightBracket);
      while more
        invariant Valid() && old(current) <= current && |old(errors)| <= |errors|
        invariant forall i :: 0 <= i < |elements| ==> WF(elements[i])
        invariant |elements| == 0 ==> current == old(current) && more
        invariant |elements| > 0 ==> !closed
        decreases |tokens| - current, more
      {
        if CheckAt(current, RightBracket) {
          break;
        }
        var x := Expression();
        if !x.Parsed? {
          return Thrown;
        }
        elements := elements + [x.value];
        more := Match(Comma);
      }
      r := Parsed(elements);
    }
  }
}

# VoltScript core in Dafny

VoltScript is a small dynamically typed scripting language. Its C++ interpreter works in three stages:

1. A hand-written lexer turns source text into tokens.
2. A recursive-descent parser builds expression and statement trees.
3. A tree-walking interpreter runs the trees against a chain of scopes.

This project models those stages in Dafny:

- **`Lexing`**: the lexer of `src/lexer/lexer.cpp`, as a class whose cursor moves over the source.
  - Every method of the class is proved against a pure function. `Lexed`, `Skipped`, `Scanned`, `NumberToken`, `WordToken` and `StringToken` say which tokens come out and where the cursor ends.
  - `LexerFacts` proves what the token stream looks like: longest match, keywords, escapes, comments, errors, and a single final Eof.
- **`LegacyLexing`**: the older arithmetic-only lexer of `src/lexer.cpp` and the token names of `src/token.cpp`.
- **`Parsing`**: the two parsers, `src/parser/parser.cpp` and the older `src/parser.cpp`.
  - They share one `Parser` class with a `legacy` flag.
  - The class holds the token list, the current position and the error list.
  - Every parsing method returns `Parsed`, `Thrown` or `Crashed`:
    - `Thrown` is the runtime error that `consume()` throws.
    - `Crashed` is a read through a null expression.
  - The contracts say where the position ends, which errors are recorded, and that every tree obeys the precedence shape `Ast.WF`.
  - `ParserFacts` proves that every token list the lexer makes is one the parser accepts.
- **`Ast`**: the expression and statement trees. `Printer` is `printAST` of `src/ast.cpp`.
- **`Values`** and **`Operators`**: the runtime values of `src/value.cpp` and the operators of `src/interpreter.cpp`, on values.
  - Arrays and callables are heap objects that values share by reference.
  - `VoltArray` is `src/array.cpp`.
- **`HashMaps`**: the dictionary of `src/features/hashmap.h`. Its iteration order is kept as state.
- **`Environments`**: the scope chain of `src/environment.cpp`.
  - It is a linked list of `Environment` objects whose maps change in place.
  - Each object is specified by the sequence of its maps, innermost first.
- **`Interpreting`**: the `Interpreter` class of `src/interpreter.cpp`.
  - `evaluate` and `execute` are methods over the current scope, the global scope and the printed output.
  - Break, continue, return and runtime errors, which the source throws, come back as `Flow` and `Eval` outcomes.
- **`Semantics`**: a reference semantics, as pure functions: `PureEval` for expressions, `PureExec`, `PureList` and `PureLoop` for statements.
  - It covers assignments (`=`, compound assignment, `++`/`--`) and array values that pass through variables, `==`, `let` and binary operators.
  - It gives no outcome (`None`) for calls, array literals, indexing, index assignment and member access; for a unary, logical or ternary node whose operand or condition is an array; for an if, while or for whose condition is an array; for a function declaration; and for printing an array.
  - Every `Interpreter` method states that its outcome, the scopes afterwards and the lines it printed are the reference's whenever the reference gives one (`EvalAgrees`, `ExecAgrees`, `StepAgrees`).
  - The ghost outcomes the methods return (a condition's value, the body's flow, the values of the operands) are tied the same way to the reference for the sub-expression or sub-statement.
- **`SemanticsFacts`**: what the reference, and so the interpreter, does: short-circuiting, left-to-right evaluation, let binding, scoping, loop entry, break and continue, and worked examples.
- **`OldEvaluator`**: the single-scope `Evaluator` of `src/evaluator.cpp`. It is proved equal to a pure function `Run`.

Numbers are modelled as exact reals. Loops run on a fuel bound, and array printing has a depth bound. Running out of either is the outcome `Stopped` (statements) or `Beyond` (expressions). `Beyond` also covers anything this model does not follow, such as calling a user function.

## Model

| member | source | states |
|---|---|---|
| Text.NatToStringRoundTrip | src/value.cpp:49-51 | the decimal text of a whole number reads back as that number |
| Text.NatToStringInjective | src/value.cpp:49-51 | different whole numbers print differently |
| Text.IntegerNumberText | src/value.cpp:44-59 | a whole number prints as its integer text, with a minus sign exactly when it is negative and no decimal point |
| Text.NumberTextRoundTrip | src/value.cpp:44-59 | the printed text of a non-negative whole number parses back as that number |
| Text.FixedSixOfNat | src/ast.cpp:9-10 | std::to_string of a whole number is its digits followed by ".000000" |
| Text.DecimalValueOfNat | src/lexer/lexer.cpp:124-135 | a digit string has the decimal value it spells |
| Text.TrimZeros | src/value.cpp:53-56 | the result is a prefix of the input, has no trailing '0', and only '0's were cut |
| Tokens.Lookup | src/lexer/lexer.cpp:137-146 | the keyword table lookup succeeds exactly for a word in the table, giving its own kind |
| Lexing.Lexer.constructor | src/lexer/lexer.cpp:24 | a new lexer starts at position 0, line 1, column 1 of its source |
| Lexing.Lexer.Tokenize | src/lexer/lexer.cpp:26-40 | the tokens returned are exactly `Lexed` from the starting cursor |
| Lexing.Lexer.SkipWhitespace | src/lexer/lexer.cpp:193-209 | the cursor ends where `Skipped` says: past blanks, newlines (which count lines and reset the column) and line comments |
| Lexing.Lexer.ScanToken | src/lexer/lexer.cpp:42-122 | the token and the new cursor are `Scanned`'s; at least one character is consumed |
| Lexing.Lexer.ScanNumber | src/lexer/lexer.cpp:124-135 | the token and the cursor are `NumberToken`'s: digits, then a fraction only when a digit follows the '.' |
| Lexing.Lexer.ScanIdentifier | src/lexer/lexer.cpp:137-146 | the token and the cursor are `WordToken`'s: the longest alphanumeric run, with its keyword kind |
| Lexing.Lexer.ScanString | src/lexer/lexer.cpp:148-191 | the token and the cursor are `StringToken`'s, with escapes decoded and line and column kept |
| Lexing.Lexer.Match | src/lexer/lexer.cpp:226-232 | the cursor advances by one exactly when the next character is the expected one |
| Lexing.Lexer.Advance | src/lexer/lexer.cpp:211-214 | returns the current character and moves position and column forward by one |
| Lexing.ScannedAdvances | src/lexer/lexer.cpp:42-122 | scanning a token always consumes input and never yields Eof |
| Lexing.SkippedCountsLines | src/lexer/lexer.cpp:193-209 | skipping raises the line number by the number of newlines skipped |
| Lexing.SkippedIdempotent | src/lexer/lexer.cpp:193-209 | skipping twice is skipping once, and does not change the tokens that follow |
| Lexing.CommentEnd | src/lexer/lexer.cpp:204-206 | a line comment ends at the next newline or at the end of the source, on the same line |
| LexerFacts.TokenizedEofOnce | src/lexer/lexer.cpp:26-40 | every token stream ends in exactly one Eof, and it is last |
| LexerFacts.UnrecognisedIsError | src/lexer/lexer.cpp:121 | a character that starts no token becomes a one-character Error token |
| LexerFacts.GreedyIncrement | src/lexer/lexer.cpp:66-69 | "++" is one PlusPlus token, never two Plus tokens |
| LexerFacts.GreedyDecrement | src/lexer/lexer.cpp:71-74 | "--" is one MinusMinus token |
| LexerFacts.TriplePlus | src/lexer/lexer.cpp:66-69 | "+++" lexes as "++" then "+", with their columns |
| LexerFacts.WordKindKeyword | src/lexer/lexer.cpp:6-22 | a word gets a non-identifier kind exactly when it is in the keyword table, and that kind is a keyword kind |
| LexerFacts.WordTokenMaximal | src/lexer/lexer.cpp:137-146 | an identifier token is a maximal alphanumeric run, and its kind comes from the keyword table |
| LexerFacts.NumberTokenShape | src/lexer/lexer.cpp:124-135 | a number token is followed by no digit, and its text has a decimal value |
| LexerFacts.TrailingDot | src/lexer/lexer.cpp:127-130 | "1." lexes as Number "1", then Dot, then Eof |
| LexerFacts.NoSignedLiteral | src/lexer/lexer.cpp:71-74 | "-1" lexes as Minus then Number: literals carry no sign |
| LexerFacts.StringTokenPlain | src/lexer/lexer.cpp:148-191 | a string without escapes is a String token whose value is the text between the quotes |
| LexerFacts.DecodedEscape | src/lexer/lexer.cpp:158-176 | the escape `\t` in a string literal decodes to a tab |
| LexerFacts.UnterminatedString | src/lexer/lexer.cpp:182-184 | a string with no closing quote is an Error token "Unterminated string" at its opening column |
| LexerFacts.BlankSourceOnlyEof | src/lexer/lexer.cpp:26-40 | a source of blanks gives only Eof, on the line after the last newline |
| LexerFacts.CommentProducesNothing | src/lexer/lexer.cpp:204-206 | a line comment contributes no tokens |
| LegacyLexing.TokenName | src/token.cpp:5-16 | every legacy token kind has a name other than "UNKNOWN" |
| LegacyLexing.TokenNamesDistinct | src/token.cpp:5-16 | no two kinds share a name |
| LegacyLexing.SkipBlanks | src/lexer.cpp:22-25 | skipping stops at the end of the source or at a non-blank character |
| LegacyLexing.SkipBlanksCountsLines | src/lexer.cpp:22-25 | the line number rises by the number of newlines skipped |
| LegacyLexing.DotAtEndReadsPastEnd | src/lexer.cpp:44-55 | on "1.", number() as written reads the character after the last one |
| LegacyLexing.ReadsPastEndExactly | src/lexer.cpp:47 | the read past the end happens exactly when the digit run stops at a final '.' |
| LegacyLexing.NumberEndAgrees | src/lexer.cpp:44-55 | wherever number() as written stays in bounds, it ends where the bounds-checked version ends |
| LegacyLexing.Scan | src/lexer.cpp:20-42 | the scan consumes input; it yields Eof exactly when only blanks remain; a non-Eof token ends on a non-blank character |
| LegacyLexing.LexedEndsWithEof | src/lexer.cpp:8-18 | tokenize() always ends with Eof |
| LegacyLexing.TrailingBlankDoubleEof | src/lexer.cpp:8-27 | a source ending in a blank ends in two Eof tokens: scanToken's and tokenize's own |
| LegacyLexing.OthersAreErrors | src/lexer.cpp:41 | every character other than a digit, a blank or `+ - * /` is a one-character Error token |
| LegacyLexing.CarriageReturnIsError | src/lexer.cpp:22-41 | '\r' is not a blank to this lexer: "\r(" gives two Error tokens |
| LegacyLexing.Lexer.constructor | src/lexer.cpp:6 | a new lexer starts at position 0 on line 1 |
| LegacyLexing.Lexer.Tokenize | src/lexer.cpp:8-18 | the tokens returned are exactly `Lexed` from the starting position and line |
| LegacyLexing.Lexer.ScanToken | src/lexer.cpp:20-42 | the token, position and line are `Scan`'s |
| LegacyLexing.Lexer.Number | src/lexer.cpp:44-55 | the number ends where the bounds-checked `NumberEnd` does, and its lexeme is the text scanned |
| Ast.AssignTarget | src/parser/parser.cpp:240-280 | an `=` builds a node exactly for a variable or index target, at assignment rank |
| Ast.AssignTargetRoundTrip | src/parser/parser.cpp:240-280 | the node built for an assignment gives back its target and its value |
| Ast.BinaryLeansLeft | src/parser/parser.cpp:321-368 | a binary node's right operand, when binary, binds tighter: equal-precedence chains nest to the left |
| Ast.TernaryNestsRight | src/parser/parser.cpp:282-295 | a ternary's condition is never a ternary or an assignment: `?:` nests to the right |
| Ast.PrecedenceOrder | src/parser/parser.cpp:321-356 | under `+`/`-` no comparison or equality appears as an operand, and no term appears on the right |
| Ast.BinaryWF | src/parser/parser.cpp:321-368 | a binary node over operands of the right ranks keeps the precedence shape |
| Ast.TernaryWF | src/parser/parser.cpp:282-295 | a ternary over a logical-or condition keeps the precedence shape |
| Ast.UnaryWF | src/parser/parser.cpp:370-391 | a unary node over a unary-level operand keeps the precedence shape |
| Parsing.Parser.constructor | src/parser/parser.cpp:6 | a new parser starts at the first token with no errors |
| Parsing.Parser.ParseProgram | src/parser/parser.cpp:10-22 | parsing stops at Eof with well-shaped statements; the older parser never crashes; the newer one crashes when the program's first token starts neither a statement nor an expression |
| Parsing.Parser.ParseExpression | src/parser/parser.cpp:24-30 | yields a well-shaped expression; with no expression at the cursor it records "Expected expression" and consumes nothing |
| Parsing.Parser.Statement | src/parser/parser.cpp:34-48 | a parsed statement consumes tokens, is well shaped and is of the kind its first keyword selects |
| Parsing.Parser.SimpleStatement | src/parser/parser.cpp:35-40 | print, let, fn, return, break and continue: a parsed statement is well shaped and of the kind its keyword selects; the older parser never crashes |
| Parsing.Parser.CompoundStatement | src/parser/parser.cpp:41-45 | if, while, run, for and block statements: a parsed statement is well shaped and of the kind its keyword selects; the older parser never crashes |
| Parsing.Parser.PrintStatement | src/parser/parser.cpp:50-55 | a print statement is parsed or thrown, never crashes |
| Parsing.Parser.LetStatement | src/parser/parser.cpp:57-68 | a let binds the identifier after `let`; with no `=` its initializer is absent; a missing name is thrown with "Expected variable name" |
| Parsing.Parser.LetInitializer | src/parser/parser.cpp:61-64 | without `=` the initializer is absent and nothing is consumed or recorded; with it, a well-shaped expression |
| Parsing.Parser.FnStatement | src/parser/parser.cpp:70-105 | a declaration is named by the identifier after `fn`; more than 255 parameters records an error |
| Parsing.Parser.Parameters | src/parser/parser.cpp:77-87 | `)` at once gives no parameters; more than 255 records an error |
| Parsing.Parser.ReturnStatement | src/parser/parser.cpp:107-118 | `return;` gives a return with no value |
| Parsing.Parser.BreakStatement | src/parser/parser.cpp:120-124 | `break;` consumes the semicolon; without it the statement is thrown with the message recorded |
| Parsing.Parser.ContinueStatement | src/parser/parser.cpp:126-130 | `continue;` consumes the semicolon; without it the statement is thrown with the message recorded |
| Parsing.Parser.IfStatement | src/parser/parser.cpp:132-148 | an if statement parses into a well-shaped If node |
| Parsing.Parser.ElseBranch | src/parser/parser.cpp:139-143 | there is an else branch exactly when `else` follows |
| Parsing.Parser.Condition | src/parser/parser.cpp:132-159 | a condition needs `(`; without it the statement is thrown with that message |
| Parsing.Parser.WhileStatement | src/parser/parser.cpp:150-159 | a while statement parses into a well-shaped While node |
| Parsing.Parser.RunUntilStatement | src/parser/parser.cpp:161-177 | a run-until statement parses into a well-shaped RunUntil node |
| Parsing.Parser.UntilClause | src/parser/parser.cpp:168-176 | after the body, `until` must follow, otherwise the statement is thrown with "Expected 'until' after run body" recorded at that token; a parsed statement keeps the body |
| Parsing.Parser.ForStatement | src/parser/parser.cpp:179-213 | a for statement parses into a well-shaped For node |
| Parsing.Parser.LoopClause | src/parser/parser.cpp:193-205 | a clause whose closing `;` or `)` comes at once is absent (Missing), and that token is consumed with no error; a parsed clause is well shaped and consumes tokens |
| Parsing.Parser.ForInitializer | src/parser/parser.cpp:183-191 | the initializer is absent exactly for `;`, and is a let exactly when `let` follows |
| Parsing.Parser.BlockStatement | src/parser/parser.cpp:215-225 | a block parses into a Block of well-shaped statements |
| Parsing.Parser.StatementsUntilBrace | src/parser/parser.cpp:219-221 | the statements of a block or function body, up to `}` or the end, are all well shaped; the older parser never crashes |
| Parsing.Parser.BlockMember | src/parser/parser.cpp:220 | each statement of a body is well shaped and consumes tokens |
| Parsing.Parser.ExpressionStatement | src/parser/parser.cpp:227-232 | in the newer parser, a statement with no expression reads the token of a null node (Crashed); the older parser never crashes |
| Parsing.Parser.ExpressionEnd | src/parser/parser.cpp:228-231 | in the newer parser a null expression crashes where its token is read; otherwise a `;` must follow, and the statement holds the expression unchanged |
| Parsing.Parser.Expression | src/parser/parser.cpp:236-238 | the tree is well shaped; when nothing is consumed it is the missing expression, with "Expected expression" recorded |
| Parsing.Parser.AssignmentTail | src/parser/parser.cpp:240-280 | `=` on a variable or index target builds the assignment; on another target it keeps the target and the last recorded error is "Invalid assignment target" at the current token; a compound operator on a non-variable ends with "Invalid compound assignment target" there; no compound operator is left unread |
| Parsing.Parser.CompoundTail | src/parser/parser.cpp:266-277 | a compound operator on a variable builds a compound assignment; on any other target it keeps the target and the last recorded error is "Invalid compound assignment target" at the current token |
| Parsing.Parser.CompoundValue | src/parser/parser.cpp:269-276 | the assigned value is a whole assignment(); a variable target gives a compound assignment to that name with that operator, any other target is kept and the last recorded error is "Invalid compound assignment target" at the current token |
| Parsing.Parser.Ternary | src/parser/parser.cpp:282-295 | the result has at least ternary rank |
| Parsing.Parser.Assignment | src/parser/parser.cpp:240-280 | a well-shaped expression; a position that starts no expression records "Expected expression" and gives the null node; no compound operator follows a parsed result |
| Parsing.Parser.AssignValue | src/parser/parser.cpp:244-261 | after `=`, a variable or index target becomes an assignment to that target; any other target is kept and "Invalid assignment target" is the last error recorded |
| Parsing.Parser.TernaryRest | src/parser/parser.cpp:285-292 | after `?`, a ternary node whose condition is the expression already parsed, of ternary rank |
| Parsing.Parser.LogicalOr | src/parser/parser.cpp:297-307 | the result has at least logical-or rank |
| Parsing.Parser.OrStep | src/parser/parser.cpp:300-304 | one `||` round: a logical node whose left operand is the chain so far, of logical-or rank |
| Parsing.Parser.LogicalAnd | src/parser/parser.cpp:309-319 | the result has at least logical-and rank |
| Parsing.Parser.AndStep | src/parser/parser.cpp:312-316 | one `&&` round: a logical node whose left operand is the chain so far, of logical-and rank |
| Parsing.Parser.Binary | src/parser/parser.cpp:321-368 | the equality, comparison, term and factor loops build left-leaning chains of at least their own rank |
| Parsing.Parser.Operand | src/parser/parser.cpp:321-368 | the operand of each binary level has a higher rank than the level; an empty position records "Expected expression" and gives the null node |
| Parsing.Parser.Unary | src/parser/parser.cpp:370-391 | a prefix `++`/`--` needs an identifier and builds a prefix update; otherwise it records an error |
| Parsing.Parser.PrefixOperator | src/parser/parser.cpp:372-376 | `!` or `-` builds a unary node with that operator, over a unary-rank operand, and consumes tokens |
| Parsing.Parser.PrefixUpdate | src/parser/parser.cpp:379-388 | `++`/`--` followed by an identifier builds a prefix update of that name; otherwise "Expected identifier after" the operator is recorded at the next token and the null node results |
| Parsing.Parser.Postfix | src/parser/parser.cpp:393-406 | a call-level expression with an optional postfix update; the result has at least postfix rank, and an empty position records "Expected expression" |
| Parsing.Parser.Call | src/parser/parser.cpp:408-425 | a primary followed by calls, indexings and member accesses; the result has at least call rank, and an empty position records "Expected expression" |
| Parsing.Parser.PostfixTail | src/parser/parser.cpp:393-406 | a postfix `++`/`--` on a variable builds a postfix update, on anything else it records "Invalid postfix operand" |
| Parsing.Parser.PostfixUpdate | src/parser/parser.cpp:397-403 | the operator is consumed; a variable becomes a postfix update of that name, any other operand is kept with "Invalid postfix operand" recorded at the next token |
| Parsing.Parser.CallSuffix | src/parser/parser.cpp:408-425 | a suffix is taken exactly when `(`, `[` or `.` follows |
| Parsing.Parser.FinishCall | src/parser/parser.cpp:427-443 | the call keeps its callee; `()` gives no arguments; more than 255 arguments records an error |
| Parsing.Parser.Arguments | src/parser/parser.cpp:431-438 | every argument is a well-formed expression, and more than 255 of them leaves the error flag set |
| Parsing.Parser.FinishIndex | src/parser/parser.cpp:469-476 | an index node keeps the indexed object |
| Parsing.Parser.MemberName | src/parser/parser.cpp:416-418 | `.` needs a property name; it then builds the member node |
| Parsing.Parser.Primary | src/parser/parser.cpp:478-521 | a token that starts no primary records "Expected expression" and consumes nothing; a literal or name becomes its leaf |
| Parsing.Parser.Group | src/parser/parser.cpp:507-512 | a parenthesised expression becomes a grouping node and consumes tokens |
| Parsing.Parser.ArrayLiteral | src/parser/parser.cpp:445-466 | `[]` is the empty array literal with nothing recorded; a literal not closed at once has at least one element |
| Parsing.Parser.ClosedElements | src/parser/parser.cpp:449-463 | the element list is empty exactly when `]` follows `[` at once |
| Parsing.Parser.Elements | src/parser/parser.cpp:455-461 | every element is well shaped, and there are none exactly when `]` comes at once |
| Parsing.Parser.Advance | src/parser/parser.cpp:525-528 | the cursor moves by one except at Eof |
| Parsing.Parser.Match | src/parser/parser.cpp:543-549 | the cursor moves by one exactly when the expected kind is current |
| Parsing.Parser.Consume | src/parser/parser.cpp:561-565 | the expected token is consumed; otherwise the message is recorded with its position and nothing moves |
| Parsing.Parser.Error | src/parser/parser.cpp:573-585 | the error text `[Line L, Col C] Error at ...` is appended and hadError is set |
| Parsing.Parser.Synchronize | src/parser/parser.cpp:587-608 | skips to the first token after a `;` or before a statement keyword, and stops at Eof |
| ParserFacts.ScannedNumberHasValue | src/lexer/lexer.cpp:124-135 | every Number token text has a decimal value, so std::stod in primary() never fails |
| ParserFacts.TokenizedParsable | src/parser/parser.cpp:478-521 | every token list the lexer gives ends in Eof and has readable numbers |
| Printer.PrintAST | src/ast.cpp:6-112 | operator, call, assignment, update, ternary and grouping nodes print as one parenthesised form; array literals print in brackets |
| Printer.PrintedOperator | src/ast.cpp:30-44 | two binary (or two logical) nodes whose operators have different texts never print alike |
| Printer.OperatorEnds | src/ast.cpp:30-44 | two parenthesised forms that start with different space-free operator words differ |
| Printer.WholeNumberLiteral | src/ast.cpp:9-10 | a whole-number literal prints with six decimals |
| Printer.CallWithoutArguments | src/ast.cpp:50-58 | a call without arguments prints as `(call callee)` |
| Printer.CallArgumentsInOrder | src/ast.cpp:50-58 | each added argument is printed after the earlier ones |
| Printer.PrintArgsAppend | src/ast.cpp:53-55 | printing a joined argument list joins the printed lists |
| Printer.UpdateFormsDiffer | src/ast.cpp:68-74 | prefix and postfix updates of a name never print alike |
| Printer.ElementsAppend | src/ast.cpp:86-95 | one more element is printed after the earlier ones, separated by `, ` only when there are earlier ones |
| Printer.ArrayElementsInOrder | src/ast.cpp:86-95 | an array literal prints `[`, its elements in order separated by `, `, then `]` |
| Values.FalsyValues | src/value.cpp:10-17 | exactly nil, false, 0, "" and the empty array are falsy |
| Values.IsEqualIsIdentity | src/value.cpp:19-42 | isEqual is symmetric and holds exactly for identical values (arrays and callables by reference) |
| Values.ArraysCompareByReference | src/value.cpp:36-39 | two distinct arrays are unequal whatever they hold |
| Values.ScalarTexts | src/value.cpp:44-64 | `ValueText` of nil, booleans, strings and whole numbers is as in the source |
| Values.ArrayTexts | src/array.cpp:39-48 | `ValueText` of an array is `[]` or its elements' texts joined by ", " in brackets |
| Values.SelfContainingHasNoText | src/array.cpp:39-48 | an array holding itself has no finite text |
| Values.PushThenPop | src/array.cpp:26-37 | pop after push returns the pushed value and restores the contents |
| Values.PopShortens | src/array.cpp:30-37 | pop of an empty array gives nil; otherwise it removes and returns the last element |
| Values.VoltArray.constructor | src/array.cpp:7-8 | the array holds the given elements |
| Values.VoltArray.Get | src/array.cpp:10-16 | succeeds exactly for an index in range with that element, and fails with "Array index out of bounds: i" otherwise |
| Values.VoltArray.Set | src/array.cpp:18-24 | replaces exactly one element when the index is in range, and changes nothing otherwise |
| Values.VoltArray.Push | src/array.cpp:26-28 | appends one element |
| Values.VoltArray.Pop | src/array.cpp:30-37 | pops as `Popped` says |
| Values.VoltArray.ToString | src/array.cpp:39-48 | the text is the array's value text |
| HashMaps.VoltHashMap.constructor | src/features/hashmap.h:25 | a new map is empty |
| HashMaps.VoltHashMap.Size | src/features/hashmap.h:31 | the size is the number of keys and the length of the iteration |
| HashMaps.VoltHashMap.Empty | src/features/hashmap.h:34 | empty exactly when the size is 0 |
| HashMaps.VoltHashMap.Get | src/features/hashmap.h:37-48 | `contains` is membership of the key; a present key gives its value; an absent key gives nil |
| HashMaps.VoltHashMap.Set | src/features/hashmap.h:51-53 | the key takes the value and other keys keep theirs; a new key is inserted somewhere in the iteration order |
| HashMaps.VoltHashMap.Remove | src/features/hashmap.h:56-58 | reports whether the key was present and removes exactly that key; the remaining keys keep their relative iteration order, and an absent key changes nothing |
| HashMaps.VoltHashMap.GetKeys | src/features/hashmap.h:61-68 | every key exactly once, in iteration order |
| HashMaps.VoltHashMap.GetValues | src/features/hashmap.h:71-78 | each value at the position of its key in getKeys |
| HashMaps.VoltHashMap.Clear | src/features/hashmap.h:81 | no entries remain |
| HashMaps.EqualityIgnoresOrder | src/features/hashmap.h:84-86 | `Equals` (operator==) holds, both ways, for maps with the same entries whatever their order, and they give the same values |
| HashMaps.EqualityNeedsSameValues | src/features/hashmap.h:84-86 | maps that differ in one key's value are unequal |
| HashMaps.DistinctCardinality | src/features/hashmap.h:61-68 | a list of distinct keys is as long as its set |
| Environments.LookupFindsNearest | src/environment.cpp:10-23 | get succeeds exactly for a bound name, with the innermost binding; otherwise "Undefined variable: name" |
| Environments.AssignedChangesNearest | src/environment.cpp:25-40 | assign succeeds exactly for a bound name and changes only that name in the innermost scope holding it |
| Environments.AssignThenLookup | src/environment.cpp:10-40 | after an assign, get gives the new value |
| Environments.DefineThenLookup | src/environment.cpp:6-23 | after a define, get gives the new value and other names look up as before |
| Environments.UnboundAssignFails | src/environment.cpp:37-39 | assigning to an unbound name changes nothing |
| Environments.LookupOkIffBound | src/environment.cpp:10-23 | get succeeds exactly for a bound name; for an unbound one it fails with "Undefined variable: " and the name |
| Environments.BoundCons | src/environment.cpp:42-52 | a name is bound when the first scope or an enclosing one binds it |
| Environments.Environment.Global | src/environment.h:12 | a new global scope is one empty map |
| Environments.Environment.Enclosed | src/environment.h:13-14 | a new child scope is an empty map in front of its parent's chain |
| Environments.Environment.Define | src/environment.cpp:6-8 | binds in this scope only |
| Environments.Environment.Get | src/environment.cpp:10-23 | is the chain lookup |
| Environments.Environment.Exists | src/environment.cpp:42-52 | holds exactly when some scope binds the name |
| Environments.Environment.Assign | src/environment.cpp:25-40 | succeeds exactly for a bound name and updates as `Assigned`; otherwise fails with "Undefined variable: name" and nothing changes |
| Operators.BinaryOp | src/interpreter.cpp:432-490 | a result is always a scalar; `%` by zero is the only case left to the floating-point model |
| Operators.PlusCoerces | src/interpreter.cpp:437-450 | `+` adds numbers, joins strings, prints a number operand joined with a string, and otherwise fails |
| Operators.PlusJoinsWholeNumbers | src/interpreter.cpp:444-449 | "a" + 1 gives "a1": whole numbers join without decimals |
| Operators.DivisionByZero | src/interpreter.cpp:459-463 | `/` by zero raises "Division by zero", and so does `/=` |
| Operators.NumericNeedsNumbers | src/interpreter.cpp:453-480 | arithmetic and comparisons need two numbers, and comparisons give booleans |
| Operators.EqualityNeverFails | src/interpreter.cpp:482-485 | `==` and `!=` always succeed, with isEqual |
| Operators.PercentIsRemainder | src/interpreter.cpp:465-467 | `%` is fmod: the remainder that takes the sign of the dividend |
| Operators.RemainderBounds | src/interpreter.cpp:465-467 | fmod is smaller in size than the divisor and has the dividend's sign |
| Operators.RemainderExamples | src/interpreter.cpp:465-467 | -7 % 2 is -1 and 7 % -2 is 1 |
| Operators.TruncTowardZero | src/interpreter.cpp:650-652 | the index conversion drops the fraction toward zero |
| Operators.UnaryOp | src/interpreter.cpp:418-430 | a unary result is a number or a boolean |
| Operators.UnaryLaws | src/interpreter.cpp:418-430 | negation needs a number and undoes itself; `!!v` is the truthiness of v |
| Operators.CompoundAgreesWithBinary | src/interpreter.cpp:553-591 | `-=`, `*=` and `/=` compute what `-`, `*` and `/` do |
| Operators.PlusEqualIsOneSided | src/interpreter.cpp:559-569 | `+=` agrees with `+` except that number += string fails |
| Operators.UpdateOutcome | src/interpreter.cpp:593-611 | `++`/`--` succeeds exactly on a bound number |
| Operators.UpdateLaws | src/interpreter.cpp:593-611 | prefix gives the new value, postfix the old; `--` undoes `++` |
| Operators.LogicalValue | src/interpreter.cpp:492-503 | `and`/`or` give one of their operands, not a boolean |
| Operators.LogicalTruth | src/interpreter.cpp:492-503 | the result's truthiness is the logical or/and of the operands' |
| Operators.Slot | src/interpreter.cpp:636-659 | a valid slot is inside an array |
| Operators.SlotLaws | src/interpreter.cpp:636-659 | an index is valid exactly when its truncation is in range; out of range raises "Array index out of bounds: i" |
| Operators.CallCheck | src/interpreter.cpp:509-540 | a call proceeds only on a callable of matching arity |
| Operators.CallCheckLaws | src/interpreter.cpp:509-540 | calling a non-callable or with the wrong number of arguments raises the source's messages |
| Operators.ArityMessageExample | src/interpreter.cpp:530-535 | the arity message reads "Expected 2 arguments but got 1" |
| Operators.LiteralValue | src/interpreter.cpp:396-408 | literals evaluate to scalars or nil |
| OldEvaluator.PlainBinaryAgrees | src/evaluator.cpp:92-153 | the old evaluator differs from the interpreter only on `+` between a string and a number, which it rejects |
| OldEvaluator.Run | src/evaluator.cpp:14-189 | evaluation keeps every name bound and yields only nil or scalar values |
| OldEvaluator.RunWithoutAssignIsPure | src/evaluator.cpp:14-189 | an expression without an assignment leaves the scope unchanged |
| OldEvaluator.RunKeepsOtherNames | src/evaluator.cpp:14-189 | evaluation changes no name it does not assign |
| OldEvaluator.AssignThenRead | src/evaluator.cpp:178-189 | after an assignment the name reads back as the assigned value, bound or not before |
| OldEvaluator.Evaluator.constructor | src/evaluator.cpp:7-8 | a new evaluator has an empty global scope |
| OldEvaluator.Evaluator.Reset | src/evaluator.cpp:10-12 | reset discards every binding |
| OldEvaluator.Evaluator.Evaluate | src/evaluator.cpp:14-48 | the outcome and the new scope are `Run`'s |
| OldEvaluator.Evaluator.Store | src/evaluator.cpp:178-189 | assign-or-define binds the name in the one scope |
| Semantics.LeaveScope | src/interpreter.cpp:223-236 | leaving a child scope leaves the enclosing chain with the same names |
| Interpreting.AssignKeeps | src/environment.cpp:25-40 | assign keeps the set of names and every value's arrays known |
| Interpreting.DefineKeeps | src/environment.cpp:6-8 | define only adds to the innermost scope and keeps values' arrays known |
| Interpreting.Store | src/interpreter.cpp:661-686 | an indexed store succeeds exactly on a valid slot, writes that slot only and gives the stored value |
| Interpreting.MemberOf | src/interpreter.cpp:688-727 | `length`, `push` and `pop` on arrays; "Only arrays have members" and "Unknown array member" otherwise |
| Interpreting.Invoke | src/interpreter.cpp:704-726 | the bound `push` appends and gives nil; the bound `pop` pops |
| Interpreting.Interpreter.constructor | src/interpreter.cpp:12-17 | a new interpreter runs in the global scope, which binds every built-in to a callable of its arity |
| Interpreting.Interpreter.Reset | src/interpreter.cpp:19-23 | reset gives a fresh global scope with every built-in bound to a callable of its arity again |
| Interpreting.Interpreter.DefineNatives | src/interpreter.cpp:26-161 | the global scope gains exactly the built-in names, each bound to a callable of its arity that runs that built-in |
| Interpreting.NativeCallChecked | src/interpreter.cpp:26-161 | a registered built-in's call goes through exactly with as many arguments as its arity, and otherwise raises "Expected n arguments but got m" |
| Interpreting.LenWithoutArgument | src/interpreter.cpp:26-161 | `len()` with no argument raises "Expected 1 arguments but got 0" |
| Interpreting.Interpreter.Evaluate | src/interpreter.cpp:328-394 | the outcome and the scopes afterwards agree with the reference `PureEval` whenever it gives one; a missing node raises "Unknown expression type", a literal is its value, a variable is `get`'s value or error; scopes only grow |
| Interpreting.Interpreter.EvaluateMember | src/interpreter.cpp:688-727 | the object's outcome agrees with `PureEval` of it, and its failure is the result; a non-array raises "Only arrays have members"; `length` is the element count; `push` and `pop` give callables bound to the array; any other name raises "Unknown array member: " and the name |
| Interpreting.Interpreter.EvaluateOperator | src/interpreter.cpp:337-370 | unary, binary and logical nodes agree with `PureEval`; a unary result is a number or a boolean, a binary result a scalar |
| Interpreting.Interpreter.EvaluateTernary | src/interpreter.cpp:613-618 | the condition's outcome is `PureEval`'s; a failing condition is the result and no branch runs; otherwise exactly one branch runs, for a non-array condition the then-branch exactly when it is truthy, and the result is `PureEval` of the branch taken |
| Interpreting.Interpreter.EvaluateUnary | src/interpreter.cpp:418-430 | the operand's outcome is `PureEval`'s; its failure is the result, otherwise `UnaryOp` of its value |
| Interpreting.Interpreter.EvaluateBinary | src/interpreter.cpp:432-490 | the left operand, then the right, each with `PureEval`'s outcome; the first failure is the result, and with two values the result is `BinaryOp` of them |
| Interpreting.Interpreter.EvaluateOperands | src/interpreter.cpp:432-434 | the left operand's outcome is `PureEval`'s, with nothing changed when it fails; the right operand is evaluated only after a successful left one, and then its outcome is `PureEval`'s |
| Interpreting.Interpreter.EvaluateAfter | src/interpreter.cpp:328-394 | evaluate() of a later operand agrees with `PureEval` from the chain its earlier operands left |
| Interpreting.Interpreter.EvaluateLogical | src/interpreter.cpp:492-503 | the left operand's outcome is `PureEval`'s and its failure is the result; the right operand is evaluated only when the left does not decide (for `or` a falsy, for `and` a truthy left), and then its outcome, `PureEval`'s, is the result; for a non-array left the right is skipped exactly when the left decides, and the value is `LogicalValue` |
| Interpreting.Interpreter.EvaluateAll | src/interpreter.cpp:514-517 | the values, and the failure that stops the evaluation, are `PureArgs`' whenever it gives them: one value per argument on success, fewer before a failure |
| Interpreting.Interpreter.EvaluateItem | src/interpreter.cpp:514-517 | the next argument or element, in the chain the earlier ones left: a value extends `PureArgs`' prefix by that value, a failure is `PureArgs`' failure |
| Interpreting.Interpreter.CallValue | src/interpreter.cpp:519-540 | a bad callee or arity raises the source's message and changes no array; a `push` that goes through appends its argument to its array and gives nil, a `pop` gives what `Popped` gives; user functions and host built-ins run beyond the model; every array other than a `push` or `pop` target holds what it held |
| Interpreting.Interpreter.Apply | src/interpreter.cpp:520-540 | a bad callee or arity raises the source's message; a `push` appends its one argument to its array and gives nil, a `pop` pops that array, each against what the array held just before (`before`), and every other array holds what it held |
| Interpreting.Interpreter.CallWith | src/interpreter.cpp:514-540 | the arguments left to right, with `PureArgs`' values and failure; an argument failure is the result; then a bad callee or arity raises the source's message, and a `push` or `pop` callee changes its own array as `Apply` states and no other |
| Interpreting.Interpreter.CallMember | src/interpreter.cpp:509-540 | `a.push(x)` and `a.pop()`: the object first, with `PureEval`'s outcome; a non-array raises "Only arrays have members", another member "Unknown array member"; then the arguments; `push` appends its argument to that very array and gives nil, `pop` removes its last element, a wrong arity raises the arity message and leaves the array as it was, and no other array changes |
| Interpreting.Interpreter.EvaluateCall | src/interpreter.cpp:509-540 | callee first, with `PureEval`'s outcome, then the arguments, with `PureArgs`' failure; each failure is the result; with both evaluated a non-callable or wrong arity raises the source's message; a call succeeds only when the check passes; a callee bound to an array's `push` appends its argument to that array and gives nil, one bound to `pop` pops it, a wrong arity leaves the array as it was, and no other array changes |
| Interpreting.Interpreter.EvaluateAssign | src/interpreter.cpp:542-551 | agrees with `PureEval` of the assignment: the result is the value expression's outcome; on success the name reads as that value, assigned where it is bound and defined in the current scope otherwise; a failure stores nothing |
| Interpreting.Interpreter.Bind | src/interpreter.cpp:542-551 | assign when bound, otherwise define in the current scope (`Stored`); the name then reads as the value |
| Interpreting.Interpreter.Reassign | src/environment.cpp:25-40 | assign of a name bound in the chain updates its nearest binding (`Stored`), and the name then reads as the new value |
| Interpreting.Interpreter.EvaluateCompound | src/interpreter.cpp:553-591 | an unbound name raises "Undefined variable" with nothing changed; otherwise the operand's outcome is `PureEval`'s and its failure is the result; on success the result is `CompoundOp` of the old value and the operand, and the name is assigned it; agrees with `PureEval` of the whole expression |
| Interpreting.Interpreter.CompoundWith | src/interpreter.cpp:555-591 | with the variable's value read, the operand's outcome is `PureEval`'s and its failure is the result; otherwise the result is `CompoundOp` of the two, and on success it is stored where the name is bound |
| Interpreting.Interpreter.CompoundStore | src/interpreter.cpp:555-591 | a failed operand is the outcome; otherwise the outcome is `CompoundOp` of the old value and the operand, always a number or a string, and a new value is stored in the nearest scope binding the name, which then looks up to it |
| Interpreting.Interpreter.EvaluateUpdate | src/interpreter.cpp:593-611 | the result is `UpdateOutcome` (an unbound name or a non-number fails with nothing changed), the name then holds the stepped value, and the outcome agrees with `PureEval` |
| Interpreting.Interpreter.EvaluateArray | src/interpreter.cpp:624-634 | an array literal gives a fresh array whose elements are `PureArgs`' values of the element expressions, in order, one per expression; the first failing element is the result |
| Interpreting.Interpreter.EvaluateIndex | src/interpreter.cpp:636-659 | the object and then the index, each with `PureEval`'s outcome and each failure the result; then an invalid slot raises `Slot`'s error and a valid one gives that element |
| Interpreting.Interpreter.EvaluateIndexAssign | src/interpreter.cpp:661-686 | object, index and value in order, each with `PureEval`'s outcome and each failure the result; then an invalid slot raises `Slot`'s error, and a valid one is replaced by the value, which is the result, leaving the other elements as they were |
| Interpreting.Interpreter.StoreHeld | src/interpreter.cpp:667-685 | the store succeeds exactly on a valid slot, writing the value there only; otherwise the slot's error is raised and the array is unchanged |
| Interpreting.Interpreter.Execute | src/interpreter.cpp:167-193 | the flow, the scopes afterwards and the lines printed agree with the reference `PureExec` whenever it gives an outcome; break and continue escape only from statements that may hold them; a run-until raises "Unknown statement type" |
| Interpreting.Interpreter.ExecuteAll | src/interpreter.cpp:195-199 | agrees with the reference `PureList`: the statements run in order up to the first that does not end normally, whose outcome is the result, and the outcomes recorded are `PureFlows`' |
| Interpreting.Interpreter.ExecuteNext | src/interpreter.cpp:196-198 | one statement of the list, run with `PureExec`'s outcome: after a normal end the rest of the list still agrees with `PureList`; otherwise the list ends with this outcome |
| Interpreting.Interpreter.ExecutePrint | src/interpreter.cpp:205-208 | agrees with `PureExec`; a failing value is the result with no output; otherwise exactly one line is added, the value's text (`ValueText`) |
| Interpreting.Interpreter.PrintLine | src/interpreter.cpp:207 | the line added is the value's `ValueText` as the value stood when printed |
| Interpreting.Interpreter.ExecuteLet | src/interpreter.cpp:210-216 | agrees with `PureExec`: the initializer's outcome is `PureEval`'s; a let defines its name in the current scope, as nil without an initializer and as the initializer's value otherwise; a failing initializer is the result |
| Interpreting.Interpreter.ExecuteBlockStmt | src/interpreter.cpp:218-221 | agrees with `PureExec` of the block: its statements' flow and output, with the enclosing scopes as they were |
| Interpreting.Interpreter.ExecuteBlock | src/interpreter.cpp:223-236 | the statements run in the new scope with `PureList`'s flow and output, up to the first abnormal outcome, which is the block's; the previous scope is current again afterwards, with the same names |
| Interpreting.Interpreter.LeaveTo | src/interpreter.cpp:223-236 | the scope around the current one is made current again, whatever the statements did, and its chain kept its names |
| Interpreting.Interpreter.ExecuteIf | src/interpreter.cpp:238-245 | agrees with `PureExec`; the condition's outcome is `PureEval`'s, and its failure is the result with no branch run; otherwise at most one branch runs, none only when there is no else and the condition is falsy; for a non-array condition the then-branch runs exactly when it is truthy |
| Interpreting.Interpreter.ExecuteWhile | src/interpreter.cpp:247-257 | agrees with the reference `PureLoop`, iteration by iteration; break and continue never escape; the first test and body agree with `PureStep`; a falsy condition ends the loop normally, break ends it normally, and a return, throw or exhausted fuel is the result |
| Interpreting.Interpreter.Iterate | src/interpreter.cpp:249-256 | the loop from the current state agrees with `PureLoop` for the iterations left; break and continue never escape |
| Interpreting.Interpreter.Advance | src/interpreter.cpp:249-256 | one iteration against the reference: when the loop goes on, the rest still agrees with `PureLoop` one iteration shorter; otherwise the loop's outcome is this iteration's |
| Interpreting.Interpreter.Step | src/interpreter.cpp:247-296 | one iteration of a `while` or a `for` agrees with `PureStep`: its condition, body and increment outcomes, whether the loop goes on, and what it printed and bound |
| Interpreting.Interpreter.ExecuteFor | src/interpreter.cpp:259-300 | agrees with `PureExec` of the loop; the loop's own scope is dropped on exit; only an initializer can let break or continue out, and an abnormal initializer ends the statement; the first iteration's outcomes are `PureStep`'s from the chain after the initializer |
| Interpreting.Interpreter.ForInScope | src/interpreter.cpp:259-300 | the loop runs with its own scope current, with `PureForRun`'s outcome, and the enclosing scope is current again afterwards with the same names |
| Interpreting.Interpreter.ForRun | src/interpreter.cpp:265-296 | agrees with `PureForRun`: the initializer runs first, when there is one, and an abnormal initializer ends the statement with its outcome; otherwise the iterations follow, the first with `PureStep`'s outcomes |
| Interpreting.Interpreter.ForLoop | src/interpreter.cpp:272-292 | agrees with `PureLoop`; break and continue never escape; a missing condition runs the body; break ends the loop normally without the increment; a return or throw in the body is the result; after a normal or continued body a present increment is evaluated, and its failure is the result |
| Interpreting.Interpreter.ForStep | src/interpreter.cpp:279-292 | one iteration, agreeing with `PureStep`: the increment is evaluated exactly when the body ended normally or by continue and there is one; the loop goes on exactly when that increment (or its absence) succeeds |
| Interpreting.Interpreter.ForIncrement | src/interpreter.cpp:289-292 | the increment is evaluated exactly when present, with `PureEval`'s outcome; a failure ends the loop with it |
| Interpreting.Interpreter.LoopStep | src/interpreter.cpp:247-296 | agrees with `PureIteration`: a failing condition ends the loop with it; a missing `for` condition counts as true; the body runs exactly when a non-array condition is truthy; the loop goes on exactly after a normal or continued body; break and continue become a normal end |
| Interpreting.Interpreter.ExecuteFn | src/interpreter.cpp:302-312 | defines a fresh callable of the declared arity in the current scope |
| Interpreting.Interpreter.ExecuteReturn | src/interpreter.cpp:314-323 | agrees with `PureExec`: `return;` returns nil; otherwise the value returned is `PureEval` of the expression, or its failure is the result |
| Semantics.PureExec | src/interpreter.cpp:167-193 | the reference for execute(): a statement changes only the innermost scope of the chain, and a block or a `for` loop leaves the chain as it was |
| Semantics.PureList | src/interpreter.cpp:195-199 | the reference for a statement list: only the innermost scope changes |
| Semantics.PureEval | src/interpreter.cpp:328-394 | the reference for evaluate(): an expression changes only the innermost scope, where an assignment to an unbound name can add it; every other scope keeps its names |
| Semantics.Stored | src/interpreter.cpp:542-551 | the store of an assignment: assign() where the name is bound, define() in the innermost scope otherwise; the name then reads as the value |
| Semantics.PureArgs | src/interpreter.cpp:514-517 | the reference for evaluating arguments left to right: all values on success, fewer values and a failure otherwise |
| Semantics.PureLoop | src/interpreter.cpp:247-296 | the reference for a loop's iterations: only the innermost scope changes |
| Semantics.PureForRun | src/interpreter.cpp:265-296 | the reference for a `for` loop in its own scope: initializer, then the iterations; only that scope changes |
| Semantics.PureStep | src/interpreter.cpp:247-296 | the reference for one iteration: only the innermost scope changes |
| Semantics.PureIteration | src/interpreter.cpp:247-257 | the test and body of an iteration, before any increment: only the innermost scope changes, and no increment is recorded |
| Semantics.LoopStart | src/interpreter.cpp:265-270 | the chain a `for` loop's iterations start from, after the initializer, is as long as the one it ran in |
| Semantics.WhileStep | src/interpreter.cpp:247-257 | a `while` iteration is its test and body: no increment |
| Semantics.FirstThenRest | src/interpreter.cpp:247-296 | a loop is its first iteration followed by the rest, the lines printed joined in order |
| Semantics.PureListStep | src/interpreter.cpp:195-199 | a list is its first statement followed by the rest, unless the first ends abnormally |
| Semantics.PureArgsPrefix | src/interpreter.cpp:514-517 | arguments evaluated so far are a prefix of the whole evaluation, and a failure among them is the whole evaluation's |
| Semantics.FromLookup | src/interpreter.cpp:410-416 | a variable read succeeds exactly when get does |
| SemanticsFacts.ShortCircuit | src/interpreter.cpp:492-503 | a deciding non-array left operand of `or`/`and` is the result, whatever the right operand is |
| SemanticsFacts.RightOperandDecides | src/interpreter.cpp:492-503 | a left operand that does not decide hands the result to the right operand |
| SemanticsFacts.LogicalGivesOperand | src/interpreter.cpp:492-503 | `nil || "d"` is "d", not true |
| SemanticsFacts.LogicalShortCircuits | src/interpreter.cpp:492-503 | `0 && y` is 0 with `y` unbound: the right operand is not evaluated |
| SemanticsFacts.FailureStops | src/interpreter.cpp:418-503 | a failing first operand is the outcome of a unary, binary, logical or ternary expression |
| SemanticsFacts.RightFailureStops | src/interpreter.cpp:432-434 | a failing right operand after a successful left one is the outcome of a binary expression |
| SemanticsFacts.BinaryOfValues | src/interpreter.cpp:432-490 | with both operands values, a binary expression is `BinaryOp` of them |
| SemanticsFacts.TernaryTakesOneBranch | src/interpreter.cpp:613-618 | a ternary is its then-branch when the condition is truthy and its else-branch otherwise |
| SemanticsFacts.ProductBindsTighter | src/interpreter.cpp:432-490 | `1 + 2 * 3` is 7 |
| SemanticsFacts.GroupedSumFirst | src/interpreter.cpp:505-507 | `(1 + 2) * 3` is 9 |
| SemanticsFacts.RemainderExample | src/interpreter.cpp:465-467 | `10 % 3` is 1 |
| SemanticsFacts.UnboundVariable | src/interpreter.cpp:410-416 | an unbound variable raises "Undefined variable: " and its name |
| SemanticsFacts.AssignStores | src/interpreter.cpp:542-551 | `name = e` gives e's value and stores it, defining an unbound name in the innermost scope; the name then reads as that value |
| SemanticsFacts.CompoundExample | src/interpreter.cpp:553-591 | `x += 2` where x is 5 gives 7, and x is 7 afterwards |
| SemanticsFacts.UpdateExample | src/interpreter.cpp:593-611 | `x++` where x is 1 gives 1, `++x` gives 2, and either way x is 2 afterwards |
| SemanticsFacts.UpdateUnbound | src/interpreter.cpp:593-595 | `++`/`--` on an unbound name fails with "Undefined variable: " and the name, changing nothing |
| SemanticsFacts.LetBinds | src/interpreter.cpp:210-216 | a let binds in the innermost scope, and the name then reads as the initializer's value, or nil |
| SemanticsFacts.BlockKeepsOuterBindings | src/interpreter.cpp:218-236 | after a block every name reads as before it |
| SemanticsFacts.ForInitializerInvisible | src/interpreter.cpp:259-300 | after a `for` loop every name reads as before it, its initializer's included |
| SemanticsFacts.PrintWritesText | src/interpreter.cpp:205-208 | `print e;` writes one line, the text of e's value, and binds nothing |
| SemanticsFacts.InnerBlockExample | src/interpreter.cpp:218-236 | `{ let x = 20; print x; }` with x bound to 10 prints 20 and leaves x at 10 |
| SemanticsFacts.ShadowingExample | src/interpreter.cpp:210-236 | `let x = 10; { let x = 20; print x; } print x;` prints 20 then 10 |
| SemanticsFacts.BlockAssignsOuter | src/interpreter.cpp:218-236 | `{ x = 2; }` with x bound outside to 1 leaves x at 2: the block drops only its own scope |
| SemanticsFacts.ListStopsAtAbnormal | src/interpreter.cpp:195-199 | a list stops at its first statement that does not end normally; the rest never runs |
| SemanticsFacts.ReturnCarriesValue | src/interpreter.cpp:314-323 | `return e;` carries e's value out, and `return;` carries nil |
| SemanticsFacts.RunUntilNeverRuns | src/interpreter.cpp:167-193 | a run-until statement reaches "Unknown statement type" and its body never runs |
| SemanticsFacts.WhileFalsySkipsBody | src/interpreter.cpp:247-257 | a `while` whose condition is falsy at the first test never runs its body, prints nothing and binds nothing |
| SemanticsFacts.WhileBreakEnds | src/interpreter.cpp:247-257 | a body that breaks ends the loop normally, with what the body printed and bound |
| SemanticsFacts.WhileContinueRetests | src/interpreter.cpp:247-257 | a body that continues goes back to the test, and the loop runs on from the body's scopes |
| SemanticsFacts.ForContinueRunsIncrement | src/interpreter.cpp:279-292 | in a `for` loop a body that continues is still followed by the increment, and the loop goes on |
| SemanticsFacts.ForMissingConditionRuns | src/interpreter.cpp:275-278 | a `for` loop without a condition runs its body |
| SemanticsFacts.EndlessLoopStops | src/interpreter.cpp:247-257 | `while (true) {}` runs out of any number of iterations, as `Stopped` with nothing printed |
| SemanticsFacts.CountingStep | src/interpreter.cpp:247-257 | below 3, an iteration of `while (i < 3) i = i + 1;` tests true, runs the body normally and leaves i one higher |
| SemanticsFacts.CountingEnds | src/interpreter.cpp:247-257 | at 3 the test is false and the loop ends normally with i at 3 |
| SemanticsFacts.CountingFrom | src/interpreter.cpp:247-257 | from i = 0, 1, 2 or 3, with enough iterations left, the loop ends normally with i at 3 and prints nothing |
| SemanticsFacts.CountingExample | src/interpreter.cpp:195-257 | `let i = 0; while (i < 3) i = i + 1;` ends normally with i bound to 3 |

## Left out

- Native function bodies (`clock`, `input`, `readFile`, `writeFile`, `appendFile`, `fileExists`, `len`, `str`, `num`) read the clock, the console and files. Only their names and arities are modelled; calling one gives `Beyond`.
- `callable.h` is not part of this model. Calling a user function gives `Beyond`, and the printed text of a callable is not modelled. Closures keep no captured scope.
- Floating point is modelled as exact reals. NaN from `%` by zero is `Beyond`. `long long` conversion overflow and the rounding of six-place formatting are idealised.
- Parsing.LeafOf: a number literal becomes an exact `LNum` of its digits. `std::stod` in `primary()` (src/parser/parser.cpp:481) throws `std::out_of_range` for a literal outside the range of a double (a 400-digit literal, say), which makes `parseProgram` drop the statement and `parseExpression` give null; that exception path is not modelled.
- Interpreting.Interpreter.Execute: a run-until statement reaches `execute()`'s "Unknown statement type" branch, as in the source. Its loop semantics are not modelled.
- Interpreting.Interpreter.ExecuteWhile: loops run on a fuel bound and end as `Stopped` when it runs out. Nontermination is not modelled.
- Values.ValueText: nested arrays print up to a depth bound and give `None` past it. This covers self-containing arrays, which recurse forever in the source.
- Interpreting.Interpreter.EvaluateCall: what a call of a user function or host built-in returns, and what it changes, is not stated, since the callee's body is outside this model (`Beyond`, see `CallValue`); calls of an array's `push` and `pop` are stated in full.
- Interpreting.Interpreter.EvaluateIndexAssign: the array written is the one the object evaluated to; that a later operand could have changed its length is allowed for, by stating the write against the contents just before it (`before`).
- Print output is a sequence of lines on the interpreter, not standard output.
- AST nodes do not carry their tokens. `RuntimeError` line and column positions are not modelled; errors carry only their message.
- The evaluator's `getEnvironment()` accessor is not modelled.
- The hash map's copy constructor from an existing map is not modelled, since its iteration order is unspecified.
- HashMaps.VoltHashMap.Set: setting an existing key keeps the iteration order, and a new key is inserted without moving the others relative to each other. `std::unordered_map` may rehash on an insert and then reorder every key; the model does not capture that reordering, and no property here depends on the order.
- Parsing.Parser.Binary: the result's rank and shape are stated, not which tokens became which operands.
- Parsing.Parser.Ternary: the result's rank and shape, and the missing-expression case, are stated; which tokens became the condition and the branches is not.
- Parsing.Parser.LogicalOr: rank and shape only, as for `Binary`; which tokens became which operands is not stated.
- Parsing.Parser.LogicalAnd: rank and shape only, as for `Binary`; which tokens became which operands is not stated.
- Parsing.Parser.ArrayLiteral: whether the list is empty is stated exactly; which tokens became which elements, and the trailing comma, are not.
- Parsing.Parser.Elements: the number of elements is tied only to an immediate `]`, not to the commas read.
- Parsing.Parser.RunUntilStatement: the `until` keyword and its message are stated (on `UntilClause`); the `( condition ) ;` that must follow is parsed as in the source but its tokens and messages are not stated.
- Parsing.Parser.UntilClause: the same `( condition ) ;` tail is not stated token by token.
- Parsing.Parser.ForStatement: the clauses are stated one at a time on `ForInitializer` and `LoopClause`; the `(` after `for` and the `;` and `)` that close the clauses are not stated token by token.
- Interpreting.Interpreter.ExecutePrint: the line is stated as the value's text as it stood when printed; for an array value that text is pinned on `PrintLine`, since the arrays it reads are not framed by `ValueText`.
- Interpreting.Interpreter.Evaluate: agreement with the reference is stated where `PureEval` gives an outcome. Calls, array literals, indexing, index assignment, member access, and a unary, logical or ternary node whose operand or condition is an array fall outside it (so `-a` on an array, which raises "Operand must be a number", is stated by `EvaluateUnary` through `UnaryOp`, not by the reference); for those, `Evaluate` states only that scopes grow and values stay known, and the method for the node states its outcome from its operands' outcomes, each of which agrees with the reference where the reference gives one.
- Operators.Slot: the index is truncated toward zero on unbounded integers; the source's `static_cast<int>` of the number (src/interpreter.cpp:651 and 677) is undefined for an index outside the `int` range, where common targets give -2147483648, so the model's "Array index out of bounds: 3000000000" idealises that case.
- Interpreting.Interpreter.Execute: agreement with the reference is stated where `PureExec` gives an outcome. Function declarations, printing an array, an if, while or for whose condition is an array, and statements over the expressions above fall outside it.
- Interpreting.Interpreter.ExecuteWhile: the ghost outcomes are the first iteration's; every later iteration is stated through `PureLoop`, not through ghost outcomes of its own.
- Interpreting.Interpreter.ForLoop: as for `ExecuteWhile`, the ghost outcomes are the first iteration's.
- Parsing.Parser.ParseProgram: the newer parser's crash is stated for a program whose first token starts neither a statement nor an expression; a crash on a later statement, after earlier ones parsed, is not stated.
- Parsing.Parser.LoopClause: the clause is absent when its closing token comes at once; the converse is not stated, because `++` or `--` with no identifier after it also gives the null node, after recording an error.
- Lexing.Lexer.Tokenize: the source is a sequence of characters, each standing for one byte of the source text. The C++ indexes a `std::string_view` by byte, so for UTF-8 text outside ASCII it emits one Error token per byte and counts columns in bytes; the model sees one character per code point.
- LegacyLexing.Lexer.Tokenize: as for `Lexing.Lexer.Tokenize`, each character stands for one byte.
- Interpreting.Interpreter.EvaluateLogical: the choice of operand is tied to the left value's truthiness exactly for non-array values; for an array the right operand can change its contents (`a or a.push(1)`), so only the direction "not decided, so evaluated" is stated.
- Interpreting.Interpreter.ExecuteIf: as for `EvaluateLogical`, the branch is tied to truthiness exactly for a non-array condition, since the branch can change an array's contents.

## Findings

| source | as written | input that shows it | evidently intended | confidence | as-written member | corrected member |
|---|---|---|---|---|---|---|
| src/lexer.cpp:47 | `number()` reads `source_[current_ + 1]` on a `string_view` without checking that it is in bounds | the source "1." : after the '.', `current_ + 1` equals the length | read the next character only when one exists, as `peekNext()` does in src/lexer/lexer.cpp | not executed | LegacyLexing.DotAtEndReadsPastEnd | LegacyLexing.NumberEndAgrees |

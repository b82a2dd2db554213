// Expression and statement trees built by both parsers (src/parser/ast.h,
// src/parser/stmt.h; the older src/ast.h and src/stmt.h have the same
// node kinds without representative tokens and without run-until).
module Ast {
  import opened Wrappers
  import opened Tokens

  datatype Lit = LNum(num: real) | LStr(str: string) | LBool(b: bool) | LNil

  /**
   * An expression node. `Missing` stands for a null ExprPtr: what primary()
   * and the prefix-update branch of unary() return after recording an
   * error, and an absent optional clause.
   */
  datatype Expr =
    | Missing
    | Literal(lit: Lit)
    | Variable(name: string)
    | Unary(op: TokenType, right: Expr)
    | Binary(left: Expr, op: TokenType, right: Expr)
    | Logical(left: Expr, op: TokenType, right: Expr)
    | Grouping(inner: Expr)
    | Call(callee: Expr, args: seq<Expr>)
    | Assign(name: string, value: Expr)
    | CompoundAssign(name: string, op: TokenType, value: Expr)
    | Update(name: string, op: TokenType, prefix: bool)
    | Ternary(cond: Expr, thenBranch: Expr, elseBranch: Expr)
    | ArrayLit(elements: seq<Expr>)
    | Index(obj: Expr, index: Expr)
    | IndexAssign(obj: Expr, index: Expr, value: Expr)
    | Member(obj: Expr, member: string)

  /** A statement node; an absent statement (else branch, for initializer) is None. */
  datatype Stmt =
    | ExprStmt(expr: Expr)
    | PrintStmt(expr: Expr)
    | Let(name: string, initializer: Expr)
    | Block(stmts: seq<Stmt>)
    | If(cond: Expr, thenBranch: Stmt, elseBranch: Option<Stmt>)
    | While(cond: Expr, body: Stmt)
    | RunUntil(body: Stmt, cond: Expr)
    | For(init: Option<Stmt>, cond: Expr, incr: Expr, body: Stmt)
    | FnDecl(name: string, params: seq<string>, fnBody: seq<Stmt>)
    | Return(value: Expr)
    | Break
    | Continue

  /** The text of an operator token, as the lexer spells its lexeme. */
  function OpText(k: TokenType): string
  {
    match k
    case Plus => "+" case Minus => "-" case Star => "*" case Slash => "/" case Percent => "%"
    case Bang => "!" case EqualEqual => "==" case BangEqual => "!="
    case Less => "<" case LessEqual => "<=" case Greater => ">" case GreaterEqual => ">="
    case And => "&&" case Or => "||"
    case PlusEqual => "+=" case MinusEqual => "-=" case StarEqual => "*=" case SlashEqual => "/="
    case PlusPlus => "++" case MinusMinus => "--"
    case _ => ""
  }

  // Precedence levels, loosest first: the parser method that builds each node.
  const AssignmentLevel: nat := 1
  const TernaryLevel: nat := 2
  const OrLevel: nat := 3
  const AndLevel: nat := 4
  const EqualityLevel: nat := 5
  const ComparisonLevel: nat := 6
  const TermLevel: nat := 7
  const FactorLevel: nat := 8
  const UnaryLevel: nat := 9
  const PostfixLevel: nat := 10
  const CallLevel: nat := 11
  const PrimaryLevel: nat := 12

  /** The binary level that parses operator `op`, or 0 if none does. */
  function BinaryLevel(op: TokenType): nat
  {
    match op
    case EqualEqual | BangEqual => EqualityLevel
    case Greater | GreaterEqual | Less | LessEqual => ComparisonLevel
    case Plus | Minus => TermLevel
    case Star | Slash | Percent => FactorLevel
    case _ => 0
  }

  /** The level of `||` and of `&&`. */
  function LogicalLevel(op: TokenType): nat
  {
    if op == Or then OrLevel else AndLevel
  }

  /** The level whose parser method builds this node. */
  function Rank(e: Expr): nat
  {
    match e
    case Assign(_, _) => AssignmentLevel
    case CompoundAssign(_, _, _) => AssignmentLevel
    case IndexAssign(_, _, _) => AssignmentLevel
    case Ternary(_, _, _) => TernaryLevel
    case Logical(_, op, _) => LogicalLevel(op)
    case Binary(_, op, _) => BinaryLevel(op)
    case Unary(_, _) => UnaryLevel
    case Update(_, _, prefix) => if prefix then UnaryLevel else PostfixLevel
    case Call(_, _) => CallLevel
    case Index(_, _) => CallLevel
    case Member(_, _) => CallLevel
    case _ => PrimaryLevel
  }

  /**
   * The shape precedence climbing gives a tree. A binary or logical node at
   * level k has a left operand of level at least k (so chains lean left)
   * and a right operand of a strictly tighter level; a ternary's condition
   * is an or-level expression, its then branch any expression, and its else
   * branch another ternary-level expression (so it nests to the right);
   * call, index and member apply to call-level operands; unary operands are
   * unary-level; grouping, arguments, elements and assigned values are any
   * expression.
   */
  predicate WF(e: Expr)
  {
    match e
    case Missing => true
    case Literal(_) => true
    case Variable(_) => true
    case Unary(op, r) => (op == Bang || op == Minus) && Rank(r) >= UnaryLevel && WF(r)
    case Binary(l, op, r) =>
      BinaryLevel(op) > 0 && Rank(l) >= BinaryLevel(op) && Rank(r) > BinaryLevel(op) && WF(l) && WF(r)
    case Logical(l, op, r) =>
      (op == And || op == Or) && Rank(l) >= LogicalLevel(op) && Rank(r) > LogicalLevel(op) && WF(l) && WF(r)
    case Grouping(x) => WF(x)
    case Call(c, args) => Rank(c) >= CallLevel && WF(c) && forall i :: 0 <= i < |args| ==> WF(args[i])
    case Assign(_, v) => WF(v)
    case CompoundAssign(_, op, v) => (op == PlusEqual || op == MinusEqual || op == StarEqual || op == SlashEqual) && WF(v)
    case Update(_, op, _) => op == PlusPlus || op == MinusMinus
    case Ternary(c, t, f) => Rank(c) >= OrLevel && Rank(f) >= TernaryLevel && WF(c) && WF(t) && WF(f)
    case ArrayLit(es) => forall i :: 0 <= i < |es| ==> WF(es[i])
    case Index(o, i) => Rank(o) >= CallLevel && WF(o) && WF(i)
    case IndexAssign(o, i, v) => Rank(o) >= CallLevel && WF(o) && WF(i) && WF(v)
    case Member(o, _) => Rank(o) >= CallLevel && WF(o)
  }

  /**
   * The `=` rewrite of assignment(): a variable target becomes an
   * assignment to that name, an index target an index assignment with the
   * same object and index; any other target is invalid (None).
   */
  function AssignTarget(target: Expr, value: Expr): (r: Option<Expr>)
    ensures r.Some? <==> target.Variable? || target.Index?
    ensures r.Some? ==> Rank(r.value) == AssignmentLevel
  {
    match target
    case Variable(name) => Some(Assign(name, value))
    case Index(o, i) => Some(IndexAssign(o, i, value))
    case _ => None
  }

  /** The target an assignment node writes to, as the expression it was parsed from. */
  function TargetOf(a: Expr): Option<Expr>
  {
    match a
    case Assign(name, _) => Some(Variable(name))
    case IndexAssign(o, i, _) => Some(Index(o, i))
    case CompoundAssign(name, _, _) => Some(Variable(name))
    case _ => None
  }

  /** Rewriting loses nothing: the target and the value can be read back. */
  lemma AssignTargetRoundTrip(target: Expr, value: Expr)
    requires AssignTarget(target, value).Some?
    ensures TargetOf(AssignTarget(target, value).value) == Some(target)
    ensures AssignTarget(target, value).value.value == value
  {
  }

  /** A well-formed rewrite: a call-level target and well-formed parts give a well-formed assignment. */
  lemma AssignTargetWF(target: Expr, value: Expr)
    requires AssignTarget(target, value).Some?
    ensures WF(target) && WF(value) ==> WF(AssignTarget(target, value).value)
  {
  }

  // The well-formedness of each node the parser builds, from that of its parts.

  lemma UnaryWF(op: TokenType, r: Expr)
    ensures WF(Unary(op, r)) <==> (op == Bang || op == Minus) && Rank(r) >= UnaryLevel && WF(r)
    ensures Rank(Unary(op, r)) == UnaryLevel
  {
  }

  lemma BinaryWF(l: Expr, op: TokenType, r: Expr)
    ensures WF(Binary(l, op, r)) <==>
      BinaryLevel(op) > 0 && Rank(l) >= BinaryLevel(op) && Rank(r) > BinaryLevel(op) && WF(l) && WF(r)
    ensures Rank(Binary(l, op, r)) == BinaryLevel(op)
  {
  }

  lemma LogicalWF(l: Expr, op: TokenType, r: Expr)
    ensures WF(Logical(l, op, r)) <==>
      (op == And || op == Or) && Rank(l) >= LogicalLevel(op) && Rank(r) > LogicalLevel(op) && WF(l) && WF(r)
    ensures Rank(Logical(l, op, r)) == LogicalLevel(op)
  {
  }

  lemma TernaryWF(c: Expr, t: Expr, f: Expr)
    ensures WF(Ternary(c, t, f)) <==> Rank(c) >= OrLevel && Rank(f) >= TernaryLevel && WF(c) && WF(t) && WF(f)
    ensures Rank(Ternary(c, t, f)) == TernaryLevel
  {
  }

  lemma CompoundWF(name: string, op: TokenType, v: Expr)
    ensures WF(CompoundAssign(name, op, v)) <==>
      (op == PlusEqual || op == MinusEqual || op == StarEqual || op == SlashEqual) && WF(v)
    ensures Rank(CompoundAssign(name, op, v)) == AssignmentLevel
  {
  }

  lemma UpdateWF(name: string, op: TokenType, prefix: bool)
    ensures WF(Update(name, op, prefix)) <==> op == PlusPlus || op == MinusMinus
    ensures Rank(Update(name, op, prefix)) == if prefix then UnaryLevel else PostfixLevel
  {
  }

  lemma CallWF(c: Expr, args: seq<Expr>)
    ensures WF(Call(c, args)) <==> Rank(c) >= CallLevel && WF(c) && forall i :: 0 <= i < |args| ==> WF(args[i])
    ensures Rank(Call(c, args)) == CallLevel
  {
  }

  lemma IndexWF(o: Expr, i: Expr)
    ensures WF(Index(o, i)) <==> Rank(o) >= CallLevel && WF(o) && WF(i)
    ensures Rank(Index(o, i)) == CallLevel
  {
  }

  lemma MemberWF(o: Expr, name: string)
    ensures WF(Member(o, name)) <==> Rank(o) >= CallLevel && WF(o)
    ensures Rank(Member(o, name)) == CallLevel
  {
  }

  lemma GroupingWF(x: Expr)
    ensures WF(Grouping(x)) <==> WF(x)
    ensures Rank(Grouping(x)) == PrimaryLevel
  {
  }

  lemma ArrayWF(es: seq<Expr>)
    ensures WF(ArrayLit(es)) <==> forall i :: 0 <= i < |es| ==> WF(es[i])
    ensures Rank(ArrayLit(es)) == PrimaryLevel
  {
  }

  /** Literals, names and the null node are leaves of the primary level. */
  lemma LeafWF(lit: Lit, name: string)
    ensures WF(Literal(lit)) && Rank(Literal(lit)) == PrimaryLevel
    ensures WF(Variable(name)) && Rank(Variable(name)) == PrimaryLevel
    ensures WF(Missing) && Rank(Missing) == PrimaryLevel
  {
  }

  /**
   * Left association: in a well-formed tree, the right operand of a binary
   * node is never a binary node of the same level, so `a - b - c` can only
   * be `(a - b) - c`.
   */
  lemma BinaryLeansLeft(e: Expr)
    requires WF(e) && e.Binary? && e.right.Binary?
    ensures BinaryLevel(e.right.op) > BinaryLevel(e.op)
  {
  }

  /**
   * Right association of the ternary: the condition of a well-formed
   * ternary is never itself an unparenthesised ternary, so
   * `a ? b : c ? d : e` can only nest in the else branch.
   */
  lemma TernaryNestsRight(e: Expr)
    requires WF(e) && e.Ternary?
    ensures !e.cond.Ternary? && !e.cond.Assign? && !e.cond.IndexAssign? && !e.cond.CompoundAssign?
  {
  }

  /** A tighter level is never the parent of a looser one without parentheses. */
  lemma PrecedenceOrder(e: Expr)
    requires WF(e) && e.Binary? && e.op in {Plus, Minus}
    ensures !(e.right.Binary? && e.right.op in {Plus, Minus, EqualEqual, BangEqual, Less, LessEqual, Greater, GreaterEqual})
    ensures !(e.left.Binary? && e.left.op in {EqualEqual, BangEqual, Less, LessEqual, Greater, GreaterEqual})
  {
  }
}

// The expression evaluator of src/evaluator.cpp, the predecessor of the
// Interpreter class: one global scope, the literal, variable, unary,
// binary, logical, grouping and assignment nodes, and no calls. It never
// makes an array or a callable, so every value it handles is nil, a number,
// a string or a boolean.
module OldEvaluator {
  import opened Wrappers
  import opened Ast
  import opened Values
  import opened Environments
  import opened Operators
  import Tokens

  /** The values this evaluator can meet: nil and the scalars. */
  predicate Plain(v: Value)
  {
    v == Value.Nil || IsScalar(v)
  }

  /** A scope binding only plain values. */
  predicate PlainScope(scope: Scope)
  {
    forall k :: k in scope ==> Plain(scope[k])
  }

  /**
   * evaluateBinary() of this evaluator once both operands are values: as
   * the interpreter's, except that `+` takes only two numbers or two
   * strings.
   */
  function PlainBinary(op: Tokens.TokenType, a: Value, b: Value): (res: Eval)
    ensures res.Done? ==> IsScalar(res.v)
  {
    if op == Tokens.Plus then
      if a.Num? && b.Num? then Done(Num(a.x + b.x))
      else if a.Str? && b.Str? then Done(Str(a.s + b.s))
      else Raised("Operands must be two numbers or two strings")
    else BinaryOp(op, a, b)
  }

  /**
   * The two evaluators differ only on `+` between a string and a number,
   * which the interpreter joins and this one rejects.
   */
  lemma PlainBinaryAgrees(op: Tokens.TokenType, a: Value, b: Value)
    ensures PlainBinary(op, a, b) != BinaryOp(op, a, b) <==>
      op == Tokens.Plus && ((a.Str? && b.Num?) || (a.Num? && b.Str?))
    ensures op == Tokens.Plus && ((a.Str? && b.Num?) || (a.Num? && b.Str?)) ==>
      PlainBinary(op, a, b) == Raised("Operands must be two numbers or two strings") && BinaryOp(op, a, b).Done?
  {
    if op != Tokens.Plus {
      assert PlainBinary(op, a, b) == BinaryOp(op, a, b);
    } else if (a.Num? && b.Num?) || (a.Str? && b.Str?) {
      assert PlainBinary(op, a, b) == BinaryOp(op, a, b);
    } else if (a.Str? && b.Num?) || (a.Num? && b.Str?) {
      assert BinaryOp(op, a, b).Done?;
    } else {
      assert PlainBinary(op, a, b) == Raised("Operands must be two numbers or two strings");
      assert BinaryOp(op, a, b) == PlainBinary(op, a, b);
    }
  }

  /**
   * evaluate(), on values: the outcome and the global scope afterwards.
   * Operands are evaluated left to right, each in the scope the previous
   * one left; an assignment binds in the one scope whether or not the name
   * was there; a call fails before anything inside it is evaluated; every
   * other node is unknown to this evaluator.
   */
  function Run(e: Expr, scope: Scope): (r: (Eval, Scope))
    requires PlainScope(scope)
    ensures PlainScope(r.1) && scope.Keys <= r.1.Keys
    ensures r.0.Done? ==> Plain(r.0.v)
    decreases e
  {
    match e
    case Literal(l) => (Done(LiteralValue(l)), scope)
    case Variable(name) => (if name in scope then Done(scope[name]) else Raised(Undefined(name)), scope)
    case Unary(op, right) =>
      var (x, s1) := Run(right, scope);
      (if x.Done? then UnaryOp(op, x.v) else x, s1)
    case Binary(left, op, right) =>
      var (a, s1) := Run(left, scope);
      if !a.Done? then (a, s1)
      else
        var (b, s2) := Run(right, s1);
        (if b.Done? then PlainBinary(op, a.v, b.v) else b, s2)
    case Logical(left, op, right) =>
      var (a, s1) := Run(left, scope);
      if !a.Done? || Decides(op, a.v) then (a, s1) else Run(right, s1)
    case Grouping(inner) => Run(inner, scope)
    case Call(_, _) => (Raised("Function calls not yet implemented"), scope)
    case Assign(name, value) =>
      var (x, s1) := Run(value, scope);
      (x, if x.Done? then s1[name := x.v] else s1)
    case _ => (Raised("Unknown expression type"), scope)
  }

  /** The expression holds an assignment this evaluator would reach. */
  predicate Assigns(e: Expr)
  {
    match e
    case Assign(_, _) => true
    case Unary(_, right) => Assigns(right)
    case Binary(left, _, right) => Assigns(left) || Assigns(right)
    case Logical(left, _, right) => Assigns(left) || Assigns(right)
    case Grouping(inner) => Assigns(inner)
    case _ => false
  }

  /** Without an assignment inside, evaluation leaves the scope as it was. */
  lemma {:induction false} RunWithoutAssignIsPure(e: Expr, scope: Scope)
    requires PlainScope(scope) && !Assigns(e)
    ensures Run(e, scope).1 == scope
    decreases e
  {
    match e
    case Unary(_, right) => RunWithoutAssignIsPure(right, scope);
    case Binary(left, _, right) =>
      RunWithoutAssignIsPure(left, scope);
      RunWithoutAssignIsPure(right, scope);
    case Logical(left, _, right) =>
      RunWithoutAssignIsPure(left, scope);
      RunWithoutAssignIsPure(right, scope);
    case Grouping(inner) => RunWithoutAssignIsPure(inner, scope);
    case _ =>
  }

  /** Evaluation only ever binds names it assigns: every other name keeps its value. */
  lemma {:induction false} RunKeepsOtherNames(e: Expr, scope: Scope, other: string)
    requires PlainScope(scope) && other in scope && !AssignsName(e, other)
    ensures other in Run(e, scope).1 && Run(e, scope).1[other] == scope[other]
    decreases e
  {
    match e
    case Unary(_, right) => RunKeepsOtherNames(right, scope, other);
    case Binary(left, _, right) =>
      RunKeepsOtherNames(left, scope, other);
      var s1 := Run(left, scope).1;
      RunKeepsOtherNames(right, s1, other);
    case Logical(left, _, right) =>
      RunKeepsOtherNames(left, scope, other);
      var s1 := Run(left, scope).1;
      RunKeepsOtherNames(right, s1, other);
    case Grouping(inner) => RunKeepsOtherNames(inner, scope, other);
    case Assign(_, value) => RunKeepsOtherNames(value, scope, other);
    case _ =>
  }

  /** The expression holds an assignment to `name`. */
  predicate AssignsName(e: Expr, name: string)
  {
    match e
    case Assign(n, value) => n == name || AssignsName(value, name)
    case Unary(_, right) => AssignsName(right, name)
    case Binary(left, _, right) => AssignsName(left, name) || AssignsName(right, name)
    case Logical(left, _, right) => AssignsName(left, name) || AssignsName(right, name)
    case Grouping(inner) => AssignsName(inner, name)
    case _ => false
  }

  /**
   * An assignment's value is the value the name then has, and assigning an
   * unbound name declares it.
   */
  lemma AssignThenRead(name: string, value: Expr, scope: Scope)
    requires PlainScope(scope)
    ensures var r := Run(Assign(name, value), scope);
      r.0.Done? ==> name in r.1 && Run(Variable(name), r.1).0 == r.0
  {
    var x := Run(value, scope);
    var r := Run(Assign(name, value), scope);
    assert r == (x.0, if x.0.Done? then x.1[name := x.0.v] else x.1);
  }

  class Evaluator {
    /** The single global scope. */
    var env: Environment

    ghost predicate Valid()
      reads this, env
    {
      env.Valid() && env.enclosing == null && PlainScope(env.values)
    }

    /** Evaluator(): an empty global scope. */
    constructor()
      ensures Valid() && fresh(env) && env.values == map[]
    {
      env := new Environment.Global();
    }

    /** reset(): a new, empty global scope; every earlier binding is gone. */
    method Reset()
      modifies this
      ensures Valid() && fresh(env) && env.values == map[]
    {
      env := new Environment.Global();
    }

    /** evaluate(): the outcome Run gives, with the global scope Run leaves. */
    method Evaluate(e: Expr) returns (r: Eval)
      requires Valid()
      modifies env
      ensures Valid() && env == old(env)
      ensures (r, env.values) == Run(e, old(env.values))
      decreases e
    {
      if e.Literal? {
        r := Done(LiteralValue(e.lit));
      } else if e.Variable? {
        var found := env.Get(e.name);
        r := if found.Ok? then Done(found.value) else Raised(found.error);
      } else if e.Unary? {
        var x := Evaluate(e.right);
        r := if x.Done? then UnaryOp(e.op, x.v) else x;
      } else if e.Binary? {
        var a := Evaluate(e.left);
        if !a.Done? {
          return a;
        }
        var b := Evaluate(e.right);
        r := if b.Done? then PlainBinary(e.op, a.v, b.v) else b;
      } else if e.Logical? {
        var a := Evaluate(e.left);
        if !a.Done? || Decides(e.op, a.v) {
          return a;
        }
        r := Evaluate(e.right);
      } else if e.Grouping? {
        r := Evaluate(e.inner);
      } else if e.Call? {
        r := Raised("Function calls not yet implemented");
      } else if e.Assign? {
        r := Evaluate(e.value);
        if r.Done? {
          Store(e.name, r.v);
        }
      } else {
        r := Raised("Unknown expression type");
      }
    }

    /** The store of evaluateAssign(): assign(), or define() when assign() fails; in one scope both bind there. */
    method Store(name: string, v: Value)
      requires Valid() && Plain(v)
      modifies env
      ensures Valid() && env.values == old(env.values)[name := v]
    {
      var stored := env.Assign(name, v);
      if stored.Fail? {
        env.Define(name, v);
      }
    }
  }
}

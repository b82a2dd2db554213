// What the reference semantics of module Semantics says about the
// language: short-circuiting, evaluation order, let binding, scoping,
// loop entry, break and continue, and the examples the interpreter's
// documentation gives. The Interpreter's methods agree with this
// reference wherever it gives an outcome, so these laws hold for them.
module SemanticsFacts {
  import opened Wrappers
  import Tokens
  import opened Ast
  import opened Values
  import opened Environments
  import opened Operators
  import opened Semantics

  // ----- expressions -----

  /**
   * `||` and `&&`: a left operand that decides is the result, whatever the
   * right operand is; the right operand is never evaluated.
   */
  lemma ShortCircuit(left: Expr, op: Tokens.TokenType, right: Expr, scopes: seq<Scope>)
    requires scopes != [] && PureEval(left, scopes).Some? && PureEval(left, scopes).value.result.Done?
    requires !PureEval(left, scopes).value.result.v.Arr? && Decides(op, PureEval(left, scopes).value.result.v)
    ensures PureEval(Logical(left, op, right), scopes) == PureEval(left, scopes)
  {
  }

  /**
   * A left operand that does not decide hands the result to the right
   * operand, evaluated in the chain the left one left.
   */
  lemma RightOperandDecides(left: Expr, op: Tokens.TokenType, right: Expr, scopes: seq<Scope>)
    requires scopes != [] && PureEval(left, scopes).Some? && PureEval(left, scopes).value.result.Done?
    requires !PureEval(left, scopes).value.result.v.Arr? && !Decides(op, PureEval(left, scopes).value.result.v)
    ensures PureEval(Logical(left, op, right), scopes) == PureEval(right, PureEval(left, scopes).value.scopes)
  {
  }

  /** `nil || "d"` is "d", not true: a logical expression gives an operand, not a boolean. */
  lemma LogicalGivesOperand(scopes: seq<Scope>)
    requires scopes != []
    ensures PureEval(Logical(Literal(LNil), Tokens.Or, Literal(LStr("d"))), scopes) == Some(Evaluated(Done(Str("d")), scopes))
  {
    assert PureEval(Literal(LNil), scopes) == Some(Evaluated(Done(Value.Nil), scopes));
    assert !Decides(Tokens.Or, Value.Nil);
  }

  /** `0 && y` is 0 even with `y` unbound, because the right operand is not looked up. */
  lemma LogicalShortCircuits(scopes: seq<Scope>)
    requires scopes != []
    ensures PureEval(Logical(Literal(LNum(0.0)), Tokens.And, Variable("y")), scopes) == Some(Evaluated(Done(Num(0.0)), scopes))
  {
    assert PureEval(Literal(LNum(0.0)), scopes) == Some(Evaluated(Done(Num(0.0)), scopes));
    assert Decides(Tokens.And, Num(0.0));
  }

  /**
   * Operands are evaluated left to right and the first failure is the
   * outcome: nothing after a failing operand is evaluated.
   */
  lemma FailureStops(first: Expr, op: Tokens.TokenType, second: Expr, third: Expr, scopes: seq<Scope>)
    requires scopes != [] && PureEval(first, scopes).Some? && !PureEval(first, scopes).value.result.Done?
    ensures PureEval(Binary(first, op, second), scopes) == PureEval(first, scopes)
    ensures PureEval(Logical(first, op, second), scopes) == PureEval(first, scopes)
    ensures PureEval(Unary(op, first), scopes) == PureEval(first, scopes)
    ensures PureEval(Ternary(first, second, third), scopes) == PureEval(first, scopes)
    ensures PureEval(Assign("x", first), scopes) == PureEval(first, scopes)
  {
  }

  /** A right operand that fails after a left one that succeeds is the outcome of a binary expression. */
  lemma RightFailureStops(left: Expr, op: Tokens.TokenType, right: Expr, scopes: seq<Scope>)
    requires scopes != [] && PureEval(left, scopes).Some? && PureEval(left, scopes).value.result.Done?
    requires var mid := PureEval(left, scopes).value.scopes;
      PureEval(right, mid).Some? && !PureEval(right, mid).value.result.Done?
    ensures PureEval(Binary(left, op, right), scopes) == PureEval(right, PureEval(left, scopes).value.scopes)
  {
  }

  /**
   * With both operands values, a binary expression is BinaryOp of them;
   * the right operand runs in the chain the left one left.
   */
  lemma BinaryOfValues(left: Expr, op: Tokens.TokenType, right: Expr, scopes: seq<Scope>, a: Value, b: Value,
                       mid: seq<Scope>, after: seq<Scope>)
    requires scopes != [] && mid != []
    requires PureEval(left, scopes) == Some(Evaluated(Done(a), mid)) && PureEval(right, mid) == Some(Evaluated(Done(b), after))
    ensures PureEval(Binary(left, op, right), scopes) == Some(Evaluated(BinaryOp(op, a, b), after))
  {
  }

  /** A ternary evaluates exactly one branch, chosen by the condition's truth, in the chain the condition left. */
  lemma TernaryTakesOneBranch(cond: Expr, thenBranch: Expr, elseBranch: Expr, scopes: seq<Scope>)
    requires scopes != [] && PureEval(cond, scopes).Some?
    requires PureEval(cond, scopes).value.result.Done? && !PureEval(cond, scopes).value.result.v.Arr?
    ensures var c := PureEval(cond, scopes).value;
      IsTruthy(c.result.v) ==> PureEval(Ternary(cond, thenBranch, elseBranch), scopes) == PureEval(thenBranch, c.scopes)
    ensures var c := PureEval(cond, scopes).value;
      !IsTruthy(c.result.v) ==> PureEval(Ternary(cond, thenBranch, elseBranch), scopes) == PureEval(elseBranch, c.scopes)
  {
  }

  /** `1 + 2 * 3` is 7: the product is an operand of the sum. */
  lemma ProductBindsTighter(scopes: seq<Scope>)
    requires scopes != []
    ensures PureEval(Binary(Literal(LNum(1.0)), Tokens.Plus, Binary(Literal(LNum(2.0)), Tokens.Star, Literal(LNum(3.0)))), scopes)
      == Some(Evaluated(Done(Num(7.0)), scopes))
  {
    var product := Binary(Literal(LNum(2.0)), Tokens.Star, Literal(LNum(3.0)));
    BinaryOfValues(Literal(LNum(2.0)), Tokens.Star, Literal(LNum(3.0)), scopes, Num(2.0), Num(3.0), scopes, scopes);
    assert BinaryOp(Tokens.Star, Num(2.0), Num(3.0)) == Done(Num(6.0));
    BinaryOfValues(Literal(LNum(1.0)), Tokens.Plus, product, scopes, Num(1.0), Num(6.0), scopes, scopes);
  }

  /** `(1 + 2) * 3` is 9: a grouping is evaluated as its inner expression. */
  lemma GroupedSumFirst(scopes: seq<Scope>)
    requires scopes != []
    ensures PureEval(Binary(Grouping(Binary(Literal(LNum(1.0)), Tokens.Plus, Literal(LNum(2.0)))), Tokens.Star, Literal(LNum(3.0))), scopes)
      == Some(Evaluated(Done(Num(9.0)), scopes))
  {
    var sum := Binary(Literal(LNum(1.0)), Tokens.Plus, Literal(LNum(2.0)));
    BinaryOfValues(Literal(LNum(1.0)), Tokens.Plus, Literal(LNum(2.0)), scopes, Num(1.0), Num(2.0), scopes, scopes);
    assert PureEval(Grouping(sum), scopes) == Some(Evaluated(Done(Num(3.0)), scopes));
    assert BinaryOp(Tokens.Star, Num(3.0), Num(3.0)) == Done(Num(9.0));
    BinaryOfValues(Grouping(sum), Tokens.Star, Literal(LNum(3.0)), scopes, Num(3.0), Num(3.0), scopes, scopes);
  }

  /** `10 % 3` is 1. */
  lemma RemainderExample(scopes: seq<Scope>)
    requires scopes != []
    ensures PureEval(Binary(Literal(LNum(10.0)), Tokens.Percent, Literal(LNum(3.0))), scopes) == Some(Evaluated(Done(Num(1.0)), scopes))
  {
    assert Trunc(10.0 / 3.0) == 3;
    PercentIsRemainder(10.0, 3.0);
    BinaryOfValues(Literal(LNum(10.0)), Tokens.Percent, Literal(LNum(3.0)), scopes, Num(10.0), Num(3.0), scopes, scopes);
  }

  /** An unbound variable is the error "Undefined variable: name". */
  lemma UnboundVariable(name: string, scopes: seq<Scope>)
    requires scopes != [] && !Bound(scopes, name)
    ensures PureEval(Variable(name), scopes) == Some(Evaluated(Raised(Undefined(name)), scopes))
  {
    LookupFindsNearest(scopes, name);
  }

  /** assign() to a name the innermost scope binds replaces the value there and keeps the rest of the chain. */
  lemma AssignInnermost(m: Scope, rest: seq<Scope>, name: string, a: Value, v: Value)
    requires m == map[name := a]
    ensures Bound([m] + rest, name)
    ensures Assigned([m] + rest, name, v) == Some([map[name := v]] + rest)
  {
    var scopes := [m] + rest;
    assert scopes[0] == m && scopes[1..] == rest;
    assert name in scopes[0];
    assert m[name := v].Keys == {name};
    assert m[name := v] == map[name := v];
  }

  /**
   * An assignment to an unbound name defines it in the innermost scope; to
   * a bound one, it changes the nearest binding. Either way the name then
   * reads as the value, which is the expression's.
   */
  lemma AssignStores(name: string, value: Expr, scopes: seq<Scope>)
    requires scopes != [] && PureEval(value, scopes).Some? && PureEval(value, scopes).value.result.Done?
    ensures var x := PureEval(value, scopes).value;
      PureEval(Assign(name, value), scopes) == Some(Evaluated(x.result, Stored(x.scopes, name, x.result.v))) &&
      Lookup(Stored(x.scopes, name, x.result.v), name) == Ok(x.result.v)
    ensures var x := PureEval(value, scopes).value;
      !Bound(x.scopes, name) ==> Stored(x.scopes, name, x.result.v) == Defined(x.scopes, name, x.result.v)
  {
  }

  /** `x += 2` where x is 5 gives 7, and x is 7 afterwards. */
  lemma CompoundExample(rest: seq<Scope>)
    ensures PureEval(CompoundAssign("x", Tokens.PlusEqual, Literal(LNum(2.0))), [map["x" := Num(5.0)]] + rest) ==
      Some(Evaluated(Done(Num(7.0)), [map["x" := Num(7.0)]] + rest))
  {
    var scopes := [map["x" := Num(5.0)]] + rest;
    assert Lookup(scopes, "x") == Ok(Num(5.0));
    assert Bound(scopes, "x") by {
      assert "x" in scopes[0];
    }
    assert Assigned(scopes, "x", Num(7.0)) == Some([map["x" := Num(7.0)]] + rest) by {
      assert scopes[1..] == rest;
      assert map["x" := Num(5.0)]["x" := Num(7.0)] == map["x" := Num(7.0)];
    }
  }

  /**
   * `x++` where x is 1 gives 1 and `++x` gives 2; either way x is 2
   * afterwards. On an unbound name both fail before storing anything.
   */
  lemma UpdateExample(rest: seq<Scope>)
    ensures PureEval(Update("x", Tokens.PlusPlus, false), [map["x" := Num(1.0)]] + rest) ==
      Some(Evaluated(Done(Num(1.0)), [map["x" := Num(2.0)]] + rest))
    ensures PureEval(Update("x", Tokens.PlusPlus, true), [map["x" := Num(1.0)]] + rest) ==
      Some(Evaluated(Done(Num(2.0)), [map["x" := Num(2.0)]] + rest))
  {
    var scopes := [map["x" := Num(1.0)]] + rest;
    assert Lookup(scopes, "x") == Ok(Num(1.0));
    assert Bound(scopes, "x") by {
      assert "x" in scopes[0];
    }
    assert Assigned(scopes, "x", Num(2.0)) == Some([map["x" := Num(2.0)]] + rest) by {
      assert scopes[1..] == rest;
      assert map["x" := Num(1.0)]["x" := Num(2.0)] == map["x" := Num(2.0)];
    }
  }

  /** An update of an unbound name fails with "Undefined variable: name" and changes nothing. */
  lemma UpdateUnbound(name: string, op: Tokens.TokenType, prefix: bool, scopes: seq<Scope>)
    requires scopes != [] && !Bound(scopes, name)
    ensures PureEval(Update(name, op, prefix), scopes) == Some(Evaluated(Raised(Undefined(name)), scopes))
  {
    LookupOkIffBound(scopes, name);
  }

  // ----- statements -----

  /** `let` binds in the innermost scope of the chain its initializer left; the name then reads as the initializer's value, or nil. */
  lemma LetBinds(name: string, init: Expr, scopes: seq<Scope>, fuel: nat)
    requires scopes != []
    requires init.Missing? || (PureEval(init, scopes).Some? && PureEval(init, scopes).value.result.Done?)
    ensures var x := if init.Missing? then Evaluated(Done(Value.Nil), scopes) else PureEval(init, scopes).value;
      x.scopes != [] &&
      PureExec(Let(name, init), scopes, fuel) == Some(Outcome(Normal, Defined(x.scopes, name, x.result.v), [])) &&
      Lookup(Defined(x.scopes, name, x.result.v), name) == Ok(x.result.v)
  {
    var x := if init.Missing? then Evaluated(Done(Value.Nil), scopes) else PureEval(init, scopes).value;
    DefineThenLookup(x.scopes, name, x.result.v, name + "'");
  }

  /** Chains whose scopes hold the same names bind the same names. */
  lemma SameNamesBound(a: seq<Scope>, b: seq<Scope>, name: string)
    requires SameNames(a, b)
    ensures Bound(a, name) <==> Bound(b, name)
  {
    if Bound(a, name) {
      var i :| 0 <= i < |a| && name in a[i];
      assert name in b[i];
    }
    if Bound(b, name) {
      var i :| 0 <= i < |b| && name in b[i];
      assert name in a[i];
    }
  }

  /**
   * A `let` in a block binds in the block's own scope, which is dropped
   * afterwards: every scope of the chain holds the names it held, so a
   * name is bound after the block exactly when it was before.
   */
  lemma BlockKeepsOuterBindings(stmts: seq<Stmt>, scopes: seq<Scope>, fuel: nat, name: string)
    requires scopes != [] && PureExec(Block(stmts), scopes, fuel).Some?
    ensures var after := PureExec(Block(stmts), scopes, fuel).value.scopes;
      SameNames(scopes, after) && (Bound(after, name) <==> Bound(scopes, name))
  {
    SameNamesBound(scopes, PureExec(Block(stmts), scopes, fuel).value.scopes, name);
  }

  /**
   * A `for` loop's initializer binds in the loop's own scope, so after the
   * loop every scope holds the names it held and the loop variable is
   * bound exactly when it was before.
   */
  lemma ForInitializerInvisible(s: Stmt, scopes: seq<Scope>, fuel: nat, name: string)
    requires s.For? && scopes != [] && PureExec(s, scopes, fuel).Some?
    ensures var after := PureExec(s, scopes, fuel).value.scopes;
      SameNames(scopes, after) && (Bound(after, name) <==> Bound(scopes, name))
  {
    SameNamesBound(scopes, PureExec(s, scopes, fuel).value.scopes, name);
  }

  /** `print e;` writes one line, the text of e's value. */
  lemma PrintWritesText(e: Expr, scopes: seq<Scope>, fuel: nat)
    requires scopes != [] && PureEval(e, scopes).Some? && PureEval(e, scopes).value.result.Done?
    requires !PureEval(e, scopes).value.result.v.Arr? && ScalarText(PureEval(e, scopes).value.result.v).Some?
    ensures var x := PureEval(e, scopes).value;
      PureExec(PrintStmt(e), scopes, fuel) == Some(Outcome(Normal, x.scopes, [ScalarText(x.result.v).value]))
  {
  }

  /** `{ let x = 20; print x; }` in a chain binding x to 10 prints 20 and leaves the chain as it was. */
  lemma InnerBlockExample(fuel: nat)
    ensures PureExec(Block([Let("x", Literal(LNum(20.0))), PrintStmt(Variable("x"))]), [map["x" := Num(10.0)]], fuel)
      == Some(Outcome(Normal, [map["x" := Num(10.0)]], ["20"]))
  {
    var outer: seq<Scope> := [map["x" := Num(10.0)]];
    var inner: seq<Scope> := [map["x" := Num(20.0)], map["x" := Num(10.0)]];
    var show := PrintStmt(Variable("x"));
    var bind := Let("x", Literal(LNum(20.0)));
    assert PureExec(show, inner, fuel) == Some(Outcome(Normal, inner, ["20"])) by {
      Text.IntegerNumberText(20);
      assert Text.NatToString(20) == "20";
      assert PureEval(Variable("x"), inner) == Some(Evaluated(Done(Num(20.0)), inner));
      PrintWritesText(Variable("x"), inner, fuel);
    }
    assert [show][1..] == [] && ["20"] + [] == ["20"];
    assert PureList([], inner, fuel) == Some(Outcome(Normal, inner, []));
    assert PureList([show], inner, fuel) == Some(Outcome(Normal, inner, ["20"]));
    assert [map[]] + outer == [map[], map["x" := Num(10.0)]];
    assert Defined([map[]] + outer, "x", Num(20.0)) == inner;
    assert [bind, show][1..] == [show] && [] + ["20"] == ["20"];
    assert PureExec(bind, [map[]] + outer, fuel) == Some(Outcome(Normal, inner, []));
    assert PureList([bind, show], [map[]] + outer, fuel) == Some(Outcome(Normal, inner, ["20"]));
  }

  /**
   * `let x = 10; { let x = 20; print x; } print x;` prints 20 and then 10:
   * the inner binding does not leak out of the block.
   */
  lemma ShadowingExample(fuel: nat)
    ensures PureList([Let("x", Literal(LNum(10.0))),
                      Block([Let("x", Literal(LNum(20.0))), PrintStmt(Variable("x"))]),
                      PrintStmt(Variable("x"))], [map[]], fuel)
      == Some(Outcome(Normal, [map["x" := Num(10.0)]], ["20", "10"]))
  {
    var outer: seq<Scope> := [map["x" := Num(10.0)]];
    var show := PrintStmt(Variable("x"));
    var bind := Let("x", Literal(LNum(10.0)));
    var block := Block([Let("x", Literal(LNum(20.0))), show]);
    InnerBlockExample(fuel);
    assert PureExec(show, outer, fuel) == Some(Outcome(Normal, outer, ["10"])) by {
      Text.IntegerNumberText(10);
      assert Text.NatToString(10) == "10";
      assert PureEval(Variable("x"), outer) == Some(Evaluated(Done(Num(10.0)), outer));
      PrintWritesText(Variable("x"), outer, fuel);
    }
    assert [show][1..] == [] && ["10"] + [] == ["10"];
    assert PureList([], outer, fuel) == Some(Outcome(Normal, outer, []));
    assert PureList([show], outer, fuel) == Some(Outcome(Normal, outer, ["10"]));
    assert [bind, block, show][1..] == [block, show] && [block, show][1..] == [show];
    assert ["20"] + ["10"] == ["20", "10"] && [] + ["20", "10"] == ["20", "10"];
    assert PureList([block, show], outer, fuel) == Some(Outcome(Normal, outer, ["20", "10"]));
    assert Defined([map[]], "x", Num(10.0)) == outer;
    assert PureExec(bind, [map[]], fuel) == Some(Outcome(Normal, outer, []));
  }

  /**
   * `{ x = 2; }` in a chain binding x to 1 assigns the outer x: the block
   * drops only its own scope, so the assignment is still there after it.
   */
  lemma BlockAssignsOuter(fuel: nat)
    ensures PureExec(Block([ExprStmt(Assign("x", Literal(LNum(2.0))))]), [map["x" := Num(1.0)]], fuel)
      == Some(Outcome(Normal, [map["x" := Num(2.0)]], []))
  {
    var outer: seq<Scope> := [map["x" := Num(1.0)]];
    var inner: seq<Scope> := [map[]] + outer;
    var changed: seq<Scope> := [map[], map["x" := Num(2.0)]];
    var store := ExprStmt(Assign("x", Literal(LNum(2.0))));
    AssignInnermost(map["x" := Num(1.0)], [], "x", Num(1.0), Num(2.0));
    assert [map["x" := Num(1.0)]] + [] == outer && [map["x" := Num(2.0)]] + [] == [map["x" := Num(2.0)]];
    assert inner[0] == map[] && inner[1..] == outer;
    assert Bound(inner, "x") by {
      assert "x" in inner[1];
    }
    assert Assigned(inner, "x", Num(2.0)) == Some([inner[0]] + [map["x" := Num(2.0)]]);
    assert [inner[0]] + [map["x" := Num(2.0)]] == changed;
    assert Stored(inner, "x", Num(2.0)) == changed;
    assert PureEval(Assign("x", Literal(LNum(2.0))), inner) == Some(Evaluated(Done(Num(2.0)), changed));
    assert PureExec(store, inner, fuel) == Some(Outcome(Normal, changed, []));
    assert [store][1..] == [];
    assert PureList([], changed, fuel) == Some(Outcome(Normal, changed, []));
    assert Then([], Outcome(Normal, changed, [])) == Outcome(Normal, changed, []);
    assert PureList([store], inner, fuel) == Some(Outcome(Normal, changed, []));
    assert changed[1..] == [map["x" := Num(2.0)]];
  }

  /** A statement list stops at its first statement that does not end normally; the rest never runs. */
  lemma ListStopsAtAbnormal(first: Stmt, rest: seq<Stmt>, scopes: seq<Scope>, fuel: nat)
    requires scopes != [] && PureExec(first, scopes, fuel).Some? && !PureExec(first, scopes, fuel).value.flow.Normal?
    ensures PureList([first] + rest, scopes, fuel) == PureExec(first, scopes, fuel)
  {
    assert ([first] + rest)[0] == first;
  }

  /** `return e;` carries e's value out; `return;` carries nil. */
  lemma ReturnCarriesValue(value: Expr, scopes: seq<Scope>, fuel: nat)
    requires scopes != []
    requires value.Missing? || (PureEval(value, scopes).Some? && PureEval(value, scopes).value.result.Done?)
    ensures var x := if value.Missing? then Evaluated(Done(Value.Nil), scopes) else PureEval(value, scopes).value;
      PureExec(Return(value), scopes, fuel) == Some(Outcome(Returned(x.result.v), x.scopes, []))
  {
  }

  /** execute() has no branch for run-until: its body never runs, and the statement fails. */
  lemma RunUntilNeverRuns(body: Stmt, cond: Expr, scopes: seq<Scope>, fuel: nat)
    requires scopes != []
    ensures PureExec(RunUntil(body, cond), scopes, fuel) == Some(Outcome(Threw("Unknown statement type"), scopes, []))
  {
  }

  /** A `while` whose condition is falsy at the first test never runs its body. */
  lemma WhileFalsySkipsBody(cond: Expr, body: Stmt, scopes: seq<Scope>, fuel: nat)
    requires scopes != [] && fuel > 0
    requires PureEval(cond, scopes).Some? && PureEval(cond, scopes).value.result.Done?
    requires !PureEval(cond, scopes).value.result.v.Arr? && !IsTruthy(PureEval(cond, scopes).value.result.v)
    ensures PureExec(While(cond, body), scopes, fuel) == Some(Outcome(Normal, PureEval(cond, scopes).value.scopes, []))
  {
    var s := While(cond, body);
    var c := PureEval(cond, scopes).value;
    assert PureIteration(s, scopes, fuel) == Some(Iteration(Outcome(Normal, c.scopes, []), false, c.result, None, None));
    WhileStep(s, scopes, fuel);
  }

  /** A body that breaks ends the loop normally, with what the body printed and bound. */
  lemma WhileBreakEnds(cond: Expr, body: Stmt, scopes: seq<Scope>, fuel: nat, c: Evaluated, b: Outcome)
    requires scopes != [] && fuel > 0
    requires PureEval(cond, scopes) == Some(c) && c.result.Done? && !c.result.v.Arr? && IsTruthy(c.result.v)
    requires c.scopes != [] && PureExec(body, c.scopes, fuel) == Some(b) && b.flow.BreakOut?
    ensures PureExec(While(cond, body), scopes, fuel) == Some(Outcome(Normal, b.scopes, b.lines))
  {
    var s := While(cond, body);
    WhileStep(s, scopes, fuel);
    assert PureIteration(s, scopes, fuel) == Some(Iteration(Outcome(Normal, b.scopes, b.lines), false, c.result, Some(BreakOut), None));
  }

  /** A body that continues goes back to the test: the loop runs on from the body's scopes. */
  lemma WhileContinueRetests(cond: Expr, body: Stmt, scopes: seq<Scope>, fuel: nat)
    requires scopes != [] && fuel > 0
    requires PureEval(cond, scopes).Some? && PureEval(cond, scopes).value.result.Done?
    requires !PureEval(cond, scopes).value.result.v.Arr? && IsTruthy(PureEval(cond, scopes).value.result.v)
    requires var c := PureEval(cond, scopes).value;
      PureExec(body, c.scopes, fuel).Some? && PureExec(body, c.scopes, fuel).value.flow.ContinueOut?
    ensures var b := PureExec(body, PureEval(cond, scopes).value.scopes, fuel).value;
      var rest := PureLoop(While(cond, body), b.scopes, fuel, fuel - 1);
      PureExec(While(cond, body), scopes, fuel) == (if rest.None? then None else Some(Then(b.lines, rest.value)))
  {
    var s := While(cond, body);
    var c := PureEval(cond, scopes).value;
    var b := PureExec(body, c.scopes, fuel).value;
    assert PureIteration(s, scopes, fuel) == Some(Iteration(Outcome(Normal, b.scopes, b.lines), true, c.result, Some(ContinueOut), None));
    WhileStep(s, scopes, fuel);
  }

  /** The chain a `for` loop's body runs in: the one its condition left, or the loop's own when it has none. */
  function BodyScopes(s: Stmt, scopes: seq<Scope>): seq<Scope>
    requires s.For? && scopes != []
  {
    if s.cond.Missing? || PureEval(s.cond, scopes).None? then scopes else PureEval(s.cond, scopes).value.scopes
  }

  /** In a `for` loop, a body that continues is still followed by the increment, and the loop goes on after it. */
  lemma ForContinueRunsIncrement(s: Stmt, scopes: seq<Scope>, fuel: nat)
    requires s.For? && scopes != [] && !s.incr.Missing?
    requires s.cond.Missing? ||
      (PureEval(s.cond, scopes).Some? && PureEval(s.cond, scopes).value.result.Done? &&
       !PureEval(s.cond, scopes).value.result.v.Arr? && IsTruthy(PureEval(s.cond, scopes).value.result.v))
    requires var b := PureExec(s.body, BodyScopes(s, scopes), fuel);
      b.Some? && b.value.flow.ContinueOut? && PureEval(s.incr, b.value.scopes).Some? &&
      PureEval(s.incr, b.value.scopes).value.result.Done?
    ensures PureStep(s, scopes, fuel).Some?
    ensures PureStep(s, scopes, fuel).value.body == Some(ContinueOut)
    ensures var b := PureExec(s.body, BodyScopes(s, scopes), fuel).value;
      PureStep(s, scopes, fuel).value.incr == Some(PureEval(s.incr, b.scopes).value.result)
    ensures PureStep(s, scopes, fuel).value.more
  {
  }

  /** A `for` loop without a condition tests true: the body runs. */
  lemma ForMissingConditionRuns(s: Stmt, scopes: seq<Scope>, fuel: nat)
    requires s.For? && s.cond.Missing? && scopes != [] && PureExec(s.body, scopes, fuel).Some?
    ensures PureIteration(s, scopes, fuel).Some?
    ensures PureIteration(s, scopes, fuel).value.body == Some(PureExec(s.body, scopes, fuel).value.flow)
  {
  }

  /**
   * `while (true) {}` never ends: every number of iterations the model
   * follows runs out, and the outcome is Stopped with nothing printed.
   */
  lemma {:induction false} EndlessLoopStops(scopes: seq<Scope>, fuel: nat, left: nat)
    requires scopes != []
    ensures PureLoop(While(Literal(LBool(true)), Block([])), scopes, fuel, left) == Some(Outcome(Stopped, scopes, []))
    decreases left
  {
    var s := While(Literal(LBool(true)), Block([]));
    if left > 0 {
      assert ([map[]] + scopes)[1..] == scopes;
      assert PureExec(Block([]), scopes, fuel) == Some(Outcome(Normal, scopes, []));
      assert PureStep(s, scopes, fuel) == Some(Iteration(Outcome(Normal, scopes, []), true, Done(Bool(true)), Some(Normal), None));
      EndlessLoopStops(scopes, fuel, left - 1);
      assert Then([], Outcome(Stopped, scopes, [])) == Outcome(Stopped, scopes, []);
    }
  }

  // ----- a counting loop -----

  /** `while (i < 3) i = i + 1;` */
  const CountToThree: Stmt :=
    While(Binary(Variable("i"), Tokens.Less, Literal(LNum(3.0))),
          ExprStmt(Assign("i", Binary(Variable("i"), Tokens.Plus, Literal(LNum(1.0))))))

  /** The chain binding only `i`, to n. */
  function Counter(n: real): seq<Scope>
  {
    [map["i" := Num(n)]]
  }

  /** The test `i < 3` in the counter's chain compares i with 3 and binds nothing. */
  lemma CountingTest(n: real)
    ensures PureEval(Binary(Variable("i"), Tokens.Less, Literal(LNum(3.0))), Counter(n)) ==
      Some(Evaluated(Done(Bool(n < 3.0)), Counter(n)))
  {
    var scopes := Counter(n);
    assert Lookup(scopes, "i") == Ok(Num(n));
    assert PureEval(Variable("i"), scopes) == Some(Evaluated(Done(Num(n)), scopes));
    assert BinaryOp(Tokens.Less, Num(n), Num(3.0)) == Done(Bool(n < 3.0));
  }

  /** The body `i = i + 1;` stores i + 1 into the binding of i. */
  lemma CountingBody(n: real, fuel: nat)
    ensures PureExec(ExprStmt(Assign("i", Binary(Variable("i"), Tokens.Plus, Literal(LNum(1.0))))), Counter(n), fuel) ==
      Some(Outcome(Normal, Counter(n + 1.0), []))
  {
    var scopes := Counter(n);
    var next := Binary(Variable("i"), Tokens.Plus, Literal(LNum(1.0)));
    assert Lookup(scopes, "i") == Ok(Num(n));
    assert PureEval(Variable("i"), scopes) == Some(Evaluated(Done(Num(n)), scopes));
    assert BinaryOp(Tokens.Plus, Num(n), Num(1.0)) == Done(Num(n + 1.0));
    assert PureEval(next, scopes) == Some(Evaluated(Done(Num(n + 1.0)), scopes));
    AssignInnermost(map["i" := Num(n)], [], "i", Num(n), Num(n + 1.0));
    assert [map["i" := Num(n)]] + [] == scopes && [map["i" := Num(n + 1.0)]] + [] == Counter(n + 1.0);
    assert Stored(scopes, "i", Num(n + 1.0)) == Counter(n + 1.0);
  }

  /** Below 3, one iteration tests true, runs the body normally and stores i + 1. */
  lemma CountingStep(n: real, fuel: nat)
    requires n < 3.0
    ensures PureStep(CountToThree, Counter(n), fuel) ==
      Some(Iteration(Outcome(Normal, Counter(n + 1.0), []), true, Done(Bool(true)), Some(Normal), None))
  {
    CountingTest(n);
    CountingBody(n, fuel);
    assert PureIteration(CountToThree, Counter(n), fuel) ==
      Some(Iteration(Outcome(Normal, Counter(n + 1.0), []), true, Done(Bool(true)), Some(Normal), None));
    WhileStep(CountToThree, Counter(n), fuel);
  }

  /** At 3 the test is false and the loop ends normally, leaving i at 3. */
  lemma CountingEnds(fuel: nat)
    ensures PureStep(CountToThree, Counter(3.0), fuel) ==
      Some(Iteration(Outcome(Normal, Counter(3.0), []), false, Done(Bool(false)), None, None))
  {
    CountingTest(3.0);
    assert PureIteration(CountToThree, Counter(3.0), fuel) ==
      Some(Iteration(Outcome(Normal, Counter(3.0), []), false, Done(Bool(false)), None, None));
    WhileStep(CountToThree, Counter(3.0), fuel);
  }

  /** An iteration that goes on without printing leaves the loop's outcome to the iterations after it. */
  lemma LoopGoesOn(s: Stmt, scopes: seq<Scope>, fuel: nat, left: nat, it: Iteration)
    requires (s.While? || s.For?) && scopes != [] && left > 0
    requires PureStep(s, scopes, fuel) == Some(it) && it.more && it.outcome.lines == []
    ensures it.outcome.scopes != []
    ensures PureLoop(s, scopes, fuel, left) == PureLoop(s, it.outcome.scopes, fuel, left - 1)
  {
    var rest := PureLoop(s, it.outcome.scopes, fuel, left - 1);
    if rest.Some? {
      assert Then([], rest.value) == rest.value;
    }
  }

  /** Below 3, the loop from i = n goes on as the loop from i = n + 1 with one iteration fewer. */
  lemma CountingNext(n: real, fuel: nat, left: nat)
    requires n < 3.0 && left > 0
    ensures PureLoop(CountToThree, Counter(n), fuel, left) == PureLoop(CountToThree, Counter(n + 1.0), fuel, left - 1)
  {
    CountingStep(n, fuel);
    LoopGoesOn(CountToThree, Counter(n), fuel, left,
      Iteration(Outcome(Normal, Counter(n + 1.0), []), true, Done(Bool(true)), Some(Normal), None));
  }

  /** At 3, with any iteration left, the loop ends at once. */
  lemma CountingDone(fuel: nat, left: nat)
    requires left > 0
    ensures PureLoop(CountToThree, Counter(3.0), fuel, left) == Some(Outcome(Normal, Counter(3.0), []))
  {
    CountingEnds(fuel);
  }

  /** From i = n in {0, 1, 2, 3}, with more than 3 - n iterations left, the loop ends with i at 3 and prints nothing. */
  lemma {:induction false} CountingFrom(n: real, fuel: nat, left: nat)
    requires n in {0.0, 1.0, 2.0, 3.0} && left as real > 3.0 - n
    ensures PureLoop(CountToThree, Counter(n), fuel, left) == Some(Outcome(Normal, Counter(3.0), []))
    decreases 3.0 - n
  {
    if n == 3.0 {
      CountingDone(fuel, left);
    } else {
      CountingNext(n, fuel, left);
      CountingFrom(n + 1.0, fuel, left - 1);
    }
  }

  /** The loop run from i = 0 with fuel for four tests. */
  lemma CountingRuns(fuel: nat)
    requires fuel > 3
    ensures PureExec(CountToThree, Counter(0.0), fuel) == Some(Outcome(Normal, Counter(3.0), []))
  {
    CountingFrom(0.0, fuel, fuel);
  }

  /** Two statements in a row: the second runs in the scopes the first leaves, after the first ended normally without printing. */
  lemma TwoInARow(first: Stmt, second: Stmt, scopes: seq<Scope>, mid: seq<Scope>, fuel: nat, o: Outcome)
    requires scopes != [] && mid != []
    requires PureExec(first, scopes, fuel) == Some(Outcome(Normal, mid, []))
    requires PureExec(second, mid, fuel) == Some(o)
    ensures PureList([first, second], scopes, fuel) == Some(o)
  {
    assert [first, second][1..] == [second];
    assert [second][1..] == [];
    if o.flow.Normal? {
      assert Then(o.lines, Outcome(Normal, o.scopes, [])) == o;
    }
    assert PureList([second], mid, fuel) == Some(o);
    assert Then([], o) == o;
  }

  /**
   * `let i = 0; while (i < 3) i = i + 1;` ends normally with i bound to 3,
   * given fuel for four tests.
   */
  lemma CountingExample(fuel: nat)
    requires fuel > 3
    ensures PureList([Let("i", Literal(LNum(0.0))), CountToThree], [map[]], fuel) == Some(Outcome(Normal, Counter(3.0), []))
  {
    var start: seq<Scope> := [map[]];
    assert Defined(start, "i", Num(0.0)) == Counter(0.0);
    CountingRuns(fuel);
    TwoInARow(Let("i", Literal(LNum(0.0))), CountToThree, start, Counter(0.0), fuel, Outcome(Normal, Counter(3.0), []));
  }
}

// The tree-walking executor of src/interpreter.cpp. The interpreter holds
// the current scope, which blocks and `for` loops replace by a child scope
// and restore on every exit; arrays live on the heap and are changed in
// place through any value that refers to them. The exceptions the source
// throws for break, continue, return and runtime errors are the Flow and
// Eval outcomes here.
module Interpreting {
  import opened Wrappers
  import opened Ast
  import opened Values
  import opened Environments
  import opened Operators
  import opened Semantics
  import Tokens

  // ----- the heap the interpreter reaches -----

  /**
   * A value refers only to registered arrays; the callables that `push`
   * and `pop` return keep their target array and their fixed arity.
   */
  ghost predicate Holds(v: Value, arrays: set<VoltArray>)
  {
    (v.Arr? ==> v.a in arrays) &&
    (v.Fn? && v.f.routine.ArrayPush? ==> v.f.routine.target in arrays && v.f.arity == 1) &&
    (v.Fn? && v.f.routine.ArrayPop? ==> v.f.routine.target in arrays && v.f.arity == 0)
  }

  /** Every binding of every scope holds. */
  ghost predicate ScopesHeld(scopes: seq<Scope>, arrays: set<VoltArray>)
  {
    forall i, k :: 0 <= i < |scopes| && k in scopes[i] ==> Holds(scopes[i][k], arrays)
  }

  /** Every element of every registered array holds. */
  ghost predicate ArraysHeld(arrays: set<VoltArray>)
    reads arrays
  {
    forall a, j :: a in arrays && 0 <= j < |a.elements| ==> Holds(a.elements[j], arrays)
  }

  /** The bindings of a chain hold exactly when those of its first scope and of the rest do. */
  lemma HeldCons(first: Scope, rest: seq<Scope>, arrays: set<VoltArray>)
    ensures ScopesHeld([first] + rest, arrays) <==>
      (forall k :: k in first ==> Holds(first[k], arrays)) && ScopesHeld(rest, arrays)
  {
    var s := [first] + rest;
    if ScopesHeld(s, arrays) {
      assert s[0] == first;
      forall i, k | 0 <= i < |rest| && k in rest[i]
        ensures Holds(rest[i][k], arrays)
      {
        assert s[i + 1] == rest[i];
      }
    }
    if (forall k :: k in first ==> Holds(first[k], arrays)) && ScopesHeld(rest, arrays) {
      forall i, k | 0 <= i < |s| && k in s[i]
        ensures Holds(s[i][k], arrays)
      {
        if i == 0 {
          assert s[0] == first;
        } else {
          assert s[i] == rest[i - 1];
        }
      }
    }
  }

  /** A looked-up value holds when the chain does. */
  lemma LookupHeld(scopes: seq<Scope>, name: string, arrays: set<VoltArray>)
    requires ScopesHeld(scopes, arrays) && Lookup(scopes, name).Ok?
    ensures Holds(Lookup(scopes, name).value, arrays)
  {
    LookupFindsNearest(scopes, name);
    var i := Nearest(scopes, name);
    assert Holds(scopes[i][name], arrays);
  }

  /** assign() of a holding value: the chain still holds, keeps its names, and the name now gives the value. */
  lemma AssignKeeps(scopes: seq<Scope>, name: string, v: Value, arrays: set<VoltArray>)
    requires Bound(scopes, name) && ScopesHeld(scopes, arrays) && Holds(v, arrays)
    ensures Assigned(scopes, name, v).Some?
    ensures SameNames(scopes, Assigned(scopes, name, v).value)
    ensures ScopesHeld(Assigned(scopes, name, v).value, arrays)
    ensures Lookup(Assigned(scopes, name, v).value, name) == Ok(v)
  {
    AssignedChangesNearest(scopes, name, v);
    AssignThenLookup(scopes, name, v);
    var r := Assigned(scopes, name, v).value;
    var n := Nearest(scopes, name);
    forall i, k | 0 <= i < |r| && k in r[i]
      ensures Holds(r[i][k], arrays)
    {
      if i != n {
        assert r[i] == scopes[i];
      }
    }
  }

  /** define() of a holding value: the chain still holds, only the innermost scope grows, and the name gives the value. */
  lemma DefineKeeps(scopes: seq<Scope>, name: string, v: Value, arrays: set<VoltArray>)
    requires scopes != [] && ScopesHeld(scopes, arrays) && Holds(v, arrays)
    ensures Grown(scopes, Defined(scopes, name, v))
    ensures ScopesHeld(Defined(scopes, name, v), arrays)
    ensures Lookup(Defined(scopes, name, v), name) == Ok(v)
  {
    var d := Defined(scopes, name, v);
    assert d[1..] == scopes[1..];
    forall i | 0 < i < |scopes|
      ensures d[i] == scopes[i]
    {
      assert d[i] == d[1..][i - 1];
    }
  }

  /** The operand evaluated first: a binary node's left, an indexing's object. */
  function First(e: Expr): Expr
    requires e.Binary? || e.Index? || e.IndexAssign?
  {
    if e.Binary? then e.left else e.obj
  }

  /** The operand evaluated second: a binary node's right, an indexing's index. */
  function Second(e: Expr): Expr
    requires e.Binary? || e.Index? || e.IndexAssign?
  {
    if e.Binary? then e.right else e.index
  }

  /** The arguments of a call, the elements of an array literal. */
  function Items(e: Expr): seq<Expr>
    requires e.Call? || e.ArrayLit?
  {
    if e.Call? then e.args else e.elements
  }

  // ----- operations on array values -----

  /**
   * The store of evaluateIndexAssign() once object, index and value are
   * known: exactly one slot changes and the value is the result, or the
   * index check fails and nothing changes.
   */
  method Store(obj: Value, index: Value, v: Value) returns (r: Eval)
    modifies if obj.Arr? then {obj.a} else {}
    ensures r.Done? <==> old(Slot(obj, index)).Ok?
    ensures r.Done? ==> r.v == v && obj.a.elements == old(obj.a.elements)[old(Slot(obj, index)).value := v]
    ensures !r.Done? ==> r == Raised(old(Slot(obj, index)).error) && (obj.Arr? ==> obj.a.elements == old(obj.a.elements))
  {
    var slot := Slot(obj, index);
    if slot.Fail? {
      return Raised(slot.error);
    }
    var _ := obj.a.Set(slot.value, v);
    r := Done(v);
  }

  /**
   * evaluateMember(): `length` is the element count; `push` and `pop` are
   * new callables bound to this very array; nothing else is a member, and
   * only arrays have members.
   */
  method MemberOf(obj: Value, name: string) returns (r: Eval)
    ensures !obj.Arr? ==> r == Raised("Only arrays have members")
    ensures obj.Arr? && name == "length" ==> r == Done(Num(|obj.a.elements| as real))
    ensures obj.Arr? && name == "push" ==>
      r.Done? && r.v.Fn? && fresh(r.v.f) && r.v.f.arity == 1 && r.v.f.routine == ArrayPush(obj.a)
    ensures obj.Arr? && name == "pop" ==>
      r.Done? && r.v.Fn? && fresh(r.v.f) && r.v.f.arity == 0 && r.v.f.routine == ArrayPop(obj.a)
    ensures obj.Arr? && name != "length" && name != "push" && name != "pop" ==>
      r == Raised("Unknown array member: " + name)
  {
    if !obj.Arr? {
      return Raised("Only arrays have members");
    }
    if name == "length" {
      return Done(Num(|obj.a.elements| as real));
    }
    if name == "push" {
      var f := new Callable(1, ArrayPush(obj.a));
      return Done(Fn(f));
    }
    if name == "pop" {
      var f := new Callable(0, ArrayPop(obj.a));
      return Done(Fn(f));
    }
    r := Raised("Unknown array member: " + name);
  }

  /**
   * function->call() after the arity check: `push` appends its argument
   * and gives nil, `pop` gives what VoltArray::pop gives; user functions
   * and host built-ins run code outside this model.
   */
  method Invoke(f: Callable, args: seq<Value>) returns (r: Eval)
    requires f.arity == |args|
    requires f.routine.ArrayPush? ==> f.arity == 1
    modifies if f.routine.ArrayPush? || f.routine.ArrayPop? then {f.routine.target} else {}
    ensures f.routine.ArrayPush? ==>
      r == Done(Value.Nil) && f.routine.target.elements == old(f.routine.target.elements) + [args[0]]
    ensures f.routine.ArrayPop? ==>
      r.Done? && (r.v, f.routine.target.elements) == Popped(old(f.routine.target.elements))
    ensures f.routine.UserFunction? || f.routine.Builtin? ==> r == Beyond
  {
    if f.routine.ArrayPush? {
      f.routine.target.Push(args[0]);
      return Done(Value.Nil);
    }
    if f.routine.ArrayPop? {
      var v := f.routine.target.Pop();
      return Done(v);
    }
    r := Beyond;
  }

  /** The arrays a call of `callee` with `count` arguments changes: the target of a `push` or `pop` that goes through. */
  function Changed(callee: Value, count: nat): set<VoltArray>
  {
    if CallCheck(callee, count).Ok? && (callee.f.routine.ArrayPush? || callee.f.routine.ArrayPop?) then {callee.f.routine.target}
    else {}
  }

  /** Every array of `before` other than `x` is still there and holds what it held. */
  ghost predicate OthersKept(before: map<VoltArray, seq<Value>>, after: map<VoltArray, seq<Value>>, x: VoltArray)
  {
    forall a :: a in before && a != x ==> a in after && after[a] == before[a]
  }

  /** The host built-ins registered at start-up, with their arities; what they do is outside this model. */
  const Natives: seq<(string, nat)> := [
    ("clock", 0), ("len", 1), ("str", 1), ("num", 1), ("input", 1),
    ("readFile", 1), ("writeFile", 2), ("appendFile", 2), ("fileExists", 1)
  ]

  /** The i-th built-in is bound to a callable of its arity that runs that built-in. */
  predicate NativeBoundAt(values: map<string, Value>, i: nat)
    requires i < |Natives|
  {
    Natives[i].0 in values && values[Natives[i].0].Fn? &&
    values[Natives[i].0].f.arity == Natives[i].1 && values[Natives[i].0].f.routine == Builtin(Natives[i].0)
  }

  /** The first n built-ins are bound. */
  predicate NativesBoundTo(values: map<string, Value>, n: nat)
    requires n <= |Natives|
  {
    forall i :: 0 <= i < n ==> NativeBoundAt(values, i)
  }

  /** Every built-in is bound to a callable of its arity that runs that built-in. */
  predicate NativesBound(values: map<string, Value>)
  {
    NativesBoundTo(values, |Natives|)
  }

  /** No two built-ins share a name, so registering one never replaces another. */
  lemma NativeNamesDistinct()
    ensures forall i, j :: 0 <= i < j < |Natives| ==> Natives[i].0 != Natives[j].0
  {
  }

  /** Registering the i-th built-in after the ones before it keeps those and binds it. */
  lemma NativeRegistered(values: map<string, Value>, i: nat, f: Callable)
    requires i < |Natives| && NativesBoundTo(values, i)
    requires f.arity == Natives[i].1 && f.routine == Builtin(Natives[i].0)
    ensures NativesBoundTo(values[Natives[i].0 := Fn(f)], i + 1)
  {
    NativeNamesDistinct();
    var after := values[Natives[i].0 := Fn(f)];
    forall j | 0 <= j < i + 1
      ensures NativeBoundAt(after, j)
    {
      if j < i {
        assert NativeBoundAt(values, j);
      }
    }
  }

  /**
   * A call of a registered built-in goes through exactly with as many
   * arguments as its arity; any other count raises the arity message.
   */
  lemma NativeCallChecked(values: map<string, Value>, i: nat, count: nat)
    requires NativesBound(values) && i < |Natives|
    ensures Natives[i].0 in values && values[Natives[i].0].Fn? && var f := values[Natives[i].0];
      CallCheck(f, count) == if count == Natives[i].1 then Ok(f.f) else Fail(ArityMessage(Natives[i].1, count))
  {
    assert NativeBoundAt(values, i);
  }

  /** The arity message for one expected argument and none given. */
  lemma ArityMessageOneNone()
    ensures ArityMessage(1, 0) == "Expected 1 arguments but got 0"
  {
    assert Text.NatToString(1) == [Text.DigitChar(1)] == "1";
    assert Text.NatToString(0) == [Text.DigitChar(0)] == "0";
  }

  /** `len()` with no argument raises "Expected 1 arguments but got 0". */
  lemma LenWithoutArgument(values: map<string, Value>)
    requires NativesBound(values)
    ensures "len" in values && CallCheck(values["len"], 0) == Fail("Expected 1 arguments but got 0")
  {
    assert Natives[1] == ("len", 1);
    NativeCallChecked(values, 1, 0);
    ArityMessageOneNone();
  }

  /**
   * What a `while` loop's run says about its first iteration: `cond` and
   * `body` are the outcomes of its test and body (None: not run). A failing
   * test ends the loop; break ends it normally; a return, an error or
   * running out of fuel in the body ends it with that outcome.
   */
  ghost predicate WhileFirstIteration(fuel: nat, r: Flow, cond: Eval, body: Option<Flow>)
  {
    (fuel == 0 ==> r == Stopped) &&
    (fuel > 0 && !cond.Done? ==> r == Lift(cond) && body.None?) &&
    (body == Some(BreakOut) ==> r == Normal) &&
    (body.Some? && (body.value.Returned? || body.value.Threw? || body.value.Stopped?) ==> r == body.value)
  }

  /**
   * What a `for` loop's run says about its first iteration: `cond`, `body`
   * and `incr` are the outcomes of its test, body and increment (None: not
   * run). A missing condition runs the body; break ends the loop normally
   * without the increment; a normal or continued body is followed by the
   * increment when there is one, whose failure ends the loop.
   */
  ghost predicate ForFirstIteration(s: Stmt, fuel: nat, r: Flow, cond: Eval, body: Option<Flow>, incr: Option<Eval>)
    requires s.For?
  {
    (fuel == 0 ==> r == Stopped) &&
    (fuel > 0 && s.cond.Missing? ==> body.Some?) &&
    (fuel > 0 && !cond.Done? ==> r == Lift(cond) && body.None?) &&
    (body == Some(BreakOut) ==> r == Normal && incr.None?) &&
    (body.Some? && (body.value.Returned? || body.value.Threw? || body.value.Stopped?) ==> r == body.value && incr.None?) &&
    (fuel > 0 && body.Some? && (body.value.Normal? || body.value.ContinueOut?) && !s.incr.Missing? ==> incr.Some?) &&
    (incr.Some? && !incr.value.Done? ==> r == Lift(incr.value))
  }

  class Interpreter {
    /** The scope statements run in now. */
    var env: Environment
    /** The outermost scope, holding the built-ins. */
    var globals: Environment
    /** The lines `print` has written. */
    var output: seq<string>
    /** Every array the program has made; all values in reach refer only to these. */
    ghost var arrays: set<VoltArray>

    ghost predicate Valid()
      reads this, env.Repr, arrays
    {
      env.Valid() && globals in env.Repr &&
      ScopesHeld(env.Scopes(), arrays) && ArraysHeld(arrays)
    }

    /** What every registered array holds now. */
    ghost function Contents(): map<VoltArray, seq<Value>>
      reads this, arrays
    {
      map a | a in arrays :: a.elements
    }

    /** Arrays whose contents are as they were: the same arrays, each holding what it held. */
    twostate lemma ContentsKept()
      requires Contents() == old(Contents())
      ensures arrays == old(arrays) && forall a :: a in arrays ==> a.elements == old(a.elements)
    {
      assert arrays == Contents().Keys && old(arrays) == old(Contents()).Keys;
      forall a | a in arrays
        ensures a.elements == old(a.elements)
      {
        assert a.elements == Contents()[a] && old(a.elements) == old(Contents())[a];
      }
    }

    /** Interpreter(): a global scope holding only the built-ins. */
    constructor()
      ensures Valid() && env == globals && fresh(env) && env.enclosing == null && output == []
      ensures NativesBound(env.values)
    {
      env := new Environment.Global();
      globals := env;
      output := [];
      arrays := {};
      new;
      DefineNatives();
    }

    /** reset(): a fresh global scope with the built-ins; earlier bindings are gone. */
    method Reset()
      requires Valid()
      modifies this
      ensures Valid() && env == globals && fresh(env) && env.enclosing == null
      ensures output == old(output) && arrays == old(arrays)
      ensures NativesBound(env.values)
    {
      env := new Environment.Global();
      globals := env;
      DefineNatives();
    }

    /** defineNatives(): each built-in becomes a callable of its arity in the global scope. */
    method DefineNatives()
      requires env == globals && env.Valid() && env.enclosing == null && ArraysHeld(arrays)
      requires ScopesHeld(env.Scopes(), arrays)
      modifies env
      ensures Valid() && env.values.Keys == old(env.values.Keys) + set i | 0 <= i < |Natives| :: Natives[i].0
      ensures NativesBound(env.values)
    {
      for i := 0 to |Natives|
        invariant env.Valid() && ScopesHeld(env.Scopes(), arrays)
        invariant env.values.Keys == old(env.values.Keys) + set j | 0 <= j < i :: Natives[j].0
        invariant NativesBoundTo(env.values, i)
      {
        var f := new Callable(Natives[i].1, Builtin(Natives[i].0));
        NativeRegistered(env.values, i, f);
        env.Define(Natives[i].0, Fn(f));
      }
    }

    // ----- expressions -----

    /** evaluate(): the value of an expression, or how its evaluation failed. */
    method Evaluate(e: Expr) returns (r: Eval)
      requires Valid()
      modifies this, env.Repr, arrays
      ensures Valid() && env == old(env) && globals == old(globals) && output == old(output) && old(arrays) <= arrays && fresh(arrays - old(arrays))
      ensures Grown(old(env.Scopes()), env.Scopes())
      ensures r.Done? ==> Holds(r.v, arrays)
      ensures e.Missing? ==> r == Raised("Unknown expression type")
      ensures e.Literal? ==> r == Done(LiteralValue(e.lit))
      ensures e.Variable? ==> r == FromLookup(Lookup(old(env.Scopes()), e.name))
      ensures EvalAgrees(PureEval(e, old(env.Scopes())), r, env.Scopes())
      ensures PureEval(e, old(env.Scopes())).Some? ==> Contents() == old(Contents())
      decreases e, 3
    {
      if e.Missing? {
        r := Raised("Unknown expression type");
      } else if e.Literal? {
        r := Done(LiteralValue(e.lit));
      } else if e.Variable? {
        var found := env.Get(e.name);
        if found.Ok? {
          LookupHeld(env.Scopes(), e.name, arrays);
        }
        r := FromLookup(found);
      } else if e.Unary? || e.Binary? || e.Logical? || e.Grouping? || e.Ternary? {
        r := EvaluateOperator(e);
      } else if e.Call? && e.callee.Member? {
        ghost var obj, args, argFailure, before;
        r, obj, args, argFailure, before := CallMember(e);
      } else if e.Call? {
        ghost var callee, args, argFailure, before;
        r, callee, args, argFailure, before := EvaluateCall(e);
      } else if e.Assign? {
        r := EvaluateAssign(e);
      } else if e.CompoundAssign? {
        ghost var operand;
        r, operand := EvaluateCompound(e);
      } else if e.Update? {
        r := EvaluateUpdate(e);
      } else if e.ArrayLit? {
        ghost var values;
        r, values := EvaluateArray(e);
      } else if e.Index? {
        ghost var o, i;
        r, o, i := EvaluateIndex(e);
      } else if e.IndexAssign? {
        ghost var o, i, v, before;
        r, o, i, v, before := EvaluateIndexAssign(e);
      } else {
        ghost var obj;
        r, obj := EvaluateMember(e);
      }
    }

    /** evaluate() of an operand that runs after earlier ones: the chain keeps growing from `start`. */
    method EvaluateAfter(x: Expr, ghost start: seq<Scope>) returns (r: Eval)
      requires Valid() && Grown(start, env.Scopes())
      modifies this, env.Repr, arrays
      ensures Valid() && env == old(env) && globals == old(globals) && output == old(output) && old(arrays) <= arrays && fresh(arrays - old(arrays))
      ensures Grown(start, env.Scopes())
      ensures r.Done? ==> Holds(r.v, arrays)
      ensures EvalAgrees(PureEval(x, old(env.Scopes())), r, env.Scopes())
      ensures PureEval(x, old(env.Scopes())).Some? ==> Contents() == old(Contents())
      decreases x, 4
    {
      ghost var before := env.Scopes();
      r := Evaluate(x);
      GrownTrans(start, before, env.Scopes());
    }

    /** evaluateMember(): the object first; then the member of its value. */
    method EvaluateMember(e: Expr) returns (r: Eval, ghost obj: Eval)
      requires Valid() && e.Member?
      modifies this, env.Repr, arrays
      ensures Valid() && env == old(env) && globals == old(globals) && output == old(output) && old(arrays) <= arrays && fresh(arrays - old(arrays))
      ensures Grown(old(env.Scopes()), env.Scopes())
      ensures r.Done? ==> Holds(r.v, arrays)
      ensures EvalAgrees(PureEval(e.obj, old(env.Scopes())), obj, env.Scopes())
      ensures PureEval(e.obj, old(env.Scopes())).Some? ==> Contents() == old(Contents())
      ensures obj.Done? ==> Holds(obj.v, arrays)
      ensures !obj.Done? ==> r == obj
      ensures obj.Done? && !obj.v.Arr? ==> r == Raised("Only arrays have members")
      ensures obj.Done? && obj.v.Arr? && e.member == "length" ==> r == Done(Num(|obj.v.a.elements| as real))
      ensures obj.Done? && obj.v.Arr? && e.member == "push" ==>
        r.Done? && r.v.Fn? && fresh(r.v.f) && r.v.f.arity == 1 && r.v.f.routine == ArrayPush(obj.v.a)
      ensures obj.Done? && obj.v.Arr? && e.member == "pop" ==>
        r.Done? && r.v.Fn? && fresh(r.v.f) && r.v.f.arity == 0 && r.v.f.routine == ArrayPop(obj.v.a)
      ensures obj.Done? && obj.v.Arr? && e.member != "length" && e.member != "push" && e.member != "pop" ==>
        r == Raised("Unknown array member: " + e.member)
      decreases e, 1
    {
      var o := Evaluate(e.obj);
      obj := o;
      if !o.Done? {
        return o, obj;
      }
      r := MemberOf(o.v, e.member);
    }

    /** Unary, binary, logical, grouping and ternary expressions. */
    method EvaluateOperator(e: Expr) returns (r: Eval)
      requires Valid() && (e.Unary? || e.Binary? || e.Logical? || e.Grouping? || e.Ternary?)
      modifies this, env.Repr, arrays
      ensures Valid() && env == old(env) && globals == old(globals) && output == old(output) && old(arrays) <= arrays && fresh(arrays - old(arrays))
      ensures Grown(old(env.Scopes()), env.Scopes())
      ensures r.Done? ==> Holds(r.v, arrays)
      ensures e.Unary? && r.Done? ==> r.v.Num? || r.v.Bool?
      ensures e.Binary? && r.Done? ==> IsScalar(r.v)
      ensures EvalAgrees(PureEval(e, old(env.Scopes())), r, env.Scopes())
      ensures PureEval(e, old(env.Scopes())).Some? ==> Contents() == old(Contents())
      decreases e, 2
    {
      if e.Unary? {
        ghost var o;
        r, o := EvaluateUnary(e);
      } else if e.Binary? {
        ghost var a, b;
        r, a, b := EvaluateBinary(e);
      } else if e.Logical? {
        ghost var a, b;
        r, a, b := EvaluateLogical(e);
      } else if e.Grouping? {
        r := Evaluate(e.inner);
      } else {
        ghost var c, taken;
        r, c, taken := EvaluateTernary(e);
      }
    }

    /**
     * The ternary of evaluate(): the condition, then exactly one branch,
     * the then-branch when the condition is truthy; its outcome is the
     * result.
     */
    method EvaluateTernary(e: Expr) returns (r: Eval, ghost cond: Eval, ghost taken: Option<Expr>)
      requires Valid() && e.Ternary?
      modifies this, env.Repr, arrays
      ensures Valid() && env == old(env) && globals == old(globals) && output == old(output) && old(arrays) <= arrays && fresh(arrays - old(arrays))
      ensures Grown(old(env.Scopes()), env.Scopes())
      ensures r.Done? ==> Holds(r.v, arrays)
      ensures !cond.Done? ==> r == cond && taken.None?
      ensures cond.Done? ==> taken.Some? && (taken.value == e.thenBranch || taken.value == e.elseBranch)
      ensures cond.Done? && !cond.v.Arr? ==> taken == Some(if IsTruthy(cond.v) then e.thenBranch else e.elseBranch)
      ensures var c := PureEval(e.cond, old(env.Scopes())); c.Some? ==> cond == c.value.result
      ensures var c := PureEval(e.cond, old(env.Scopes()));
        c.Some? && taken.Some? ==> EvalAgrees(PureEval(taken.value, c.value.scopes), r, env.Scopes())
      ensures EvalAgrees(PureEval(e, old(env.Scopes())), r, env.Scopes())
      ensures PureEval(e, old(env.Scopes())).Some? ==> Contents() == old(Contents())
      decreases e, 1
    {
      var c := Evaluate(e.cond);
      cond := c;
      if !c.Done? {
        TernaryAgrees(e, old(env.Scopes()), cond, None, c, env.Scopes());
        return c, cond, None;
      }
      var branch := if IsTruthy(c.v) then e.thenBranch else e.elseBranch;
      taken := Some(branch);
      r := EvaluateAfter(branch, old(env.Scopes()));
      TernaryAgrees(e, old(env.Scopes()), cond, taken, r, env.Scopes());
    }

    /** evaluateUnary(): the operand first, then the operator on its value. */
    method EvaluateUnary(e: Expr) returns (r: Eval, ghost operand: Eval)
      requires Valid() && e.Unary?
      modifies this, env.Repr, arrays
      ensures Valid() && env == old(env) && globals == old(globals) && output == old(output) && old(arrays) <= arrays && fresh(arrays - old(arrays))
      ensures Grown(old(env.Scopes()), env.Scopes())
      ensures r.Done? ==> Holds(r.v, arrays)
      ensures !operand.Done? ==> r == operand
      ensures operand.Done? ==> r == UnaryOp(e.op, operand.v)
      ensures EvalAgrees(PureEval(e.right, old(env.Scopes())), operand, env.Scopes())
      ensures EvalAgrees(PureEval(e, old(env.Scopes())), r, env.Scopes())
      ensures PureEval(e, old(env.Scopes())).Some? ==> Contents() == old(Contents())
      decreases e, 1
    {
      var x := Evaluate(e.right);
      operand := x;
      if !x.Done? {
        return x, operand;
      }
      r := UnaryOp(e.op, x.v);
    }

    /**
     * The two operands of a binary operator, or the array and index of an
     * indexing, left to right: the second is evaluated only when the first
     * gives a value (Beyond stands for "not evaluated").
     */
    method EvaluateOperands(e: Expr) returns (a: Eval, b: Eval)
      requires Valid() && (e.Binary? || e.Index? || e.IndexAssign?)
      modifies this, env.Repr, arrays
      ensures Valid() && env == old(env) && globals == old(globals) && output == old(output) && old(arrays) <= arrays && fresh(arrays - old(arrays))
      ensures Grown(old(env.Scopes()), env.Scopes())
      ensures a.Done? ==> Holds(a.v, arrays)
      ensures b.Done? ==> Holds(b.v, arrays)
      ensures !a.Done? ==> b == Beyond
      ensures var p := PureEval(First(e), old(env.Scopes())); p.Some? ==> a == p.value.result
      ensures var p := PureEval(First(e), old(env.Scopes())); p.Some? && !a.Done? ==> env.Scopes() == p.value.scopes
      ensures var p := PureEval(First(e), old(env.Scopes()));
        p.Some? && a.Done? ==> EvalAgrees(PureEval(Second(e), p.value.scopes), b, env.Scopes())
      ensures var p := PureEval(First(e), old(env.Scopes()));
        p.Some? && (a.Done? ==> PureEval(Second(e), p.value.scopes).Some?) ==> Contents() == old(Contents())
      decreases e, 0
    {
      a := Evaluate(First(e));
      if !a.Done? {
        return a, Beyond;
      }
      b := EvaluateAfter(Second(e), old(env.Scopes()));
    }

    /** evaluateBinary(): left operand, then right operand, then the operator on both values. */
    method EvaluateBinary(e: Expr) returns (r: Eval, ghost left: Eval, ghost right: Eval)
      requires Valid() && e.Binary?
      modifies this, env.Repr, arrays
      ensures Valid() && env == old(env) && globals == old(globals) && output == old(output) && old(arrays) <= arrays && fresh(arrays - old(arrays))
      ensures Grown(old(env.Scopes()), env.Scopes())
      ensures r.Done? ==> Holds(r.v, arrays)
      ensures !left.Done? ==> r == left
      ensures left.Done? && !right.Done? ==> r == right
      ensures left.Done? && right.Done? ==> r == BinaryOp(e.op, left.v, right.v)
      ensures var p := PureEval(e.left, old(env.Scopes())); p.Some? ==> left == p.value.result
      ensures var p := PureEval(e.left, old(env.Scopes()));
        p.Some? && left.Done? ==> EvalAgrees(PureEval(e.right, p.value.scopes), right, env.Scopes())
      ensures EvalAgrees(PureEval(e, old(env.Scopes())), r, env.Scopes())
      ensures PureEval(e, old(env.Scopes())).Some? ==> Contents() == old(Contents())
      decreases e, 1
    {
      var a, b := EvaluateOperands(e);
      left, right := a, b;
      if !a.Done? {
        return a, left, right;
      }
      if !b.Done? {
        return b, left, right;
      }
      r := BinaryOp(e.op, a.v, b.v);
    }

    /**
     * evaluateLogical(): the right operand is evaluated only when the left
     * one does not decide, and the result is an operand's own value. The
     * decision reads the left value when it is made; an array's truthiness
     * can change while the right operand runs, so the laws that compare
     * with the final heap hold in the direction stated.
     */
    method EvaluateLogical(e: Expr) returns (r: Eval, ghost left: Eval, ghost right: Option<Eval>)
      requires Valid() && e.Logical?
      modifies this, env.Repr, arrays
      ensures Valid() && env == old(env) && globals == old(globals) && output == old(output) && old(arrays) <= arrays && fresh(arrays - old(arrays))
      ensures Grown(old(env.Scopes()), env.Scopes())
      ensures r.Done? ==> Holds(r.v, arrays)
      ensures !left.Done? ==> r == left && right.None?
      ensures left.Done? && right.None? ==> r == left && Decides(e.op, left.v)
      ensures right.Some? ==> left.Done? && r == right.value
      ensures left.Done? && !Decides(e.op, left.v) ==> right.Some?
      ensures left.Done? && !left.v.Arr? ==> (right.None? <==> Decides(e.op, left.v))
      ensures right.Some? && right.value.Done? && !left.v.Arr? ==> r.v == LogicalValue(e.op, left.v, right.value.v)
      ensures var p := PureEval(e.left, old(env.Scopes())); p.Some? ==> left == p.value.result
      ensures var p := PureEval(e.left, old(env.Scopes()));
        p.Some? && right.Some? ==> EvalAgrees(PureEval(e.right, p.value.scopes), right.value, env.Scopes())
      ensures EvalAgrees(PureEval(e, old(env.Scopes())), r, env.Scopes())
      ensures PureEval(e, old(env.Scopes())).Some? ==> Contents() == old(Contents())
      decreases e, 1
    {
      var a := Evaluate(e.left);
      left := a;
      if !a.Done? || Decides(e.op, a.v) {
        r, right := a, None;
      } else {
        r := EvaluateAfter(e.right, old(env.Scopes()));
        right := Some(r);
      }
      LogicalAgrees(e, old(env.Scopes()), left, right, r, env.Scopes());
    }

    /** The next argument or element, in step with the reference `PureArgs`. */
    method EvaluateItem(items: seq<Expr>, i: nat, vs: seq<Value>, ghost start: seq<Scope>) returns (x: Eval)
      requires Valid() && i < |items| && |vs| == i && start != [] && Grown(start, env.Scopes())
      requires PureArgs(items, start).Some? ==> PureArgs(items[..i], start) == Some(Args(vs, None, env.Scopes()))
      modifies this, env.Repr, arrays
      ensures Valid() && env == old(env) && globals == old(globals) && output == old(output) && old(arrays) <= arrays && fresh(arrays - old(arrays))
      ensures Grown(start, env.Scopes())
      ensures x.Done? ==> Holds(x.v, arrays)
      ensures PureArgs(items, start).Some? ==>
        Contents() == old(Contents()) &&
        (x.Done? ==> PureArgs(items[..i + 1], start) == Some(Args(vs + [x.v], None, env.Scopes()))) &&
        (!x.Done? ==> PureArgs(items, start) == Some(Args(vs, Some(x), env.Scopes())))
      decreases items, 0
    {
      if PureArgs(items, start).Some? {
        PureArgsStep(items, i, vs, env.Scopes(), start);
      }
      x := EvaluateAfter(items[i], start);
    }

    /** The arguments of a call or the elements of an array literal, left to right, up to the first failure. */
    method EvaluateAll(e: Expr) returns (vs: seq<Value>, failed: Option<Eval>)
      requires Valid() && (e.Call? || e.ArrayLit?)
      modifies this, env.Repr, arrays
      ensures Valid() && env == old(env) && globals == old(globals) && output == old(output) && old(arrays) <= arrays && fresh(arrays - old(arrays))
      ensures Grown(old(env.Scopes()), env.Scopes())
      ensures failed.Some? ==> !failed.value.Done? && |vs| < |Items(e)|
      ensures failed.None? ==> |vs| == |Items(e)|
      ensures forall i :: 0 <= i < |vs| ==> Holds(vs[i], arrays)
      ensures PureArgs(Items(e), old(env.Scopes())).Some? ==>
        PureArgs(Items(e), old(env.Scopes())) == Some(Args(vs, failed, env.Scopes())) && Contents() == old(Contents())
      decreases e, 0
    {
      var items := Items(e);
      ghost var start := env.Scopes();
      assert start != [];
      ghost var reference := PureArgs(items, start);
      vs, failed := [], None;
      var i := 0;
      while i < |items| && failed.None?
        invariant 0 <= i <= |items| && |vs| == i
        invariant Valid() && env == old(env) && globals == old(globals) && output == old(output) && old(arrays) <= arrays && fresh(arrays - old(arrays))
        invariant Grown(start, env.Scopes())
        invariant forall j :: 0 <= j < i ==> Holds(vs[j], arrays)
        invariant failed.Some? ==> !failed.value.Done? && i < |items|
        invariant reference.Some? ==> Contents() == old(Contents())
        invariant reference.Some? && failed.None? ==> PureArgs(items[..i], start) == Some(Args(vs, None, env.Scopes()))
        invariant reference.Some? && failed.Some? ==> reference == Some(Args(vs, failed, env.Scopes()))
        decreases |items| - i, if failed.None? then 1 else 0
      {
        var x := EvaluateItem(items, i, vs, start);
        if x.Done? {
          vs, i := vs + [x.v], i + 1;
        } else {
          failed := Some(x);
        }
      }
      if failed.None? {
        assert items[..i] == items;
      }
    }

    /**
     * evaluateCall() for a callee that is not a member expression: the
     * callee, then the arguments; only then the check that the callee is
     * callable with that many arguments.
     */
    method EvaluateCall(e: Expr) returns (r: Eval, ghost callee: Eval, ghost args: seq<Value>, ghost argFailure: Option<Eval>,
                                          ghost before: seq<Value>)
      requires Valid() && e.Call? && !e.callee.Member?
      modifies this, env.Repr, arrays
      ensures Valid() && env == old(env) && globals == old(globals) && output == old(output) && old(arrays) <= arrays && fresh(arrays - old(arrays))
      ensures Grown(old(env.Scopes()), env.Scopes())
      ensures r.Done? ==> Holds(r.v, arrays)
      ensures !callee.Done? ==> r == callee && argFailure.None?
      ensures argFailure.Some? ==> callee.Done? && !argFailure.value.Done? && r == argFailure.value
      ensures callee.Done? && argFailure.None? ==> |args| == |e.args|
      ensures callee.Done? && argFailure.None? && CallCheck(callee.v, |e.args|).Fail? ==>
        r == Raised(CallCheck(callee.v, |e.args|).error)
      ensures r.Done? ==> callee.Done? && argFailure.None? && CallCheck(callee.v, |e.args|).Ok?
      ensures var c := PureEval(e.callee, old(env.Scopes())); c.Some? ==> callee == c.value.result
      ensures var c := PureEval(e.callee, old(env.Scopes()));
        c.Some? && callee.Done? && PureArgs(e.args, c.value.scopes).Some? ==>
          argFailure == PureArgs(e.args, c.value.scopes).value.failure && args == PureArgs(e.args, c.value.scopes).value.values
      ensures callee.Done? && callee.v.Fn? && callee.v.f.routine.ArrayPush? && argFailure.None? ==>
        if |e.args| == 1 then r == Done(Value.Nil) && callee.v.f.routine.target.elements == before + args
        else r == Raised(ArityMessage(1, |e.args|)) && callee.v.f.routine.target.elements == before
      ensures callee.Done? && callee.v.Fn? && callee.v.f.routine.ArrayPop? && argFailure.None? ==>
        if |e.args| == 0 then r.Done? && (r.v, callee.v.f.routine.target.elements) == Popped(before)
        else r == Raised(ArityMessage(0, |e.args|)) && callee.v.f.routine.target.elements == before
      ensures callee.Done? && callee.v.Fn? && (callee.v.f.routine.ArrayPush? || callee.v.f.routine.ArrayPop?) &&
              (var c := PureEval(e.callee, old(env.Scopes())); c.Some? && PureArgs(e.args, c.value.scopes).Some?) ==>
        callee.v.f.routine.target in old(arrays) && before == old(Contents())[callee.v.f.routine.target] &&
        OthersKept(old(Contents()), Contents(), callee.v.f.routine.target)
      decreases e, 2
    {
      argFailure, args, before := None, [], [];
      var f := Evaluate(e.callee);
      callee := f;
      if !f.Done? {
        return f, callee, args, argFailure, before;
      }
      if PureEval(e.callee, old(env.Scopes())).Some? {
        ContentsKept();
      }
      ghost var mid := env.Scopes();
      r, args, argFailure, before := CallWith(e, f);
      GrownTrans(old(env.Scopes()), mid, env.Scopes());
    }

    /**
     * evaluateCall() for a member callee such as `a.push`: `obj` is the
     * outcome of the member's object and `before` what that object's
     * array held just before the call. A `push` appends its argument to
     * that very array, a `pop` removes its last element, and no other
     * array changes.
     */
    method CallMember(e: Expr) returns (r: Eval, ghost obj: Eval, ghost args: seq<Value>, ghost argFailure: Option<Eval>,
                                        ghost before: seq<Value>)
      requires Valid() && e.Call? && e.callee.Member?
      modifies this, env.Repr, arrays
      ensures Valid() && env == old(env) && globals == old(globals) && output == old(output) && old(arrays) <= arrays && fresh(arrays - old(arrays))
      ensures Grown(old(env.Scopes()), env.Scopes())
      ensures r.Done? ==> Holds(r.v, arrays)
      ensures !obj.Done? ==> r == obj && argFailure.None?
      ensures var p := PureEval(e.callee.obj, old(env.Scopes())); p.Some? ==> obj == p.value.result
      ensures obj.Done? && !obj.v.Arr? ==> r == Raised("Only arrays have members")
      ensures obj.Done? && obj.v.Arr? && e.callee.member != "length" && e.callee.member != "push" && e.callee.member != "pop" ==>
        r == Raised("Unknown array member: " + e.callee.member)
      ensures argFailure.Some? ==> !argFailure.value.Done? && r == argFailure.value
      ensures obj.Done? && obj.v.Arr? && e.callee.member == "push" && argFailure.None? ==>
        if |e.args| == 1 then r == Done(Value.Nil) && obj.v.a.elements == before + args
        else r == Raised(ArityMessage(1, |e.args|)) && obj.v.a.elements == before
      ensures obj.Done? && obj.v.Arr? && e.callee.member == "pop" && argFailure.None? ==>
        if |e.args| == 0 then r.Done? && (r.v, obj.v.a.elements) == Popped(before)
        else r == Raised(ArityMessage(0, |e.args|)) && obj.v.a.elements == before
      ensures obj.Done? && obj.v.Arr? && (e.callee.member == "push" || e.callee.member == "pop") &&
              (var p := PureEval(e.callee.obj, old(env.Scopes())); p.Some? && PureArgs(e.args, p.value.scopes).Some?) ==>
        obj.v.a in old(arrays) && before == old(obj.v.a.elements) &&
        argFailure == PureArgs(e.args, PureEval(e.callee.obj, old(env.Scopes())).value.scopes).value.failure &&
        args == PureArgs(e.args, PureEval(e.callee.obj, old(env.Scopes())).value.scopes).value.values &&
        OthersKept(old(Contents()), Contents(), obj.v.a)
      decreases e, 2
    {
      argFailure, args, before := None, [], [];
      var f;
      f, obj := EvaluateMember(e.callee);
      if obj.Done? && obj.v.Arr? {
        before := obj.v.a.elements;
      }
      if PureEval(e.callee.obj, old(env.Scopes())).Some? {
        ContentsKept();
      }
      if !f.Done? {
        return f, obj, args, argFailure, before;
      }
      ghost var mid := env.Scopes();
      r, args, argFailure, before := CallWith(e, f);
      GrownTrans(old(env.Scopes()), mid, env.Scopes());
    }

    /**
     * The rest of evaluateCall() once the callee `f` has a value: the
     * arguments left to right, then the call. `before` is what the array
     * of a `push` or `pop` callee held just before the call.
     */
    method CallWith(e: Expr, f: Eval) returns (r: Eval, ghost args: seq<Value>, ghost argFailure: Option<Eval>, ghost before: seq<Value>)
      requires Valid() && e.Call? && f.Done? && Holds(f.v, arrays)
      modifies this, env.Repr, arrays
      ensures Valid() && env == old(env) && globals == old(globals) && output == old(output) && old(arrays) <= arrays && fresh(arrays - old(arrays))
      ensures Grown(old(env.Scopes()), env.Scopes())
      ensures r.Done? ==> Holds(r.v, arrays)
      ensures argFailure.Some? ==> !argFailure.value.Done? && r == argFailure.value
      ensures argFailure.None? ==> |args| == |e.args|
      ensures argFailure.None? && CallCheck(f.v, |e.args|).Fail? ==> r == Raised(CallCheck(f.v, |e.args|).error)
      ensures r.Done? ==> argFailure.None? && CallCheck(f.v, |e.args|).Ok?
      ensures PureArgs(e.args, old(env.Scopes())).Some? ==>
        argFailure == PureArgs(e.args, old(env.Scopes())).value.failure && args == PureArgs(e.args, old(env.Scopes())).value.values
      ensures f.v.Fn? && f.v.f.routine.ArrayPush? && argFailure.None? ==>
        if |e.args| == 1 then r == Done(Value.Nil) && f.v.f.routine.target.elements == before + args
        else r == Raised(ArityMessage(1, |e.args|)) && f.v.f.routine.target.elements == before
      ensures f.v.Fn? && f.v.f.routine.ArrayPop? && argFailure.None? ==>
        if |e.args| == 0 then r.Done? && (r.v, f.v.f.routine.target.elements) == Popped(before)
        else r == Raised(ArityMessage(0, |e.args|)) && f.v.f.routine.target.elements == before
      ensures f.v.Fn? && (f.v.f.routine.ArrayPush? || f.v.f.routine.ArrayPop?) && PureArgs(e.args, old(env.Scopes())).Some? ==>
        before == old(Contents())[f.v.f.routine.target] && OthersKept(old(Contents()), Contents(), f.v.f.routine.target)
      decreases e, 1
    {
      before := if f.v.Fn? && (f.v.f.routine.ArrayPush? || f.v.f.routine.ArrayPop?) then f.v.f.routine.target.elements else [];
      var vs, failed := EvaluateAll(e);
      args, argFailure := vs, failed;
      if failed.Some? {
        return failed.value, args, argFailure, before;
      }
      r, before := Apply(f.v, vs);
    }

    /** The call of CallValue, naming what the array of a `push` or `pop` callee held just before it. */
    method Apply(callee: Value, args: seq<Value>) returns (r: Eval, ghost before: seq<Value>)
      requires Valid() && Holds(callee, arrays)
      requires forall i :: 0 <= i < |args| ==> Holds(args[i], arrays)
      modifies arrays
      ensures Valid() && arrays == old(arrays)
      ensures r.Done? ==> Holds(r.v, arrays)
      ensures CallCheck(callee, |args|).Fail? ==> r == Raised(CallCheck(callee, |args|).error)
      ensures CallCheck(callee, |args|).Ok? ==> r.Done? || r.Beyond?
      ensures callee.Fn? && (callee.f.routine.ArrayPush? || callee.f.routine.ArrayPop?) ==> before == old(Contents())[callee.f.routine.target]
      ensures callee.Fn? && callee.f.routine.ArrayPush? ==>
        if |args| == 1 then r == Done(Value.Nil) && callee.f.routine.target.elements == before + args
        else r == Raised(ArityMessage(1, |args|)) && callee.f.routine.target.elements == before
      ensures callee.Fn? && callee.f.routine.ArrayPop? ==>
        if |args| == 0 then r.Done? && (r.v, callee.f.routine.target.elements) == Popped(before)
        else r == Raised(ArityMessage(0, |args|)) && callee.f.routine.target.elements == before
      ensures callee.Fn? && (callee.f.routine.ArrayPush? || callee.f.routine.ArrayPop?) ==>
        OthersKept(old(Contents()), Contents(), callee.f.routine.target)
    {
      before := if callee.Fn? && (callee.f.routine.ArrayPush? || callee.f.routine.ArrayPop?) then callee.f.routine.target.elements else [];
      r := CallValue(callee, args);
      if callee.Fn? && callee.f.routine.ArrayPush? && |args| == 1 {
        assert args == [args[0]];
      }
    }

    /**
     * function->call() once callee and arguments are known: the callee must
     * be callable with exactly that many arguments. `push` appends its
     * argument to its array and gives nil, `pop` gives what VoltArray::pop
     * gives; user functions and host built-ins run code outside this model.
     * Only the array of a `push` or `pop` that goes through changes, and no
     * scope does.
     */
    method CallValue(callee: Value, args: seq<Value>) returns (r: Eval)
      requires Valid() && Holds(callee, arrays)
      requires forall i :: 0 <= i < |args| ==> Holds(args[i], arrays)
      modifies arrays
      ensures Valid() && arrays == old(arrays)
      ensures r.Done? ==> Holds(r.v, arrays)
      ensures CallCheck(callee, |args|).Fail? ==>
        r == Raised(CallCheck(callee, |args|).error) && forall a :: a in arrays ==> a.elements == old(a.elements)
      ensures CallCheck(callee, |args|).Ok? && callee.f.routine.ArrayPush? ==>
        r == Done(Value.Nil) && callee.f.routine.target.elements == old(callee.f.routine.target.elements) + [args[0]]
      ensures CallCheck(callee, |args|).Ok? && callee.f.routine.ArrayPop? ==>
        r.Done? && (r.v, callee.f.routine.target.elements) == Popped(old(callee.f.routine.target.elements))
      ensures CallCheck(callee, |args|).Ok? && (callee.f.routine.UserFunction? || callee.f.routine.Builtin?) ==> r == Beyond
      ensures forall a :: a in arrays && a !in Changed(callee, |args|) ==> a.elements == old(a.elements)
    {
      var check := CallCheck(callee, |args|);
      if check.Fail? {
        return Raised(check.error);
      }
      r := Invoke(check.value, args);
    }

    /**
     * evaluateAssign(): the value, then assign() to the nearest scope
     * holding the name, or define() in the current scope when none does.
     */
    method EvaluateAssign(e: Expr) returns (r: Eval)
      requires Valid() && e.Assign?
      modifies this, env.Repr, arrays
      ensures Valid() && env == old(env) && globals == old(globals) && output == old(output) && old(arrays) <= arrays && fresh(arrays - old(arrays))
      ensures Grown(old(env.Scopes()), env.Scopes())
      ensures r.Done? ==> Holds(r.v, arrays)
      ensures r.Done? ==> Lookup(env.Scopes(), e.name) == Ok(r.v)
      ensures r.Done? && !Bound(old(env.Scopes()), e.name) ==> e.name in env.values
      ensures var x := PureEval(e.value, old(env.Scopes()));
        x.Some? ==> r == x.value.result && env.Scopes() == if r.Done? then Stored(x.value.scopes, e.name, r.v) else x.value.scopes
      ensures EvalAgrees(PureEval(e, old(env.Scopes())), r, env.Scopes())
      ensures PureEval(e, old(env.Scopes())).Some? ==> Contents() == old(Contents())
      decreases e, 1
    {
      r := Evaluate(e.value);
      if r.Done? {
        Bind(e.name, r.v, old(env.Scopes()));
      }
      AssignAgrees(e, old(env.Scopes()), r, env.Scopes());
    }

    /**
     * The store of evaluateAssign(): assign() to the nearest scope holding
     * the name, or define() in the current scope when no scope does.
     */
    method Bind(name: string, v: Value, ghost start: seq<Scope>)
      requires Valid() && Holds(v, arrays) && Grown(start, env.Scopes())
      modifies env.Repr
      ensures Valid() && env.Scopes() == Stored(old(env.Scopes()), name, v)
      ensures Grown(start, env.Scopes()) && Lookup(env.Scopes(), name) == Ok(v)
      ensures !Bound(start, name) ==> name in env.values
    {
      ghost var before := env.Scopes();
      if !Bound(start, name) && Bound(before, name) {
        GrownNewName(start, before, name);
      }
      var stored := env.Assign(name, v);
      if stored.Ok? {
        AssignKeeps(before, name, v, arrays);
      } else {
        DefineKeeps(before, name, v, arrays);
        env.Define(name, v);
      }
      GrownTrans(start, before, env.Scopes());
    }

    /**
     * The store of evaluateCompoundAssign() and evaluateUpdate(): assign() of
     * a name bound since `start`, so the nearest scope holding it is updated.
     */
    method Reassign(name: string, v: Value, ghost start: seq<Scope>)
      requires Valid() && Holds(v, arrays) && Grown(start, env.Scopes()) && Bound(start, name)
      modifies env.Repr
      ensures Valid() && env.Scopes() == Stored(old(env.Scopes()), name, v)
      ensures Grown(start, env.Scopes()) && Lookup(env.Scopes(), name) == Ok(v)
    {
      ghost var before := env.Scopes();
      GrownKeepsBound(start, before, name);
      AssignKeeps(before, name, v, arrays);
      var stored := env.Assign(name, v);
      assert stored.Ok?;
      GrownTrans(start, before, env.Scopes());
    }

    /**
     * evaluateCompoundAssign(): the variable's current value first (an
     * unbound name fails before the operand is evaluated), then the operand,
     * then the new value is stored in the nearest scope holding the name.
     */
    method EvaluateCompound(e: Expr) returns (r: Eval, ghost operand: Eval)
      requires Valid() && e.CompoundAssign?
      modifies this, env.Repr, arrays
      ensures Valid() && env == old(env) && globals == old(globals) && output == old(output) && old(arrays) <= arrays && fresh(arrays - old(arrays))
      ensures Grown(old(env.Scopes()), env.Scopes())
      ensures r.Done? ==> Holds(r.v, arrays)
      ensures !Bound(old(env.Scopes()), e.name) ==> r == Raised(Undefined(e.name)) && env.Scopes() == old(env.Scopes())
      ensures r.Done? ==> Lookup(env.Scopes(), e.name) == Ok(r.v)
      ensures r.Done? ==> Lookup(old(env.Scopes()), e.name).Ok?
      ensures Lookup(old(env.Scopes()), e.name).Ok? && !operand.Done? ==> r == operand
      ensures Lookup(old(env.Scopes()), e.name).Ok? && operand.Done? ==>
        r == CompoundOp(e.op, Lookup(old(env.Scopes()), e.name).value, operand.v)
      ensures var x := PureEval(e.value, old(env.Scopes()));
        Bound(old(env.Scopes()), e.name) && x.Some? ==>
          operand == x.value.result &&
          (r.Done? ==> Assigned(x.value.scopes, e.name, r.v) == Some(env.Scopes())) &&
          (!r.Done? ==> env.Scopes() == x.value.scopes)
      ensures EvalAgrees(PureEval(e, old(env.Scopes())), r, env.Scopes())
      ensures PureEval(e, old(env.Scopes())).Some? ==> Contents() == old(Contents())
      decreases e, 1
    {
      LookupOkIffBound(env.Scopes(), e.name);
      var current := env.Get(e.name);
      if current.Fail? {
        return Raised(current.error), Beyond;
      }
      r, operand := CompoundWith(e, current.value);
    }

    /** The rest of evaluateCompoundAssign() once the variable's value `current` is read. */
    method CompoundWith(e: Expr, current: Value) returns (r: Eval, ghost operand: Eval)
      requires Valid() && e.CompoundAssign? && Lookup(env.Scopes(), e.name) == Ok(current)
      modifies this, env.Repr, arrays
      ensures Valid() && env == old(env) && globals == old(globals) && output == old(output) && old(arrays) <= arrays && fresh(arrays - old(arrays))
      ensures Grown(old(env.Scopes()), env.Scopes())
      ensures r.Done? ==> Holds(r.v, arrays)
      ensures r.Done? ==> Lookup(env.Scopes(), e.name) == Ok(r.v)
      ensures !operand.Done? ==> r == operand
      ensures operand.Done? ==> r == CompoundOp(e.op, current, operand.v)
      ensures var x := PureEval(e.value, old(env.Scopes()));
        x.Some? ==>
          operand == x.value.result &&
          (r.Done? ==> env.Scopes() == Stored(x.value.scopes, e.name, r.v)) &&
          (!r.Done? ==> env.Scopes() == x.value.scopes) &&
          Contents() == old(Contents())
      decreases e, 0
    {
      LookupOkIffBound(env.Scopes(), e.name);
      var x := Evaluate(e.value);
      operand := x;
      r := CompoundStore(e.name, e.op, current, x, old(env.Scopes()));
    }

    /**
     * The outcome of a compound assignment once its operand's outcome is
     * known: a failed operand is the outcome; otherwise the new value, stored
     * in the nearest scope binding `name` when it is one.
     */
    method CompoundStore(name: string, op: Tokens.TokenType, current: Value, operand: Eval, ghost start: seq<Scope>)
      returns (r: Eval)
      requires Valid() && Grown(start, env.Scopes()) && Bound(start, name)
      modifies env.Repr
      ensures Valid() && Grown(start, env.Scopes())
      ensures !operand.Done? ==> r == operand
      ensures operand.Done? ==> r == CompoundOp(op, current, operand.v)
      ensures r.Done? ==> r.v.Num? || r.v.Str?
      ensures r.Done? ==> env.Scopes() == Stored(old(env.Scopes()), name, r.v) && Lookup(env.Scopes(), name) == Ok(r.v)
      ensures !r.Done? ==> env.Scopes() == old(env.Scopes())
    {
      if !operand.Done? {
        return operand;
      }
      r := CompoundOp(op, current, operand.v);
      if r.Done? {
        Reassign(name, r.v, start);
      }
    }

    /**
     * evaluateUpdate(): `++`/`--` on a bound number variable stores the
     * stepped value; the expression is the new value for prefix, the old
     * one for postfix. Nothing changes when it fails.
     */
    method EvaluateUpdate(e: Expr) returns (r: Eval)
      requires Valid() && e.Update?
      modifies env.Repr
      ensures Valid() && env == old(env) && globals == old(globals) && output == old(output) && arrays == old(arrays)
      ensures Grown(old(env.Scopes()), env.Scopes())
      ensures r.Done? ==> Holds(r.v, arrays)
      ensures r == UpdateOutcome(e.op, e.prefix, Lookup(old(env.Scopes()), e.name))
      ensures r.Done? ==> Lookup(env.Scopes(), e.name) == Ok(Num(Stepped(e.op, Lookup(old(env.Scopes()), e.name).value.x)))
      ensures !r.Done? ==> env.Scopes() == old(env.Scopes())
      ensures EvalAgrees(PureEval(e, old(env.Scopes())), r, env.Scopes())
      ensures Contents() == old(Contents())
      decreases e, 1
    {
      LookupOkIffBound(env.Scopes(), e.name);
      var current := env.Get(e.name);
      if current.Fail? {
        r := Raised(current.error);
        UpdateAgrees(e, old(env.Scopes()), r, env.Scopes());
        return;
      }
      if !current.value.Num? {
        r := Raised("Operand must be a number for increment/decrement");
        UpdateAgrees(e, old(env.Scopes()), r, env.Scopes());
        return;
      }
      var x := current.value.x;
      var next := Stepped(e.op, x);
      Reassign(e.name, Num(next), old(env.Scopes()));
      r := Done(Num(if e.prefix then next else x));
      UpdateAgrees(e, old(env.Scopes()), r, env.Scopes());
    }

    /**
     * evaluateArray(): the elements left to right, in a new array holding
     * their values in that order; the first failing element is the result.
     */
    method EvaluateArray(e: Expr) returns (r: Eval, ghost values: seq<Value>)
      requires Valid() && e.ArrayLit?
      modifies this, env.Repr, arrays
      ensures Valid() && env == old(env) && globals == old(globals) && output == old(output) && old(arrays) <= arrays && fresh(arrays - old(arrays))
      ensures Grown(old(env.Scopes()), env.Scopes())
      ensures r.Done? ==> Holds(r.v, arrays)
      ensures r.Done? ==> r.v.Arr? && fresh(r.v.a) && r.v.a.elements == values && |values| == |e.elements|
      ensures !r.Done? ==> |values| < |e.elements|
      ensures var p := PureArgs(e.elements, old(env.Scopes()));
        p.Some? ==>
          values == p.value.values && env.Scopes() == p.value.scopes &&
          (r.Done? <==> p.value.failure.None?) && (!r.Done? ==> r == p.value.failure.value)
      decreases e, 2
    {
      var vs, failed := EvaluateAll(e);
      values := vs;
      if failed.Some? {
        return failed.value, values;
      }
      var a := new VoltArray(vs);
      arrays := arrays + {a};
      r := Done(Arr(a));
    }

    /** evaluateIndex(): object, then index, then the checks of Slot and the element. */
    method EvaluateIndex(e: Expr) returns (r: Eval, ghost obj: Eval, ghost index: Eval)
      requires Valid() && e.Index?
      modifies this, env.Repr, arrays
      ensures Valid() && env == old(env) && globals == old(globals) && output == old(output) && old(arrays) <= arrays && fresh(arrays - old(arrays))
      ensures Grown(old(env.Scopes()), env.Scopes())
      ensures r.Done? ==> Holds(r.v, arrays)
      ensures !obj.Done? ==> r == obj
      ensures obj.Done? && !index.Done? ==> r == index
      ensures obj.Done? && index.Done? && Slot(obj.v, index.v).Fail? ==> r == Raised(Slot(obj.v, index.v).error)
      ensures obj.Done? && index.Done? && Slot(obj.v, index.v).Ok? ==> r == Done(obj.v.a.elements[Slot(obj.v, index.v).value])
      ensures var p := PureEval(e.obj, old(env.Scopes())); p.Some? ==> obj == p.value.result
      ensures var p := PureEval(e.obj, old(env.Scopes()));
        p.Some? && obj.Done? ==> EvalAgrees(PureEval(e.index, p.value.scopes), index, env.Scopes())
      decreases e, 1
    {
      var o, x := EvaluateOperands(e);
      obj, index := o, x;
      if !o.Done? {
        return o, obj, index;
      }
      if !x.Done? {
        return x, obj, index;
      }
      var slot := Slot(o.v, x.v);
      if slot.Fail? {
        return Raised(slot.error), obj, index;
      }
      r := Done(o.v.a.elements[slot.value]);
    }

    /**
     * evaluateIndexAssign(): object, index, then value; then the store of
     * one slot. `before` is the array's contents just before the store.
     */
    method EvaluateIndexAssign(e: Expr) returns (r: Eval, ghost obj: Eval, ghost index: Eval, ghost value: Eval, ghost before: seq<Value>)
      requires Valid() && e.IndexAssign?
      modifies this, env.Repr, arrays
      ensures Valid() && env == old(env) && globals == old(globals) && output == old(output) && old(arrays) <= arrays && fresh(arrays - old(arrays))
      ensures Grown(old(env.Scopes()), env.Scopes())
      ensures r.Done? ==> Holds(r.v, arrays)
      ensures !obj.Done? ==> r == obj
      ensures obj.Done? && !index.Done? ==> r == index
      ensures obj.Done? && index.Done? && !value.Done? ==> r == value
      ensures obj.Done? && index.Done? && value.Done? && Slot(obj.v, index.v).Fail? ==> r == Raised(Slot(obj.v, index.v).error)
      ensures obj.Done? && index.Done? && value.Done? && Slot(obj.v, index.v).Ok? ==>
        r == value && |before| == |obj.v.a.elements| && obj.v.a.elements == before[Slot(obj.v, index.v).value := value.v]
      ensures var p := PureEval(e.obj, old(env.Scopes())); p.Some? ==> obj == p.value.result
      ensures var p := PureEval(e.obj, old(env.Scopes()));
        p.Some? && obj.Done? && PureEval(e.index, p.value.scopes).Some? ==> index == PureEval(e.index, p.value.scopes).value.result
      ensures var p := PureEval(e.obj, old(env.Scopes()));
        p.Some? && obj.Done? && PureEval(e.index, p.value.scopes).Some? && index.Done? ==>
          EvalAgrees(PureEval(e.value, PureEval(e.index, p.value.scopes).value.scopes), value, env.Scopes())
      decreases e, 1
    {
      var o, i := EvaluateOperands(e);
      obj, index, value, before := o, i, Beyond, [];
      if !o.Done? {
        return o, obj, index, value, before;
      }
      if !i.Done? {
        return i, obj, index, value, before;
      }
      ghost var mid := env.Scopes();
      var x := Evaluate(e.value);
      value := x;
      GrownTrans(old(env.Scopes()), mid, env.Scopes());
      if !x.Done? {
        return x, obj, index, value, before;
      }
      if o.v.Arr? {
        before := o.v.a.elements;
      }
      r := StoreHeld(o.v, i.v, x.v);
    }

    /** Store, keeping every registered array's elements registered; no scope changes. */
    method StoreHeld(obj: Value, index: Value, v: Value) returns (r: Eval)
      requires Valid() && Holds(obj, arrays) && Holds(v, arrays)
      modifies if obj.Arr? then {obj.a} else {}
      ensures Valid() && env.Scopes() == old(env.Scopes())
      ensures r.Done? <==> old(Slot(obj, index)).Ok?
      ensures r.Done? ==> r.v == v && obj.a.elements == old(obj.a.elements)[old(Slot(obj, index)).value := v]
      ensures !r.Done? ==> r == Raised(old(Slot(obj, index)).error) && (obj.Arr? ==> obj.a.elements == old(obj.a.elements))
    {
      r := Store(obj, index, v);
    }

    // ----- statements -----

    /**
     * execute(): runs one statement in the current scope, which is the same
     * scope afterwards. Loops run at most `fuel` iterations, and arrays are
     * printed to at most `fuel` levels of nesting; beyond either the
     * outcome is Stopped.
     */
    method Execute(s: Stmt, fuel: nat) returns (r: Flow)
      requires Valid()
      modifies this, env.Repr, arrays
      ensures Valid() && env == old(env) && globals == old(globals) && old(arrays) <= arrays && fresh(arrays - old(arrays)) && old(output) <= output
      ensures Grown(old(env.Scopes()), env.Scopes())
      ensures r.Returned? ==> Holds(r.v, arrays)
      ensures (r.BreakOut? || r.ContinueOut?) ==> MayEscape(s)
      ensures s.Break? ==> r == BreakOut
      ensures s.Continue? ==> r == ContinueOut
      ensures s.RunUntil? ==> r == Threw("Unknown statement type")
      ensures ExecAgrees(PureExec(s, old(env.Scopes()), fuel), r, env.Scopes(), old(output), output)
      decreases s, 9
    {
      if s.ExprStmt? {
        var v := Evaluate(s.expr);
        r := if v.Done? then Normal else Lift(v);
      } else if s.PrintStmt? {
        ghost var value, text;
        r, value, text := ExecutePrint(s, fuel);
      } else if s.Let? {
        ghost var init;
        r, init := ExecuteLet(s);
      } else if s.Block? {
        r := ExecuteBlockStmt(s, fuel);
      } else if s.If? {
        ghost var cond, branch;
        r, cond, branch := ExecuteIf(s, fuel);
      } else if s.While? {
        ghost var cond, body;
        r, cond, body := ExecuteWhile(s, fuel);
      } else if s.For? {
        ghost var init, cond, body, incr;
        r, init, cond, body, incr := ExecuteFor(s, fuel);
      } else if s.FnDecl? {
        r := ExecuteFn(s);
      } else if s.Return? {
        ghost var value;
        r, value := ExecuteReturn(s);
      } else if s.Break? {
        r := BreakOut;
      } else if s.Continue? {
        r := ContinueOut;
      } else {
        r := Threw("Unknown statement type");
      }
    }

    /** execute(statements): each in turn in the current scope, up to the first that does not end normally. */
    method ExecuteAll(stmts: seq<Stmt>, fuel: nat) returns (r: Flow, ghost outcomes: seq<Flow>)
      requires Valid()
      modifies this, env.Repr, arrays
      ensures Valid() && env == old(env) && globals == old(globals) && old(arrays) <= arrays && fresh(arrays - old(arrays)) && old(output) <= output
      ensures Grown(old(env.Scopes()), env.Scopes())
      ensures r.Returned? ==> Holds(r.v, arrays)
      ensures RanInOrder(outcomes, |stmts|, r)
      ensures ExecAgrees(PureList(stmts, old(env.Scopes()), fuel), r, env.Scopes(), old(output), output)
      ensures PureList(stmts, old(env.Scopes()), fuel).Some? ==> outcomes == PureFlows(stmts, old(env.Scopes()), fuel)
      decreases stmts, 1
    {
      r, outcomes := Normal, [];
      ghost var reference := PureList(stmts, old(env.Scopes()), fuel);
      ghost var flows := PureFlows(stmts, old(env.Scopes()), fuel);
      ghost var printed: seq<string> := [];
      ListStart(stmts, env.Scopes(), fuel, output);
      assert stmts[0..] == stmts;
      for i := 0 to |stmts|
        invariant Valid() && env == old(env) && globals == old(globals) && old(arrays) <= arrays && fresh(arrays - old(arrays)) && old(output) <= output
        invariant Grown(old(env.Scopes()), env.Scopes())
        invariant r == Normal
        invariant |outcomes| == i && forall j :: 0 <= j < i ==> outcomes[j] == Normal
        invariant ListAgrees(reference, flows, stmts[i..], env.Scopes(), fuel, printed, outcomes, old(output), output)
      {
        ghost var before := env.Scopes();
        r, printed, outcomes := ExecuteNext(reference, flows, stmts, i, fuel, printed, outcomes, old(output));
        GrownTrans(old(env.Scopes()), before, env.Scopes());
        if !r.Normal? {
          return;
        }
      }
      assert stmts[|stmts|..] == [];
      ListDone(reference, flows, env.Scopes(), fuel, printed, outcomes, old(output), output);
      AllNormal(outcomes);
    }

    /** The statement at `i` of a list whose run so far agrees with the reference, run in its turn. */
    method ExecuteNext(ghost reference: Option<Outcome>, ghost flows: seq<Flow>, stmts: seq<Stmt>, i: nat, fuel: nat,
                       ghost printed: seq<string>, ghost outcomes: seq<Flow>, ghost start: seq<string>)
      returns (r: Flow, ghost extended: seq<string>, ghost ran: seq<Flow>)
      requires Valid() && i < |stmts| && |outcomes| == i && forall j :: 0 <= j < i ==> outcomes[j] == Normal
      requires ListAgrees(reference, flows, stmts[i..], env.Scopes(), fuel, printed, outcomes, start, output)
      modifies this, env.Repr, arrays
      ensures Valid() && env == old(env) && globals == old(globals) && old(arrays) <= arrays && fresh(arrays - old(arrays)) && old(output) <= output
      ensures Grown(old(env.Scopes()), env.Scopes())
      ensures r.Returned? ==> Holds(r.v, arrays)
      ensures |ran| == i + 1
      ensures r.Normal? ==> (forall j :: 0 <= j < i + 1 ==> ran[j] == Normal) &&
                            ListAgrees(reference, flows, stmts[i + 1..], env.Scopes(), fuel, extended, ran, start, output)
      ensures !r.Normal? ==> RanInOrder(ran, |stmts|, r) && ExecAgrees(reference, r, env.Scopes(), start, output) && (reference.Some? ==> flows == ran)
      decreases stmts, 0, i
    {
      r := Execute(stmts[i], fuel);
      StepOutcome(outcomes, r, |stmts|);
      ran := outcomes + [r];
      extended := ListAdvance(reference, flows, stmts, i, old(env.Scopes()), env.Scopes(), fuel, printed, outcomes, r, start, old(output), output);
    }

    /**
     * executePrintStmt(): one line, the text of the value. `text` is the
     * line PrintLine wrote: the value's text as its arrays stood then.
     */
    method ExecutePrint(s: Stmt, fuel: nat) returns (r: Flow, ghost value: Eval, ghost text: Option<string>)
      requires Valid() && s.PrintStmt?
      modifies this, env.Repr, arrays
      ensures Valid() && env == old(env) && globals == old(globals) && old(arrays) <= arrays && fresh(arrays - old(arrays))
      ensures Grown(old(env.Scopes()), env.Scopes())
      ensures r.Normal? || r.Threw? || r.Stopped?
      ensures !value.Done? ==> r == Lift(value) && output == old(output) && text.None?
      ensures value.Done? && text.None? ==> r == Stopped && output == old(output)
      ensures text.Some? ==> value.Done? && r == Normal && output == old(output) + [text.value]
      ensures value.Done? && !value.v.Arr? ==> text == ValueText(value.v, fuel)
      ensures EvalAgrees(PureEval(s.expr, old(env.Scopes())), value, env.Scopes())
      ensures ExecAgrees(PureExec(s, old(env.Scopes()), fuel), r, env.Scopes(), old(output), output)
      decreases s, 1
    {
      var v := Evaluate(s.expr);
      value, text := v, None;
      if !v.Done? {
        return Lift(v), value, text;
      }
      var line := PrintLine(v.v, fuel);
      text := line;
      r := if line.Some? then Normal else Stopped;
    }

    /** Writes the text valueToString() gives `v` as one line of output; nothing when it has none. */
    method PrintLine(v: Value, fuel: nat) returns (text: Option<string>)
      requires Valid()
      modifies this
      ensures Valid() && env == old(env) && globals == old(globals) && arrays == old(arrays)
      ensures text == old(ValueText(v, fuel))
      ensures output == old(output) + if text.Some? then [text.value] else []
    {
      text := ValueText(v, fuel);
      if text.Some? {
        output := output + [text.value];
      }
    }

    /**
     * executeLetStmt(): binds in the current scope, to nil when there is no
     * initializer; the new binding shadows any outer one.
     */
    method ExecuteLet(s: Stmt) returns (r: Flow, ghost init: Eval)
      requires Valid() && s.Let?
      modifies this, env.Repr, arrays
      ensures Valid() && env == old(env) && globals == old(globals) && old(arrays) <= arrays && fresh(arrays - old(arrays)) && output == old(output)
      ensures Grown(old(env.Scopes()), env.Scopes())
      ensures r.Normal? || r.Threw? || r.Stopped?
      ensures r.Normal? ==> s.name in env.values && Lookup(env.Scopes(), s.name) == Ok(env.values[s.name])
      ensures s.initializer.Missing? ==> r == Normal && env.Scopes() == Defined(old(env.Scopes()), s.name, Value.Nil)
      ensures !s.initializer.Missing? && !init.Done? ==> r == Lift(init)
      ensures !s.initializer.Missing? && init.Done? ==> r == Normal && env.values[s.name] == init.v
      ensures !s.initializer.Missing? && PureEval(s.initializer, old(env.Scopes())).Some? ==>
        init == PureEval(s.initializer, old(env.Scopes())).value.result
      ensures ExecAgrees(PureExec(s, old(env.Scopes()), 0), r, env.Scopes(), old(output), output)
      decreases s, 1
    {
      var value := Value.Nil;
      init := Beyond;
      if !s.initializer.Missing? {
        var v := Evaluate(s.initializer);
        init := v;
        if !v.Done? {
          return Lift(v), init;
        }
        value := v.v;
      }
      ghost var mid := env.Scopes();
      DefineKeeps(mid, s.name, value, arrays);
      env.Define(s.name, value);
      GrownTrans(old(env.Scopes()), mid, env.Scopes());
      r := Normal;
    }

    /** executeBlockStmt(): the statements in a new child scope of the current one. */
    method ExecuteBlockStmt(s: Stmt, fuel: nat) returns (r: Flow)
      requires Valid() && s.Block?
      modifies this, env.Repr, arrays
      ensures Valid() && env == old(env) && globals == old(globals) && old(arrays) <= arrays && fresh(arrays - old(arrays)) && old(output) <= output
      ensures SameNames(old(env.Scopes()), env.Scopes())
      ensures r.Returned? ==> Holds(r.v, arrays)
      ensures ExecAgrees(PureExec(s, old(env.Scopes()), fuel), r, env.Scopes(), old(output), output)
      decreases s, 2
    {
      var scope := new Environment.Enclosed(env);
      HeldCons(map[], env.Scopes(), arrays);
      ghost var outcomes;
      r, outcomes := ExecuteBlock(s, scope, fuel);
    }

    /**
     * executeBlock(): makes `scope` current, runs the statements up to the
     * first that does not end normally, and makes the previous scope
     * current again whichever way the block ends.
     */
    method ExecuteBlock(s: Stmt, scope: Environment, fuel: nat) returns (r: Flow, ghost outcomes: seq<Flow>)
      requires Valid() && s.Block?
      requires scope.Valid() && scope.enclosing == env && scope.Repr == {scope} + env.Repr
      requires ScopesHeld(scope.Scopes(), arrays)
      modifies this, scope.Repr, arrays
      ensures Valid() && env == old(env) && globals == old(globals) && old(arrays) <= arrays && fresh(arrays - old(arrays)) && old(output) <= output
      ensures SameNames(old(env.Scopes()), env.Scopes())
      ensures r.Returned? ==> Holds(r.v, arrays)
      ensures RanInOrder(outcomes, |s.stmts|, r)
      ensures var o := PureList(s.stmts, old(scope.Scopes()), fuel);
        o.Some? ==>
          r == o.value.flow && env.Scopes() == o.value.scopes[1..] && output == old(output) + o.value.lines &&
          outcomes == PureFlows(s.stmts, old(scope.Scopes()), fuel)
      decreases s, 1
    {
      var previous := env;
      ghost var entered := scope.Scopes();
      assert entered[1..] == previous.Scopes();
      env := scope;
      r, outcomes := ExecuteAll(s.stmts, fuel);
      LeaveTo(previous, entered);
    }

    /**
     * The end of executeBlock(): `previous`, the scope around the current
     * one, is current again, and its chain kept its names.
     */
    method LeaveTo(previous: Environment, ghost entered: seq<Scope>)
      requires Valid() && env.enclosing == previous && env.Repr == {env} + previous.Repr && globals in previous.Repr
      requires Grown(entered, env.Scopes())
      modifies this
      ensures Valid() && env == previous && globals == old(globals) && arrays == old(arrays) && output == old(output)
      ensures SameNames(entered[1..], env.Scopes())
      ensures env.Scopes() == old(env.Scopes())[1..]
    {
      LeaveScope(entered, env.Scopes());
      assert env.Scopes()[1..] == previous.Scopes();
      HeldCons(env.values, previous.Scopes(), arrays);
      env := previous;
    }

    /**
     * executeIfStmt(): the condition, then one branch or none. `branch` is
     * the statement run, chosen by the condition's truth when it was
     * evaluated (an array's truth can change while the branch runs).
     */
    method ExecuteIf(s: Stmt, fuel: nat) returns (r: Flow, ghost cond: Eval, ghost branch: Option<Stmt>)
      requires Valid() && s.If?
      modifies this, env.Repr, arrays
      ensures Valid() && env == old(env) && globals == old(globals) && old(arrays) <= arrays && fresh(arrays - old(arrays)) && old(output) <= output
      ensures Grown(old(env.Scopes()), env.Scopes())
      ensures r.Returned? ==> Holds(r.v, arrays)
      ensures !cond.Done? ==> r == Lift(cond) && branch.None?
      ensures cond.Done? && branch.None? ==> r == Normal && s.elseBranch.None? && !IsTruthy(cond.v)
      ensures branch.Some? ==> cond.Done? && (branch.value == s.thenBranch || branch == s.elseBranch)
      ensures cond.Done? && !cond.v.Arr? ==> branch == if IsTruthy(cond.v) then Some(s.thenBranch) else s.elseBranch
      ensures PureEval(s.cond, old(env.Scopes())).Some? ==> cond == PureEval(s.cond, old(env.Scopes())).value.result
      ensures ExecAgrees(PureExec(s, old(env.Scopes()), fuel), r, env.Scopes(), old(output), output)
      decreases s, 1
    {
      var c := Evaluate(s.cond);
      cond, branch := c, None;
      if !c.Done? {
        return Lift(c), cond, branch;
      }
      ghost var mid := env.Scopes();
      if IsTruthy(c.v) {
        branch := Some(s.thenBranch);
        r := Execute(s.thenBranch, fuel);
      } else if s.elseBranch.Some? {
        branch := s.elseBranch;
        r := Execute(s.elseBranch.value, fuel);
      } else {
        r := Normal;
      }
      GrownTrans(old(env.Scopes()), mid, env.Scopes());
    }

    /**
     * executeWhileStmt(): tests the condition before every iteration; a
     * break ends the loop normally and a continue goes on to the next test,
     * so neither leaves the loop. The first iteration is run on its own so
     * that `cond` and `body` can name the outcomes of its test and of its
     * body (None: not run); Iterate runs the others.
     */
    method ExecuteWhile(s: Stmt, fuel: nat) returns (r: Flow, ghost cond: Eval, ghost body: Option<Flow>)
      requires Valid() && s.While?
      modifies this, env.Repr, arrays
      ensures Valid() && env == old(env) && globals == old(globals) && old(arrays) <= arrays && fresh(arrays - old(arrays)) && old(output) <= output
      ensures Grown(old(env.Scopes()), env.Scopes())
      ensures r.Returned? ==> Holds(r.v, arrays)
      ensures !r.BreakOut? && !r.ContinueOut?
      ensures WhileFirstIteration(fuel, r, cond, body)
      ensures fuel > 0 && cond.Done? && body.None? ==> r == Normal && !IsTruthy(cond.v)
      ensures fuel > 0 && cond.Done? && !cond.v.Arr? ==> (body.Some? <==> IsTruthy(cond.v))
      ensures FirstIterationAgrees(s, Some(old(env.Scopes())), fuel, cond, body, None)
      ensures ExecAgrees(PureLoop(s, old(env.Scopes()), fuel, fuel), r, env.Scopes(), old(output), output)
      decreases s, 5
    {
      if fuel == 0 {
        return Stopped, Beyond, None;
      }
      var more;
      WhileStep(s, env.Scopes(), fuel);
      r, more, cond, body := LoopStep(s, fuel);
      if !more {
        return;
      }
      ghost var mid := env.Scopes();
      ghost var lines := output;
      r := Iterate(s, fuel, fuel - 1);
      GrownTrans(old(env.Scopes()), mid, env.Scopes());
      FirstThenRest(s, old(env.Scopes()), mid, fuel, fuel, r, env.Scopes(), old(output), lines, output);
    }

    /**
     * The iterations of a `while` or `for` loop after its first, at most
     * `left` of them: each tests the condition and runs the body, a `for`
     * loop's followed by its increment; Stopped when they run out.
     */
    method Iterate(s: Stmt, fuel: nat, left: nat) returns (r: Flow)
      requires Valid() && (s.While? || s.For?)
      modifies this, env.Repr, arrays
      ensures Valid() && env == old(env) && globals == old(globals) && old(arrays) <= arrays && fresh(arrays - old(arrays)) && old(output) <= output
      ensures Grown(old(env.Scopes()), env.Scopes())
      ensures r.Returned? ==> Holds(r.v, arrays)
      ensures !r.BreakOut? && !r.ContinueOut?
      ensures ExecAgrees(PureLoop(s, old(env.Scopes()), fuel, left), r, env.Scopes(), old(output), output)
      decreases s, 4
    {
      ghost var reference := PureLoop(s, old(env.Scopes()), fuel, left);
      ghost var printed: seq<string> := [];
      LoopBegin(s, env.Scopes(), fuel, left, output);
      for n := 0 to left
        invariant Valid() && env == old(env) && globals == old(globals) && old(arrays) <= arrays && fresh(arrays - old(arrays)) && old(output) <= output
        invariant Grown(old(env.Scopes()), env.Scopes())
        invariant LoopAgrees(reference, s, env.Scopes(), fuel, left - n, printed, old(output), output)
      {
        ghost var before := env.Scopes();
        var more;
        r, more, printed := Advance(reference, s, fuel, left - n, printed, old(output));
        GrownTrans(old(env.Scopes()), before, env.Scopes());
        if !more {
          return;
        }
      }
      LoopExhausted(reference, s, env.Scopes(), fuel, printed, old(output), output);
      r := Stopped;
    }

    /**
     * One more iteration of a loop whose run so far agrees with the
     * reference: afterwards the run either ended as the reference's or
     * agrees with it, one iteration fewer to come.
     */
    method Advance(ghost reference: Option<Outcome>, s: Stmt, fuel: nat, left: nat, ghost printed: seq<string>, ghost start: seq<string>)
      returns (r: Flow, more: bool, ghost extended: seq<string>)
      requires Valid() && (s.While? || s.For?) && left > 0
      requires LoopAgrees(reference, s, env.Scopes(), fuel, left, printed, start, output)
      modifies this, env.Repr, arrays
      ensures Valid() && env == old(env) && globals == old(globals) && old(arrays) <= arrays && fresh(arrays - old(arrays)) && old(output) <= output
      ensures Grown(old(env.Scopes()), env.Scopes())
      ensures r.Returned? ==> Holds(r.v, arrays)
      ensures !r.BreakOut? && !r.ContinueOut?
      ensures more ==> LoopAgrees(reference, s, env.Scopes(), fuel, left - 1, extended, start, output)
      ensures !more ==> ExecAgrees(reference, r, env.Scopes(), start, output)
      decreases s, 3
    {
      ghost var c, b, i;
      r, more, c, b, i := Step(s, fuel);
      extended := LoopAdvance(reference, s, old(env.Scopes()), env.Scopes(), fuel, left, printed, r, more, c, b, i, start, old(output), output);
    }

    /** One iteration of a `while` or `for` loop, as the reference's step. */
    method Step(s: Stmt, fuel: nat) returns (r: Flow, more: bool, ghost cond: Eval, ghost body: Option<Flow>, ghost incr: Option<Eval>)
      requires Valid() && (s.While? || s.For?)
      modifies this, env.Repr, arrays
      ensures Valid() && env == old(env) && globals == old(globals) && old(arrays) <= arrays && fresh(arrays - old(arrays)) && old(output) <= output
      ensures Grown(old(env.Scopes()), env.Scopes())
      ensures r.Returned? ==> Holds(r.v, arrays)
      ensures !r.BreakOut? && !r.ContinueOut?
      ensures StepAgrees(PureStep(s, old(env.Scopes()), fuel), r, more, cond, body, incr, env.Scopes(), old(output), output)
      decreases s, 2
    {
      if s.While? {
        r, more, cond, body := LoopStep(s, fuel);
        incr := None;
      } else {
        r, more, cond, body, incr := ForStep(s, fuel);
      }
    }

    /**
     * executeForStmt(): the initializer, condition, increment and body run
     * in a new child scope, so none of their bindings outlive the loop.
     */
    method ExecuteFor(s: Stmt, fuel: nat) returns (r: Flow, ghost init: Option<Flow>, ghost cond: Eval, ghost body: Option<Flow>, ghost incr: Option<Eval>)
      requires Valid() && s.For?
      modifies this, env.Repr, arrays
      ensures Valid() && env == old(env) && globals == old(globals) && old(arrays) <= arrays && fresh(arrays - old(arrays)) && old(output) <= output
      ensures SameNames(old(env.Scopes()), env.Scopes())
      ensures r.Returned? ==> Holds(r.v, arrays)
      ensures (r.BreakOut? || r.ContinueOut?) ==> s.init.Some? && MayEscape(s.init.value)
      ensures init.Some? <==> s.init.Some?
      ensures init.Some? && !init.value.Normal? ==> r == init.value && body.None?
      ensures init.None? || init.value.Normal? ==> ForFirstIteration(s, fuel, r, cond, body, incr)
      ensures FirstIterationAgrees(s, LoopStart(s, [map[]] + old(env.Scopes()), fuel), fuel, cond, body, incr)
      ensures ExecAgrees(PureExec(s, old(env.Scopes()), fuel), r, env.Scopes(), old(output), output)
      decreases s, 8
    {
      var scope := new Environment.Enclosed(env);
      HeldCons(map[], env.Scopes(), arrays);
      r, init, cond, body, incr := ForInScope(s, scope, fuel);
    }

    /** The loop run with `scope` current; the previous scope is current again afterwards. */
    method ForInScope(s: Stmt, scope: Environment, fuel: nat) returns (r: Flow, ghost init: Option<Flow>, ghost cond: Eval, ghost body: Option<Flow>, ghost incr: Option<Eval>)
      requires Valid() && s.For?
      requires scope.Valid() && scope.enclosing == env && scope.Repr == {scope} + env.Repr
      requires ScopesHeld(scope.Scopes(), arrays)
      modifies this, scope.Repr, arrays
      ensures Valid() && env == old(env) && globals == old(globals) && old(arrays) <= arrays && fresh(arrays - old(arrays)) && old(output) <= output
      ensures SameNames(old(env.Scopes()), env.Scopes())
      ensures r.Returned? ==> Holds(r.v, arrays)
      ensures (r.BreakOut? || r.ContinueOut?) ==> s.init.Some? && MayEscape(s.init.value)
      ensures init.Some? <==> s.init.Some?
      ensures init.Some? && !init.value.Normal? ==> r == init.value && body.None?
      ensures init.None? || init.value.Normal? ==> ForFirstIteration(s, fuel, r, cond, body, incr)
      ensures FirstIterationAgrees(s, LoopStart(s, old(scope.Scopes()), fuel), fuel, cond, body, incr)
      ensures var o := PureForRun(s, old(scope.Scopes()), fuel);
        o.Some? ==> r == o.value.flow && env.Scopes() == o.value.scopes[1..] && output == old(output) + o.value.lines
      decreases s, 7
    {
      var previous := env;
      ghost var entered := scope.Scopes();
      assert entered[1..] == previous.Scopes();
      env := scope;
      r, init, cond, body, incr := ForRun(s, fuel);
      LeaveTo(previous, entered);
    }

    /**
     * executeForStmt() in the loop's own scope: the initializer, then the
     * iterations. A missing condition counts as true, a continue still runs
     * the increment, and a break ends the loop normally.
     */
    method ForRun(s: Stmt, fuel: nat) returns (r: Flow, ghost init: Option<Flow>, ghost cond: Eval, ghost body: Option<Flow>, ghost incr: Option<Eval>)
      requires Valid() && s.For?
      modifies this, env.Repr, arrays
      ensures Valid() && env == old(env) && globals == old(globals) && old(arrays) <= arrays && fresh(arrays - old(arrays)) && old(output) <= output
      ensures Grown(old(env.Scopes()), env.Scopes())
      ensures r.Returned? ==> Holds(r.v, arrays)
      ensures (r.BreakOut? || r.ContinueOut?) ==> s.init.Some? && MayEscape(s.init.value)
      ensures init.Some? <==> s.init.Some?
      ensures init.Some? && !init.value.Normal? ==> r == init.value && body.None?
      ensures init.None? || init.value.Normal? ==> ForFirstIteration(s, fuel, r, cond, body, incr)
      ensures FirstIterationAgrees(s, LoopStart(s, old(env.Scopes()), fuel), fuel, cond, body, incr)
      ensures ExecAgrees(PureForRun(s, old(env.Scopes()), fuel), r, env.Scopes(), old(output), output)
      decreases s, 6
    {
      init, cond, body, incr := None, Beyond, None, None;
      if s.init.Some? {
        r := Execute(s.init.value, fuel);
        init := Some(r);
        if !r.Normal? {
          ForRunAgrees(s, old(env.Scopes()), fuel, init, env.Scopes(), cond, body, incr, r, env.Scopes(), old(output), output, output);
          return;
        }
      }
      ghost var mid := env.Scopes();
      ghost var lines := output;
      r, cond, body, incr := ForLoop(s, fuel);
      GrownTrans(old(env.Scopes()), mid, env.Scopes());
      ForRunAgrees(s, old(env.Scopes()), fuel, init, mid, cond, body, incr, r, env.Scopes(), old(output), lines, output);
    }

    /**
     * The iterations of a `for` loop, each followed by the increment unless
     * the loop ends. `cond`, `body` and `incr` are the outcomes of the
     * first iteration's test, body and increment (None: not run); Iterate
     * runs the iterations after the first.
     */
    method ForLoop(s: Stmt, fuel: nat) returns (r: Flow, ghost cond: Eval, ghost body: Option<Flow>, ghost incr: Option<Eval>)
      requires Valid() && s.For?
      modifies this, env.Repr, arrays
      ensures Valid() && env == old(env) && globals == old(globals) && old(arrays) <= arrays && fresh(arrays - old(arrays)) && old(output) <= output
      ensures Grown(old(env.Scopes()), env.Scopes())
      ensures r.Returned? ==> Holds(r.v, arrays)
      ensures !r.BreakOut? && !r.ContinueOut?
      ensures ForFirstIteration(s, fuel, r, cond, body, incr)
      ensures fuel > 0 && cond.Done? && body.None? ==> r == Normal && !IsTruthy(cond.v)
      ensures FirstIterationAgrees(s, Some(old(env.Scopes())), fuel, cond, body, incr)
      ensures ExecAgrees(PureLoop(s, old(env.Scopes()), fuel, fuel), r, env.Scopes(), old(output), output)
      decreases s, 5
    {
      if fuel == 0 {
        return Stopped, Beyond, None, None;
      }
      var more;
      r, more, cond, body, incr := ForStep(s, fuel);
      if !more {
        return;
      }
      ghost var mid := env.Scopes();
      ghost var lines := output;
      r := Iterate(s, fuel, fuel - 1);
      GrownTrans(old(env.Scopes()), mid, env.Scopes());
      FirstThenRest(s, old(env.Scopes()), mid, fuel, fuel, r, env.Scopes(), old(output), lines, output);
    }

    /**
     * One iteration of a `for` loop followed, when the body ended normally
     * or by continue, by its increment. `incr` is the increment's outcome
     * (None: not evaluated).
     */
    method ForStep(s: Stmt, fuel: nat) returns (r: Flow, more: bool, ghost cond: Eval, ghost body: Option<Flow>, ghost incr: Option<Eval>)
      requires Valid() && s.For?
      modifies this, env.Repr, arrays
      ensures Valid() && env == old(env) && globals == old(globals) && old(arrays) <= arrays && fresh(arrays - old(arrays)) && old(output) <= output
      ensures Grown(old(env.Scopes()), env.Scopes())
      ensures r.Returned? ==> Holds(r.v, arrays)
      ensures !r.BreakOut? && !r.ContinueOut?
      ensures more ==> r == Normal
      ensures s.cond.Missing? ==> cond == Done(Bool(true)) && body.Some?
      ensures !cond.Done? ==> r == Lift(cond) && !more && body.None?
      ensures cond.Done? && body.None? ==> r == Normal && !more && !IsTruthy(cond.v)
      ensures cond.Done? && !cond.v.Arr? ==> (body.Some? <==> IsTruthy(cond.v))
      ensures body == Some(BreakOut) ==> r == Normal && !more
      ensures body.Some? && (body.value.Returned? || body.value.Threw? || body.value.Stopped?) ==> r == body.value && !more
      ensures incr.Some? <==> body.Some? && (body.value.Normal? || body.value.ContinueOut?) && !s.incr.Missing?
      ensures incr.Some? ==> (more <==> incr.value.Done?) && (!incr.value.Done? ==> r == Lift(incr.value))
      ensures body.Some? && (body.value.Normal? || body.value.ContinueOut?) && s.incr.Missing? ==> r == Normal && more
      ensures StepAgrees(PureStep(s, old(env.Scopes()), fuel), r, more, cond, body, incr, env.Scopes(), old(output), output)
      decreases s, 1
    {
      r, more, cond, body := LoopStep(s, fuel);
      incr := None;
      if !more {
        return;
      }
      ghost var mid := env.Scopes();
      ghost var i;
      r, more, i := ForIncrement(s);
      incr := i;
      GrownTrans(old(env.Scopes()), mid, env.Scopes());
      if !s.incr.Missing? {
        IncrementAgrees(s, old(env.Scopes()), fuel, cond, body, mid, old(output), output, r, more, i.value, env.Scopes());
      }
    }

    /** The increment of a `for` loop, when it has one; the loop goes on unless it fails. */
    method ForIncrement(s: Stmt) returns (r: Flow, more: bool, ghost value: Option<Eval>)
      requires Valid() && s.For?
      modifies this, env.Repr, arrays
      ensures Valid() && env == old(env) && globals == old(globals) && old(arrays) <= arrays && fresh(arrays - old(arrays)) && old(output) <= output
      ensures Grown(old(env.Scopes()), env.Scopes())
      ensures more <==> r == Normal
      ensures !more ==> r.Threw? || r.Stopped?
      ensures s.incr.Missing? ==> more && env.Scopes() == old(env.Scopes())
      ensures value.None? <==> s.incr.Missing?
      ensures value.Some? ==> (more <==> value.value.Done?) && (!value.value.Done? ==> r == Lift(value.value))
      ensures output == old(output)
      ensures !s.incr.Missing? ==> EvalAgrees(PureEval(s.incr, old(env.Scopes())), value.value, env.Scopes())
      decreases s, 0
    {
      if s.incr.Missing? {
        return Normal, true, None;
      }
      var i := Evaluate(s.incr);
      value := Some(i);
      if !i.Done? {
        return Lift(i), false, value;
      }
      r, more := Normal, true;
    }

    /**
     * One iteration of a `while` or `for` loop: the condition (a `for`
     * without one goes on), then the body. The loop goes on after a body
     * that ends normally or by continue; a break ends it normally; any
     * other outcome leaves the loop.
     */
    method LoopStep(s: Stmt, fuel: nat) returns (r: Flow, more: bool, ghost cond: Eval, ghost body: Option<Flow>)
      requires Valid() && (s.While? || s.For?)
      modifies this, env.Repr, arrays
      ensures Valid() && env == old(env) && globals == old(globals) && old(arrays) <= arrays && fresh(arrays - old(arrays)) && old(output) <= output
      ensures Grown(old(env.Scopes()), env.Scopes())
      ensures r.Returned? ==> Holds(r.v, arrays)
      ensures !r.BreakOut? && !r.ContinueOut?
      ensures more ==> r == Normal
      ensures s.For? && s.cond.Missing? ==> cond == Done(Bool(true)) && body.Some?
      ensures !cond.Done? ==> r == Lift(cond) && !more && body.None?
      ensures cond.Done? && body.None? ==> r == Normal && !more && !IsTruthy(cond.v)
      ensures cond.Done? && !cond.v.Arr? ==> (body.Some? <==> IsTruthy(cond.v))
      ensures body.Some? ==> cond.Done? && (more <==> body.value.Normal? || body.value.ContinueOut?)
      ensures body.Some? ==> r == if body.value.BreakOut? || body.value.ContinueOut? then Normal else body.value
      ensures StepAgrees(PureIteration(s, old(env.Scopes()), fuel), r, more, cond, body, None, env.Scopes(), old(output), output)
      decreases s, 0
    {
      cond, body := Done(Bool(true)), None;
      if s.While? || !s.cond.Missing? {
        var c := Evaluate(s.cond);
        cond := c;
        if !c.Done? || !IsTruthy(c.v) {
          r, more := if c.Done? then Normal else Lift(c), false;
          IterationAgrees(s, old(env.Scopes()), fuel, cond, env.Scopes(), body, r, more, env.Scopes(), old(output), output);
          return;
        }
      }
      ghost var mid := env.Scopes();
      ghost var lines := output;
      var b := Execute(s.body, fuel);
      body := Some(b);
      GrownTrans(old(env.Scopes()), mid, env.Scopes());
      more := b.Normal? || b.ContinueOut?;
      r := if b.BreakOut? || b.ContinueOut? then Normal else b;
      IterationAgrees(s, old(env.Scopes()), fuel, cond, mid, body, r, more, env.Scopes(), old(output), output);
    }

    /** executeFnStmt(): a callable with one parameter per argument, bound in the current scope. */
    method ExecuteFn(s: Stmt) returns (r: Flow)
      requires Valid() && s.FnDecl?
      modifies this, env.Repr, arrays
      ensures Valid() && env == old(env) && globals == old(globals) && arrays == old(arrays) && output == old(output)
      ensures Grown(old(env.Scopes()), env.Scopes())
      ensures r == Normal && s.name in env.values
      ensures env.Scopes() == Defined(old(env.Scopes()), s.name, env.values[s.name])
      ensures env.values[s.name].Fn? && fresh(env.values[s.name].f)
      ensures env.values[s.name].f.arity == |s.params| && env.values[s.name].f.routine == UserFunction(s.name, s.params, s.fnBody)
      decreases s, 1
    {
      var f := new Callable(|s.params|, UserFunction(s.name, s.params, s.fnBody));
      DefineKeeps(env.Scopes(), s.name, Fn(f), arrays);
      env.Define(s.name, Fn(f));
      r := Normal;
    }

    /** executeReturnStmt(): the value, nil when there is none, leaves as Returned. */
    method ExecuteReturn(s: Stmt) returns (r: Flow, ghost value: Eval)
      requires Valid() && s.Return?
      modifies this, env.Repr, arrays
      ensures Valid() && env == old(env) && globals == old(globals) && old(arrays) <= arrays && fresh(arrays - old(arrays)) && output == old(output)
      ensures Grown(old(env.Scopes()), env.Scopes())
      ensures r.Returned? ==> Holds(r.v, arrays)
      ensures r.Returned? || r.Threw? || r.Stopped?
      ensures s.value.Missing? ==> r == Returned(Value.Nil)
      ensures !s.value.Missing? && value.Done? ==> r == Returned(value.v)
      ensures !s.value.Missing? && !value.Done? ==> r == Lift(value)
      ensures !s.value.Missing? ==> EvalAgrees(PureEval(s.value, old(env.Scopes())), value, env.Scopes())
      ensures ExecAgrees(PureExec(s, old(env.Scopes()), 0), r, env.Scopes(), old(output), output)
      decreases s, 1
    {
      value := Done(Value.Nil);
      if s.value.Missing? {
        return Returned(Value.Nil), value;
      }
      var v := Evaluate(s.value);
      value := v;
      r := if v.Done? then Returned(v.v) else Lift(v);
    }
  }
}

// What src/interpreter.cpp computes for code that reads, defines and
// assigns variables but makes no call, makes or reads no array and
// declares no function. For such code the outcome depends only on the
// scope chain, so it is given here by functions of the chain; the
// Interpreter's methods are proved to agree with them wherever they give
// an outcome (None: the code leaves this part of the language).
module Semantics {
  import opened Wrappers
  import opened Ast
  import opened Values
  import opened Environments
  import opened Operators

  /** How running a statement ends. `Stopped`: a call or loop the model does not follow further. */
  datatype Flow = Normal | BreakOut | ContinueOut | Returned(v: Value) | Threw(msg: string) | Stopped

  /** An expression's failure as the failure of the statement around it. */
  function Lift(e: Eval): (f: Flow)
    requires !e.Done?
    ensures f.Threw? || f.Stopped?
  {
    if e.Raised? then Threw(e.msg) else Stopped
  }

  /** A variable's lookup as an evaluation outcome. */
  function FromLookup(r: Result<Value>): (e: Eval)
    ensures e.Done? <==> r.Ok?
  {
    if r.Ok? then Done(r.value) else Raised(r.error)
  }

  /** Statements through which a break or continue can leave: they or a statement inside them can execute one. */
  predicate MayEscape(s: Stmt)
  {
    s.Break? || s.Continue? || s.Block? || s.If? || (s.For? && s.init.Some? && MayEscape(s.init.value))
  }

  /**
   * The statements of a block ran in order: every outcome but the last is
   * normal, the last is the block's, and the block stops early only on an
   * outcome that is not normal.
   */
  ghost predicate RanInOrder(outcomes: seq<Flow>, count: nat, r: Flow)
  {
    |outcomes| <= count &&
    (forall i :: 0 <= i < |outcomes| - 1 ==> outcomes[i] == Normal) &&
    r == (if outcomes == [] then Normal else outcomes[|outcomes| - 1]) &&
    (|outcomes| < count ==> !r.Normal?)
  }

  /** One more statement ran after statements that all ended normally. */
  lemma StepOutcome(prefix: seq<Flow>, r: Flow, count: nat)
    requires |prefix| < count && forall j :: 0 <= j < |prefix| ==> prefix[j] == Normal
    ensures !r.Normal? ==> RanInOrder(prefix + [r], count, r)
    ensures r.Normal? ==> forall j :: 0 <= j < |prefix| + 1 ==> (prefix + [r])[j] == Normal
  {
  }

  /** Statements that all ended normally ran in order, and so did the block. */
  lemma AllNormal(outcomes: seq<Flow>)
    requires forall j :: 0 <= j < |outcomes| ==> outcomes[j] == Normal
    ensures RanInOrder(outcomes, |outcomes|, Normal)
  {
  }

  // ----- how the scope chain may change -----

  /** No scope lost or gained a name, though values may differ. */
  ghost predicate SameNames(before: seq<Scope>, after: seq<Scope>)
  {
    |after| == |before| && forall i :: 0 <= i < |before| ==> after[i].Keys == before[i].Keys
  }

  /** Only the innermost scope gained names; the enclosing ones kept theirs. */
  ghost predicate Grown(before: seq<Scope>, after: seq<Scope>)
  {
    |after| == |before| && |before| > 0 && before[0].Keys <= after[0].Keys &&
    forall i :: 0 < i < |before| ==> after[i].Keys == before[i].Keys
  }

  lemma GrownTrans(a: seq<Scope>, b: seq<Scope>, c: seq<Scope>)
    requires Grown(a, b) && Grown(b, c)
    ensures Grown(a, c)
  {
  }

  /** A name bound somewhere stays bound. */
  lemma GrownKeepsBound(a: seq<Scope>, b: seq<Scope>, name: string)
    requires Grown(a, b) && Bound(a, name)
    ensures Bound(b, name)
  {
    var i :| 0 <= i < |a| && name in a[i];
    assert name in b[i];
  }

  /** A name that became bound did so in the innermost scope. */
  lemma GrownNewName(a: seq<Scope>, b: seq<Scope>, name: string)
    requires Grown(a, b) && !Bound(a, name) && Bound(b, name)
    ensures name in b[0]
  {
    var i :| 0 <= i < |b| && name in b[i];
    if i > 0 {
      assert name in a[i];
    }
  }

  /** Leaving a child scope: the scopes around it kept their names. */
  lemma LeaveScope(a: seq<Scope>, b: seq<Scope>)
    requires Grown(a, b)
    ensures SameNames(a[1..], b[1..])
  {
    forall i | 0 <= i < |a| - 1
      ensures b[1..][i].Keys == a[1..][i].Keys
    {
      assert b[1..][i] == b[i + 1] && a[1..][i] == a[i + 1];
    }
  }

  /** assign() of a bound name succeeds and keeps every scope's names. */
  lemma AssignedKeepsNames(scopes: seq<Scope>, name: string, v: Value)
    requires Bound(scopes, name)
    ensures Assigned(scopes, name, v).Some?
    ensures SameNames(scopes, Assigned(scopes, name, v).value)
  {
    AssignedChangesNearest(scopes, name, v);
    var r := Assigned(scopes, name, v).value;
    var n := Nearest(scopes, name);
    assert r[n].Keys == scopes[n].Keys;
  }

  /**
   * The store of evaluateAssign(): assign() to the nearest scope holding
   * the name, or define() in the innermost scope when no scope does. The
   * name then reads as the value, and only the innermost scope can gain a
   * name.
   */
  function Stored(scopes: seq<Scope>, name: string, v: Value): (r: seq<Scope>)
    requires scopes != []
    ensures Bound(scopes, name) ==> Assigned(scopes, name, v) == Some(r)
    ensures !Bound(scopes, name) ==> r == Defined(scopes, name, v)
    ensures Grown(scopes, r) && Lookup(r, name) == Ok(v)
  {
    AssignedChangesNearest(scopes, name, v);
    var a := Assigned(scopes, name, v);
    if a.Some? then
      AssignedKeepsNames(scopes, name, v);
      AssignThenLookup(scopes, name, v);
      a.value
    else
      DefineThenLookup(scopes, name, v, name + "'");
      assert Defined(scopes, name, v)[1..] == scopes[1..];
      Defined(scopes, name, v)
  }

  // ----- expressions -----

  /** An expression's outcome and the scope chain after it: assignments inside it change the chain. */
  datatype Evaluated = Evaluated(result: Eval, scopes: seq<Scope>)

  /**
   * evaluate() of an expression built from literals, variables,
   * assignments, compound assignments, `++`/`--` and the unary, binary,
   * logical, grouping and ternary operators: operands left to right, each
   * in the chain the one before it left, the first failure is the outcome,
   * `||` and `&&` evaluate their right operand only when the left does not
   * decide, and a ternary evaluates one branch. None for any other node,
   * and where an operator asks an array's truthiness, which depends on the
   * heap. A compound assignment or an update that succeeds stores into a
   * name the chain binds, so its Stored is assign() to the nearest binding.
   */
  function PureEval(e: Expr, scopes: seq<Scope>): (o: Option<Evaluated>)
    requires scopes != []
    ensures o.Some? ==> Grown(scopes, o.value.scopes)
    decreases e
  {
    match e
    case Missing => Some(Evaluated(Raised("Unknown expression type"), scopes))
    case Literal(l) => Some(Evaluated(Done(LiteralValue(l)), scopes))
    case Variable(name) => Some(Evaluated(FromLookup(Lookup(scopes, name)), scopes))
    case Unary(op, right) =>
      var x := PureEval(right, scopes);
      if x.None? || !x.value.result.Done? then x
      else if x.value.result.v.Arr? then None
      else Some(Evaluated(UnaryOp(op, x.value.result.v), x.value.scopes))
    case Binary(left, op, right) =>
      var a := PureEval(left, scopes);
      if a.None? || !a.value.result.Done? then a
      else
        var b := PureEval(right, a.value.scopes);
        if b.None? || !b.value.result.Done? then b
        else Some(Evaluated(BinaryOp(op, a.value.result.v, b.value.result.v), b.value.scopes))
    case Logical(left, op, right) =>
      var a := PureEval(left, scopes);
      if a.None? || !a.value.result.Done? then a
      else if a.value.result.v.Arr? then None
      else if Decides(op, a.value.result.v) then a
      else PureEval(right, a.value.scopes)
    case Grouping(inner) => PureEval(inner, scopes)
    case Ternary(cond, thenBranch, elseBranch) =>
      var c := PureEval(cond, scopes);
      if c.None? || !c.value.result.Done? then c
      else if c.value.result.v.Arr? then None
      else PureEval(if IsTruthy(c.value.result.v) then thenBranch else elseBranch, c.value.scopes)
    case Assign(name, value) =>
      var x := PureEval(value, scopes);
      if x.None? || !x.value.result.Done? then x
      else Some(Evaluated(x.value.result, Stored(x.value.scopes, name, x.value.result.v)))
    case CompoundAssign(name, op, value) =>
      var current := Lookup(scopes, name);
      if current.Fail? then Some(Evaluated(Raised(current.error), scopes))
      else
        var x := PureEval(value, scopes);
        if x.None? || !x.value.result.Done? then x
        else
          var r := CompoundOp(op, current.value, x.value.result.v);
          if !r.Done? then Some(Evaluated(r, x.value.scopes))
          else Some(Evaluated(r, Stored(x.value.scopes, name, r.v)))
    case Update(name, op, prefix) =>
      var current := Lookup(scopes, name);
      var r := UpdateOutcome(op, prefix, current);
      if !r.Done? then Some(Evaluated(r, scopes))
      else Some(Evaluated(r, Stored(scopes, name, Num(Stepped(op, current.value.x)))))
    case _ => None
  }

  /**
   * A logical node's reference outcome from its operands': the left one's
   * when it fails or decides, otherwise the right one's in the chain the
   * left one left.
   */
  lemma LogicalAgrees(e: Expr, scopes: seq<Scope>, left: Eval, right: Option<Eval>, r: Eval, after: seq<Scope>)
    requires e.Logical? && scopes != []
    requires var p := PureEval(e.left, scopes);
      p.Some? ==> left == p.value.result
    requires var p := PureEval(e.left, scopes);
      p.Some? && right.None? ==> r == left && after == p.value.scopes && (left.Done? && !left.v.Arr? ==> Decides(e.op, left.v))
    requires var p := PureEval(e.left, scopes);
      p.Some? && right.Some? ==>
        left.Done? && r == right.value && (!left.v.Arr? ==> !Decides(e.op, left.v)) &&
        EvalAgrees(PureEval(e.right, p.value.scopes), right.value, after)
    ensures EvalAgrees(PureEval(e, scopes), r, after)
    ensures var p := PureEval(e.left, scopes);
      PureEval(e, scopes).Some? ==> p.Some? && (right.Some? ==> PureEval(e.right, p.value.scopes).Some?)
  {
  }

  /**
   * A ternary node's reference outcome from its parts': the condition's
   * when it fails, otherwise the taken branch's in the chain the condition
   * left.
   */
  lemma TernaryAgrees(e: Expr, scopes: seq<Scope>, cond: Eval, taken: Option<Expr>, r: Eval, after: seq<Scope>)
    requires e.Ternary? && scopes != []
    requires var c := PureEval(e.cond, scopes);
      c.Some? ==> cond == c.value.result
    requires var c := PureEval(e.cond, scopes);
      c.Some? && taken.None? ==> !cond.Done? && r == cond && after == c.value.scopes
    requires var c := PureEval(e.cond, scopes);
      c.Some? && taken.Some? ==>
        cond.Done? && (!cond.v.Arr? ==> taken.value == if IsTruthy(cond.v) then e.thenBranch else e.elseBranch) &&
        EvalAgrees(PureEval(taken.value, c.value.scopes), r, after)
    ensures EvalAgrees(PureEval(e, scopes), r, after)
    ensures var c := PureEval(e.cond, scopes);
      PureEval(e, scopes).Some? ==> c.Some? && (taken.Some? ==> PureEval(taken.value, c.value.scopes).Some?)
  {
  }

  /** An assignment's reference outcome is its value's, stored in the chain the value left when it is one. */
  lemma AssignAgrees(e: Expr, scopes: seq<Scope>, r: Eval, after: seq<Scope>)
    requires e.Assign? && scopes != []
    requires var x := PureEval(e.value, scopes);
      x.Some? ==> r == x.value.result && after == if r.Done? then Stored(x.value.scopes, e.name, r.v) else x.value.scopes
    ensures EvalAgrees(PureEval(e, scopes), r, after)
    ensures PureEval(e, scopes).Some? <==> PureEval(e.value, scopes).Some?
  {
  }

  /** An update's reference outcome: the stepped number is stored when it succeeds, nothing changes otherwise. */
  lemma UpdateAgrees(e: Expr, scopes: seq<Scope>, r: Eval, after: seq<Scope>)
    requires e.Update? && scopes != []
    requires r == UpdateOutcome(e.op, e.prefix, Lookup(scopes, e.name))
    requires r.Done? ==> after == Stored(scopes, e.name, Num(Stepped(e.op, Lookup(scopes, e.name).value.x)))
    requires !r.Done? ==> after == scopes
    ensures EvalAgrees(PureEval(e, scopes), r, after)
  {
  }

  /** The values of a list of expressions up to the first failure, that failure if any, and the chain after them. */
  datatype Args = Args(values: seq<Value>, failure: Option<Eval>, scopes: seq<Scope>)

  /**
   * The arguments of a call or the elements of an array literal, left to
   * right, each in the chain the one before it left.
   */
  function PureArgs(es: seq<Expr>, scopes: seq<Scope>): (r: Option<Args>)
    requires scopes != []
    ensures r.Some? ==> Grown(scopes, r.value.scopes)
    ensures r.Some? && r.value.failure.None? ==> |r.value.values| == |es|
    ensures r.Some? && r.value.failure.Some? ==> !r.value.failure.value.Done? && |r.value.values| < |es|
    decreases |es|
  {
    if es == [] then Some(Args([], None, scopes))
    else
      var p := PureArgs(es[..|es| - 1], scopes);
      if p.None? || p.value.failure.Some? then p
      else
        var x := PureEval(es[|es| - 1], p.value.scopes);
        if x.None? then None
        else if x.value.result.Done? then Some(Args(p.value.values + [x.value.result.v], None, x.value.scopes))
        else Some(Args(p.value.values, Some(x.value.result), x.value.scopes))
  }

  /**
   * A list the reference evaluates has every prefix evaluated, and a
   * failure in a prefix is the failure of the whole list.
   */
  lemma {:induction false} PureArgsPrefix(es: seq<Expr>, k: nat, scopes: seq<Scope>)
    requires scopes != [] && k <= |es| && PureArgs(es, scopes).Some?
    ensures PureArgs(es[..k], scopes).Some?
    ensures PureArgs(es[..k], scopes).value.failure.Some? ==> PureArgs(es, scopes) == PureArgs(es[..k], scopes)
    decreases |es| - k
  {
    if k < |es| {
      var init := es[..|es| - 1];
      assert init[..k] == es[..k];
      PureArgsPrefix(init, k, scopes);
    } else {
      assert es[..k] == es;
    }
  }

  /**
   * The next item of a list the reference evaluates, after items that all
   * gave values and left the chain `now`: its outcome ends the list when it
   * fails, and extends the values otherwise.
   */
  lemma PureArgsStep(es: seq<Expr>, i: nat, vs: seq<Value>, now: seq<Scope>, scopes: seq<Scope>)
    requires scopes != [] && i < |es| && PureArgs(es, scopes).Some? && PureArgs(es[..i], scopes) == Some(Args(vs, None, now))
    ensures now != [] && PureEval(es[i], now).Some?
    ensures var x := PureEval(es[i], now).value;
      x.result.Done? ==> PureArgs(es[..i + 1], scopes) == Some(Args(vs + [x.result.v], None, x.scopes))
    ensures var x := PureEval(es[i], now).value;
      !x.result.Done? ==> PureArgs(es, scopes) == Some(Args(vs, Some(x.result), x.scopes))
  {
    PureArgsPrefix(es, i + 1, scopes);
    assert es[..i + 1][..i] == es[..i];
  }

  /** The outcome and the chain afterwards agree with the reference whenever it gives one. */
  predicate EvalAgrees(o: Option<Evaluated>, r: Eval, after: seq<Scope>)
  {
    o.Some? ==> r == o.value.result && after == o.value.scopes
  }

  // ----- statements -----

  /** A statement's outcome, the scope chain afterwards, and the lines it printed. */
  datatype Outcome = Outcome(flow: Flow, scopes: seq<Scope>, lines: seq<string>)

  /** `o` after lines printed before it. */
  function Then(lines: seq<string>, o: Outcome): Outcome
  {
    Outcome(o.flow, o.scopes, lines + o.lines)
  }

  /** An expression statement's or initializer's failure, in the chain the expression left. */
  function Failed(x: Evaluated): Outcome
    requires !x.result.Done?
  {
    Outcome(Lift(x.result), x.scopes, [])
  }

  /**
   * execute() of one statement in the chain `scopes`: what it prints,
   * binds and how it ends. `let` binds in the innermost scope, and
   * assignments change the scope holding the name; a block and a `for`
   * loop run in a child scope that is dropped afterwards, so the chain
   * keeps its names; loops run at most `fuel` iterations, after which the
   * outcome is Stopped.
   */
  function PureExec(s: Stmt, scopes: seq<Scope>, fuel: nat): (o: Option<Outcome>)
    requires scopes != []
    ensures o.Some? ==> Grown(scopes, o.value.scopes)
    ensures o.Some? && (s.Block? || s.For?) ==> SameNames(scopes, o.value.scopes)
    decreases s, 4
  {
    match s
    case ExprStmt(e) =>
      var x := PureEval(e, scopes);
      if x.None? then None
      else if x.value.result.Done? then Some(Outcome(Normal, x.value.scopes, []))
      else Some(Failed(x.value))
    case PrintStmt(e) =>
      var x := PureEval(e, scopes);
      if x.None? then None
      else if !x.value.result.Done? then Some(Failed(x.value))
      else if x.value.result.v.Arr? then None
      else
        var text := ScalarText(x.value.result.v);
        if text.Some? then Some(Outcome(Normal, x.value.scopes, [text.value]))
        else Some(Outcome(Stopped, x.value.scopes, []))
    case Let(name, initializer) =>
      var x := if initializer.Missing? then Some(Evaluated(Done(Value.Nil), scopes)) else PureEval(initializer, scopes);
      if x.None? then None
      else if !x.value.result.Done? then Some(Failed(x.value))
      else
        assert Defined(x.value.scopes, name, x.value.result.v)[1..] == x.value.scopes[1..];
        Some(Outcome(Normal, Defined(x.value.scopes, name, x.value.result.v), []))
    case Block(stmts) =>
      var o := PureList(stmts, [map[]] + scopes, fuel);
      if o.None? then None
      else
        LeaveScope([map[]] + scopes, o.value.scopes);
        assert ([map[]] + scopes)[1..] == scopes;
        Some(Outcome(o.value.flow, o.value.scopes[1..], o.value.lines))
    case If(cond, thenBranch, elseBranch) =>
      var c := PureEval(cond, scopes);
      if c.None? then None
      else if !c.value.result.Done? then Some(Failed(c.value))
      else if c.value.result.v.Arr? then None
      else if IsTruthy(c.value.result.v) then PureExec(thenBranch, c.value.scopes, fuel)
      else if elseBranch.Some? then PureExec(elseBranch.value, c.value.scopes, fuel)
      else Some(Outcome(Normal, c.value.scopes, []))
    case While(_, _) => PureLoop(s, scopes, fuel, fuel)
    case RunUntil(_, _) => Some(Outcome(Threw("Unknown statement type"), scopes, []))
    case For(_, _, _, _) =>
      var o := PureForRun(s, [map[]] + scopes, fuel);
      if o.None? then None
      else
        LeaveScope([map[]] + scopes, o.value.scopes);
        assert ([map[]] + scopes)[1..] == scopes;
        Some(Outcome(o.value.flow, o.value.scopes[1..], o.value.lines))
    case FnDecl(_, _, _) => None
    case Return(value) =>
      var x := if value.Missing? then Some(Evaluated(Done(Value.Nil), scopes)) else PureEval(value, scopes);
      if x.None? then None
      else if x.value.result.Done? then Some(Outcome(Returned(x.value.result.v), x.value.scopes, []))
      else Some(Failed(x.value))
    case Break => Some(Outcome(BreakOut, scopes, []))
    case Continue => Some(Outcome(ContinueOut, scopes, []))
  }

  /** execute(statements): each in turn, up to the first that does not end normally. */
  function PureList(stmts: seq<Stmt>, scopes: seq<Scope>, fuel: nat): (o: Option<Outcome>)
    requires scopes != []
    ensures o.Some? ==> Grown(scopes, o.value.scopes)
    decreases stmts, 0
  {
    if stmts == [] then Some(Outcome(Normal, scopes, []))
    else
      var first := PureExec(stmts[0], scopes, fuel);
      if first.None? || !first.value.flow.Normal? then first
      else
        var rest := PureList(stmts[1..], first.value.scopes, fuel);
        if rest.None? then None else Some(Then(first.value.lines, rest.value))
  }

  /**
   * A `for` loop in its own scope: the initializer, then the iterations
   * unless the initializer did not end normally.
   */
  function PureForRun(s: Stmt, scopes: seq<Scope>, fuel: nat): (o: Option<Outcome>)
    requires scopes != [] && s.For?
    ensures o.Some? ==> Grown(scopes, o.value.scopes)
    decreases s, 3
  {
    if s.init.None? then PureLoop(s, scopes, fuel, fuel)
    else
      var i := PureExec(s.init.value, scopes, fuel);
      if i.None? || !i.value.flow.Normal? then i
      else
        var loop := PureLoop(s, i.value.scopes, fuel, fuel);
        if loop.None? then None else Some(Then(i.value.lines, loop.value))
  }

  /** The iterations of a loop, at most `left` more of them; Stopped when they run out. */
  function PureLoop(s: Stmt, scopes: seq<Scope>, fuel: nat, left: nat): (o: Option<Outcome>)
    requires scopes != [] && (s.While? || s.For?)
    ensures o.Some? ==> Grown(scopes, o.value.scopes)
    decreases s, 2, left
  {
    if left == 0 then Some(Outcome(Stopped, scopes, []))
    else
      var step := PureStep(s, scopes, fuel);
      if step.None? then None
      else if !step.value.more then Some(step.value.outcome)
      else
        var rest := PureLoop(s, step.value.outcome.scopes, fuel, left - 1);
        if rest.None? then None else Some(Then(step.value.outcome.lines, rest.value))
  }

  /**
   * One iteration: how it ends, whether the loop goes on, and the outcomes
   * of its test, its body and its increment (None: not run).
   */
  datatype Iteration = Iteration(outcome: Outcome, more: bool, cond: Eval, body: Option<Flow>, incr: Option<Eval>)

  /** One iteration of a loop: a `for` loop's increment follows a body that ended normally or by continue. */
  function PureStep(s: Stmt, scopes: seq<Scope>, fuel: nat): (o: Option<Iteration>)
    requires scopes != [] && (s.While? || s.For?)
    ensures o.Some? ==> Grown(scopes, o.value.outcome.scopes)
    decreases s, 1
  {
    var it := PureIteration(s, scopes, fuel);
    if it.None? || s.While? || !it.value.more || s.incr.Missing? then it
    else
      var x := PureEval(s.incr, it.value.outcome.scopes);
      if x.None? then None
      else if x.value.result.Done? then
        Some(it.value.(outcome := it.value.outcome.(scopes := x.value.scopes), incr := Some(x.value.result)))
      else
        Some(it.value.(outcome := Outcome(Lift(x.value.result), x.value.scopes, it.value.outcome.lines), more := false,
                       incr := Some(x.value.result)))
  }

  /** A `while` loop's step is its iteration: it has no increment. */
  lemma WhileStep(s: Stmt, scopes: seq<Scope>, fuel: nat)
    requires s.While? && scopes != []
    ensures PureStep(s, scopes, fuel) == PureIteration(s, scopes, fuel)
  {
  }

  /**
   * The test and the body of one iteration. A `for` loop without a
   * condition goes on; a falsy condition ends the loop normally; a break
   * ends it normally, a continue goes on, any other abnormal body ends it.
   */
  function PureIteration(s: Stmt, scopes: seq<Scope>, fuel: nat): (o: Option<Iteration>)
    requires scopes != [] && (s.While? || s.For?)
    ensures o.Some? ==> Grown(scopes, o.value.outcome.scopes)
    ensures o.Some? ==> o.value.incr.None?
    decreases s, 0
  {
    var c := if s.For? && s.cond.Missing? then Some(Evaluated(Done(Bool(true)), scopes)) else PureEval(s.cond, scopes);
    if c.None? then None
    else
      var test := c.value.result;
      if !test.Done? then Some(Iteration(Failed(c.value), false, test, None, None))
      else if test.v.Arr? then None
      else if !IsTruthy(test.v) then Some(Iteration(Outcome(Normal, c.value.scopes, []), false, test, None, None))
      else
        var b := PureExec(s.body, c.value.scopes, fuel);
        if b.None? then None
        else
          var f := b.value.flow;
          var more := f.Normal? || f.ContinueOut?;
          Some(Iteration(Outcome(if more || f.BreakOut? then Normal else f, b.value.scopes, b.value.lines), more, test, Some(f), None))
  }

  /** The outcome of each statement of a list the reference runs, in order, up to the first abnormal one. */
  function PureFlows(stmts: seq<Stmt>, scopes: seq<Scope>, fuel: nat): seq<Flow>
    requires scopes != []
    decreases stmts
  {
    if stmts == [] then []
    else
      var first := PureExec(stmts[0], scopes, fuel);
      if first.None? then []
      else if !first.value.flow.Normal? then [first.value.flow]
      else [Normal] + PureFlows(stmts[1..], first.value.scopes, fuel)
  }

  /** The chain a `for` loop's first test runs in: after its initializer, when that ended normally. */
  function LoopStart(s: Stmt, scopes: seq<Scope>, fuel: nat): (r: Option<seq<Scope>>)
    requires s.For? && scopes != []
    ensures r.Some? ==> |r.value| == |scopes|
  {
    if s.init.None? then Some(scopes)
    else
      var i := PureExec(s.init.value, scopes, fuel);
      if i.Some? && i.value.flow.Normal? then Some(i.value.scopes) else None
  }

  /** Unfolds a statement list the reference runs by its statement at `i`. */
  lemma PureListStep(stmts: seq<Stmt>, i: nat, scopes: seq<Scope>, fuel: nat)
    requires i < |stmts| && scopes != [] && PureList(stmts[i..], scopes, fuel).Some?
    ensures PureExec(stmts[i], scopes, fuel).Some?
    ensures var first := PureExec(stmts[i], scopes, fuel).value;
      !first.flow.Normal? ==>
        PureList(stmts[i..], scopes, fuel) == Some(first) && PureFlows(stmts[i..], scopes, fuel) == [first.flow]
    ensures var first := PureExec(stmts[i], scopes, fuel).value;
      first.flow.Normal? ==>
        PureList(stmts[i + 1..], first.scopes, fuel).Some? &&
        PureList(stmts[i..], scopes, fuel).value == Then(first.lines, PureList(stmts[i + 1..], first.scopes, fuel).value) &&
        PureFlows(stmts[i..], scopes, fuel) == [Normal] + PureFlows(stmts[i + 1..], first.scopes, fuel)
  {
    assert stmts[i..][0] == stmts[i];
    assert stmts[i..][1..] == stmts[i + 1..];
  }

  /** Lines printed in two stretches. */
  lemma ThenThen(a: seq<string>, b: seq<string>, o: Outcome)
    ensures Then(a, Then(b, o)) == Then(a + b, o)
  {
    assert a + (b + o.lines) == (a + b) + o.lines;
  }

  /**
   * A statement list's run so far agrees with the reference: `printed`
   * and `outcomes` are what the statements run so far printed and how
   * they ended, and the reference's run of the `rest` from `scopes` gives
   * the remainder of the list's outcome `reference` and of its flows `flows`.
   */
  predicate ListAgrees(reference: Option<Outcome>, flows: seq<Flow>, rest: seq<Stmt>, scopes: seq<Scope>, fuel: nat,
                       printed: seq<string>, outcomes: seq<Flow>, start: seq<string>, now: seq<string>)
  {
    reference.Some? ==>
      scopes != [] && PureList(rest, scopes, fuel).Some? &&
      reference.value == Then(printed, PureList(rest, scopes, fuel).value) && now == start + printed &&
      flows == outcomes + PureFlows(rest, scopes, fuel)
  }

  /** Nothing of a list has run yet. */
  lemma ListStart(stmts: seq<Stmt>, scopes: seq<Scope>, fuel: nat, start: seq<string>)
    requires scopes != []
    ensures ListAgrees(PureList(stmts, scopes, fuel), PureFlows(stmts, scopes, fuel), stmts, scopes, fuel, [], [], start, start)
  {
    var o := PureList(stmts, scopes, fuel);
    if o.Some? {
      assert Then([], o.value) == o.value;
    }
  }

  /**
   * One more statement that agrees with the reference either ends the
   * list with the reference's outcome or leaves the rest to come.
   */
  lemma ListAdvance(reference: Option<Outcome>, flows: seq<Flow>, stmts: seq<Stmt>, i: nat, scopes: seq<Scope>, next: seq<Scope>,
                    fuel: nat, printed: seq<string>, outcomes: seq<Flow>, r: Flow, start: seq<string>, mid: seq<string>,
                    now: seq<string>) returns (extended: seq<string>)
    requires i < |stmts| && ListAgrees(reference, flows, stmts[i..], scopes, fuel, printed, outcomes, start, mid)
    requires reference.Some? ==> ExecAgrees(PureExec(stmts[i], scopes, fuel), r, next, mid, now)
    ensures reference.Some? ==> PureExec(stmts[i], scopes, fuel).Some?
    ensures r.Normal? ==> ListAgrees(reference, flows, stmts[i + 1..], next, fuel, extended, outcomes + [r], start, now)
    ensures !r.Normal? ==> ExecAgrees(reference, r, next, start, now) && (reference.Some? ==> flows == outcomes + [r])
  {
    extended := printed;
    if reference.Some? {
      PureListStep(stmts, i, scopes, fuel);
      var first := PureExec(stmts[i], scopes, fuel).value;
      extended := printed + first.lines;
      if r.Normal? {
        ThenThen(printed, first.lines, PureList(stmts[i + 1..], next, fuel).value);
        assert outcomes + [r] + PureFlows(stmts[i + 1..], next, fuel) == outcomes + ([Normal] + PureFlows(stmts[i + 1..], next, fuel));
      } else {
        assert start + printed + first.lines == start + (printed + first.lines);
      }
    }
  }

  /** A list whose statements all ran agrees with the reference's Normal. */
  lemma ListDone(reference: Option<Outcome>, flows: seq<Flow>, scopes: seq<Scope>, fuel: nat, printed: seq<string>,
                 outcomes: seq<Flow>, start: seq<string>, now: seq<string>)
    requires ListAgrees(reference, flows, [], scopes, fuel, printed, outcomes, start, now)
    ensures ExecAgrees(reference, Normal, scopes, start, now) && (reference.Some? ==> flows == outcomes)
  {
    if reference.Some? {
      assert printed + [] == printed;
      assert outcomes + [] == outcomes;
    }
  }

  /** The statement, its flow, scopes and printed lines agree with the reference whenever it gives an outcome. */
  predicate ExecAgrees(o: Option<Outcome>, r: Flow, scopes: seq<Scope>, before: seq<string>, after: seq<string>)
  {
    o.Some? ==> r == o.value.flow && scopes == o.value.scopes && after == before + o.value.lines
  }

  /** The same for one iteration, with whether the loop goes on and the outcomes of its parts. */
  predicate StepAgrees(o: Option<Iteration>, r: Flow, more: bool, cond: Eval, body: Option<Flow>, incr: Option<Eval>,
                       scopes: seq<Scope>, before: seq<string>, after: seq<string>)
  {
    o.Some? ==>
      ExecAgrees(Some(o.value.outcome), r, scopes, before, after) &&
      more == o.value.more && cond == o.value.cond && body == o.value.body && incr == o.value.incr
  }

  /**
   * The outcomes of a loop's first test, body and increment agree with the
   * reference's first iteration from the chain `start`, when it gives one.
   */
  predicate FirstIterationAgrees(s: Stmt, start: Option<seq<Scope>>, fuel: nat, cond: Eval, body: Option<Flow>, incr: Option<Eval>)
    requires s.While? || s.For?
  {
    fuel > 0 && start.Some? && start.value != [] && PureStep(s, start.value, fuel).Some? ==>
      cond == PureStep(s, start.value, fuel).value.cond &&
      body == PureStep(s, start.value, fuel).value.body &&
      incr == PureStep(s, start.value, fuel).value.incr
  }

  /**
   * A loop's run so far agrees with the reference: `printed` is what its
   * iterations printed, and the reference's remaining `left` iterations
   * from `scopes` give the rest.
   */
  predicate LoopAgrees(reference: Option<Outcome>, s: Stmt, scopes: seq<Scope>, fuel: nat, left: nat,
                       printed: seq<string>, start: seq<string>, now: seq<string>)
    requires s.While? || s.For?
  {
    reference.Some? ==>
      scopes != [] && PureLoop(s, scopes, fuel, left).Some? &&
      reference.value == Then(printed, PureLoop(s, scopes, fuel, left).value) && now == start + printed
  }

  /**
   * One iteration that agrees with the reference either ends the loop
   * with the reference's outcome or leaves one iteration fewer to come.
   */
  lemma LoopAdvance(reference: Option<Outcome>, s: Stmt, scopes: seq<Scope>, next: seq<Scope>, fuel: nat, left: nat,
                    printed: seq<string>, r: Flow, more: bool, cond: Eval, body: Option<Flow>, incr: Option<Eval>,
                    start: seq<string>, mid: seq<string>, now: seq<string>) returns (extended: seq<string>)
    requires s.While? || s.For?
    requires left > 0 && LoopAgrees(reference, s, scopes, fuel, left, printed, start, mid)
    requires reference.Some? ==> StepAgrees(PureStep(s, scopes, fuel), r, more, cond, body, incr, next, mid, now)
    ensures reference.Some? ==> PureStep(s, scopes, fuel).Some? && extended == printed + PureStep(s, scopes, fuel).value.outcome.lines
    ensures more ==> LoopAgrees(reference, s, next, fuel, left - 1, extended, start, now)
    ensures !more ==> ExecAgrees(reference, r, next, start, now)
  {
    extended := printed;
    if reference.Some? {
      var step := PureStep(s, scopes, fuel).value;
      extended := printed + step.outcome.lines;
      if more {
        ThenThen(printed, step.outcome.lines, PureLoop(s, next, fuel, left - 1).value);
      } else {
        assert start + printed + step.outcome.lines == start + (printed + step.outcome.lines);
      }
    }
  }

  /**
   * A loop's test and body that agree with the reference, one piece at a
   * time, agree with the reference's iteration: `mid` are the scopes after
   * the test, `now` after the body; `middle` the lines after the test.
   */
  lemma IterationAgrees(s: Stmt, scopes: seq<Scope>, fuel: nat, cond: Eval, mid: seq<Scope>, body: Option<Flow>,
                        r: Flow, more: bool, now: seq<Scope>, before: seq<string>, after: seq<string>)
    requires (s.While? || s.For?) && scopes != [] && mid != []
    requires if s.For? && s.cond.Missing? then cond == Done(Bool(true)) && mid == scopes
             else EvalAgrees(PureEval(s.cond, scopes), cond, mid)
    requires body.None? ==> !more && now == mid && after == before &&
                            r == (if cond.Done? then Normal else Lift(cond)) && (cond.Done? && !cond.v.Arr? ==> !IsTruthy(cond.v))
    requires body.Some? ==>
               cond.Done? && (!cond.v.Arr? ==> IsTruthy(cond.v)) &&
               ExecAgrees(PureExec(s.body, mid, fuel), body.value, now, before, after) &&
               (more <==> body.value.Normal? || body.value.ContinueOut?) &&
               r == if body.value.BreakOut? || body.value.ContinueOut? then Normal else body.value
    ensures StepAgrees(PureIteration(s, scopes, fuel), r, more, cond, body, None, now, before, after)
  {
    if PureIteration(s, scopes, fuel).Some? && body.None? {
      assert after == before + [];
    }
  }

  /**
   * A `for` iteration that goes on, followed by an increment that agrees
   * with the reference, agrees with the reference's whole step.
   */
  lemma IncrementAgrees(s: Stmt, scopes: seq<Scope>, fuel: nat, cond: Eval, body: Option<Flow>, mid: seq<Scope>,
                        before: seq<string>, after: seq<string>, r: Flow, more: bool, value: Eval, now: seq<Scope>)
    requires s.For? && scopes != [] && !s.incr.Missing?
    requires StepAgrees(PureIteration(s, scopes, fuel), Normal, true, cond, body, None, mid, before, after)
    requires mid != [] && EvalAgrees(PureEval(s.incr, mid), value, now)
    requires (more <==> value.Done?) && r == if value.Done? then Normal else Lift(value)
    ensures StepAgrees(PureStep(s, scopes, fuel), r, more, cond, body, Some(value), now, before, after)
  {
    var it := PureIteration(s, scopes, fuel);
    if it.Some? && PureEval(s.incr, mid).Some? {
      assert it.value.more && it.value.outcome.scopes == mid;
    }
  }

  /**
   * A `for` loop's initializer and iterations that agree with the
   * reference agree with the reference's run of the loop in its scope:
   * `mid` are the scopes after the initializer, `middle` the lines.
   */
  lemma ForRunAgrees(s: Stmt, scopes: seq<Scope>, fuel: nat, init: Option<Flow>, mid: seq<Scope>, cond: Eval, body: Option<Flow>,
                     incr: Option<Eval>, r: Flow, now: seq<Scope>, start: seq<string>, middle: seq<string>, after: seq<string>)
    requires s.For? && scopes != [] && mid != []
    requires s.init.None? ==> init.None? && mid == scopes && middle == start
    requires s.init.Some? ==> init.Some? && ExecAgrees(PureExec(s.init.value, scopes, fuel), init.value, mid, start, middle)
    requires init.Some? && !init.value.Normal? ==> r == init.value && now == mid && after == middle
    requires init.None? || init.value.Normal? ==>
               ExecAgrees(PureLoop(s, mid, fuel, fuel), r, now, middle, after) && FirstIterationAgrees(s, Some(mid), fuel, cond, body, incr)
    ensures ExecAgrees(PureForRun(s, scopes, fuel), r, now, start, after)
    ensures FirstIterationAgrees(s, LoopStart(s, scopes, fuel), fuel, cond, body, incr)
  {
    if s.init.Some? && PureForRun(s, scopes, fuel).Some? && init.value.Normal? {
      var first := PureExec(s.init.value, scopes, fuel).value.lines;
      var rest := PureLoop(s, mid, fuel, fuel).value.lines;
      assert start + first + rest == start + (first + rest);
    }
  }

  /** Nothing of a loop has run yet. */
  lemma LoopBegin(s: Stmt, scopes: seq<Scope>, fuel: nat, left: nat, start: seq<string>)
    requires (s.While? || s.For?) && scopes != []
    ensures LoopAgrees(PureLoop(s, scopes, fuel, left), s, scopes, fuel, left, [], start, start)
  {
    var o := PureLoop(s, scopes, fuel, left);
    if o.Some? {
      assert Then([], o.value) == o.value;
    }
  }

  /** A loop whose iterations ran out agrees with the reference's Stopped. */
  lemma LoopExhausted(reference: Option<Outcome>, s: Stmt, scopes: seq<Scope>, fuel: nat, printed: seq<string>,
                      start: seq<string>, now: seq<string>)
    requires s.While? || s.For?
    requires LoopAgrees(reference, s, scopes, fuel, 0, printed, start, now)
    ensures ExecAgrees(reference, Stopped, scopes, start, now)
  {
    if reference.Some? {
      assert printed + [] == printed;
    }
  }

  /**
   * A first iteration that agrees with the reference and goes on, followed
   * by the rest of the loop agreeing with the reference, agrees with the
   * reference's whole loop.
   */
  lemma FirstThenRest(s: Stmt, scopes: seq<Scope>, next: seq<Scope>, fuel: nat, left: nat, r: Flow, last: seq<Scope>,
                      start: seq<string>, mid: seq<string>, now: seq<string>)
    requires (s.While? || s.For?) && scopes != [] && left > 0
    requires PureStep(s, scopes, fuel).Some? ==>
      PureStep(s, scopes, fuel).value.more && PureStep(s, scopes, fuel).value.outcome.scopes == next &&
      mid == start + PureStep(s, scopes, fuel).value.outcome.lines
    requires next != [] && ExecAgrees(PureLoop(s, next, fuel, left - 1), r, last, mid, now)
    ensures ExecAgrees(PureLoop(s, scopes, fuel, left), r, last, start, now)
  {
    if PureLoop(s, scopes, fuel, left).Some? {
      var step := PureStep(s, scopes, fuel).value;
      var rest := PureLoop(s, next, fuel, left - 1).value;
      assert start + step.outcome.lines + rest.lines == start + (step.outcome.lines + rest.lines);
    }
  }
}

// Runtime values (src/value.cpp, as it uses them) and the growable array
// of src/array.cpp. Arrays and callables are heap objects: values hold
// references to them, so two values may share one array, and equality on
// them is identity.
module Values {
  import opened Wrappers
  import opened Ast
  import Text

  /** What a callable value runs when it is called. */
  datatype Routine =
    | UserFunction(name: string, params: seq<string>, body: seq<Stmt>)  // made by `fn`
    | Builtin(name: string)                                             // registered at start-up
    | ArrayPush(target: VoltArray)                                      // `arr.push`
    | ArrayPop(target: VoltArray)                                       // `arr.pop`

  /** A function object: an arity and what it runs. */
  class Callable {
    const arity: nat
    const routine: Routine

    constructor(arity: nat, routine: Routine)
      ensures this.arity == arity && this.routine == routine
    {
      this.arity := arity;
      this.routine := routine;
    }
  }

  /** nil, a bool, a number, a string, an array or a callable. */
  datatype Value =
    | Nil
    | Bool(b: bool)
    | Num(x: real)
    | Str(s: string)
    | Arr(a: VoltArray)
    | Fn(f: Callable)

  /** isTruthy(): nil and false are falsy, so are 0, "" and an empty array. */
  predicate IsTruthy(v: Value)
    reads if v.Arr? then {v.a} else {}
  {
    match v
    case Nil => false
    case Bool(b) => b
    case Num(x) => x != 0.0
    case Str(s) => |s| > 0
    case Arr(a) => |a.elements| > 0
    case Fn(_) => true
  }

  /** Exactly five kinds of value are falsy; every callable is truthy. */
  lemma FalsyValues(v: Value)
    ensures !IsTruthy(v) <==>
      v == Nil || v == Bool(false) || v == Num(0.0) || v == Str("") || (v.Arr? && v.a.elements == [])
  {
  }

  /**
   * isEqual(): nil equals only nil; numbers, strings and bools of the same
   * kind compare by value; callables and arrays compare by reference; any
   * two values of different kinds differ.
   */
  predicate IsEqual(a: Value, b: Value)
  {
    if a.Nil? && b.Nil? then true
    else if a.Nil? || b.Nil? then false
    else if a.Num? && b.Num? then a.x == b.x
    else if a.Str? && b.Str? then a.s == b.s
    else if a.Bool? && b.Bool? then a.b == b.b
    else if a.Fn? && b.Fn? then a.f == b.f
    else if a.Arr? && b.Arr? then a.a == b.a
    else false
  }

  /**
   * isEqual is the identity of values: contents for scalars, the object for
   * arrays and callables. So it is symmetric, and `0 == false` is false.
   */
  lemma IsEqualIsIdentity(a: Value, b: Value)
    ensures IsEqual(a, b) <==> a == b
    ensures IsEqual(a, b) == IsEqual(b, a)
  {
  }

  /** Two distinct arrays are unequal even with the same elements. */
  lemma ArraysCompareByReference(p: VoltArray, q: VoltArray)
    requires p != q
    ensures !IsEqual(Arr(p), Arr(q))
  {
    IsEqualIsIdentity(Arr(p), Arr(q));
  }

  /** The text std::ostringstream gets for `[...]` around the joined elements. */
  function Bracketed(inner: Option<string>): Option<string>
  {
    if inner.Some? then Some("[" + inner.value + "]") else None
  }

  /**
   * valueToString() of a value that is not an array, which reads nothing
   * on the heap; None for a callable, whose text comes from a class
   * outside this model.
   */
  function ScalarText(v: Value): Option<string>
    requires !v.Arr?
  {
    match v
    case Nil => Some("nil")
    case Num(x) => Some(Text.NumberToString(x))
    case Str(s) => Some(s)
    case Bool(b) => Some(if b then "true" else "false")
    case Fn(_) => None
  }

  /**
   * valueToString(), with a bound on how deeply arrays nest: None when the
   * bound is reached.
   */
  function ValueText(v: Value, depth: nat): Option<string>
    reads *
    decreases depth, 0
  {
    if v.Arr? then
      if depth == 0 then None else Bracketed(ElementsText(v.a.elements, depth - 1))
    else ScalarText(v)
  }

  /** The texts of `vs` separated by `, `, as the loop of toString() writes them. */
  function ElementsText(vs: seq<Value>, depth: nat): Option<string>
    reads *
    decreases depth, |vs| + 1
  {
    if vs == [] then Some("")
    else
      var init := ElementsText(vs[..|vs| - 1], depth);
      var last := ValueText(vs[|vs| - 1], depth);
      if init.None? || last.None? then None
      else if |vs| == 1 then last
      else Some(init.value + ", " + last.value)
  }

  /** nil, booleans and strings print as themselves; whole numbers without a point. */
  lemma ScalarTexts(s: string, n: int, d: nat)
    ensures ValueText(Nil, d) == Some("nil")
    ensures ValueText(Bool(true), d) == Some("true") && ValueText(Bool(false), d) == Some("false")
    ensures ValueText(Str(s), d) == Some(s)
    ensures ValueText(Num(n as real), d) == Some(Text.IntToString(n))
    ensures '.' !in ValueText(Num(n as real), d).value
  {
    Text.IntegerNumberText(n);
  }

  /** An empty array prints `[]`, one of two elements `[x, y]`. */
  lemma ArrayTexts(a: VoltArray, x: Value, y: Value, d: nat)
    ensures a.elements == [] ==> ValueText(Arr(a), d + 1) == Some("[]")
    ensures a.elements == [x, y] && ValueText(x, d).Some? && ValueText(y, d).Some? ==>
      ValueText(Arr(a), d + 1) == Some("[" + ValueText(x, d).value + ", " + ValueText(y, d).value + "]")
  {
    if a.elements == [] {
      EmptyArrayText(a, d);
    }
    if a.elements == [x, y] && ValueText(x, d).Some? && ValueText(y, d).Some? {
      PairText(x, y, d);
      BracketedPair(ValueText(x, d).value, ValueText(y, d).value);
    }
  }

  lemma EmptyArrayText(a: VoltArray, d: nat)
    requires a.elements == []
    ensures ValueText(Arr(a), d + 1) == Some("[]")
  {
    assert ElementsText(a.elements, d) == Some("");
    assert "[" + "" + "]" == "[]";
  }

  lemma BracketedPair(tx: string, ty: string)
    ensures Bracketed(Some(tx + ", " + ty)) == Some("[" + tx + ", " + ty + "]")
  {
    assert "[" + (tx + ", " + ty) + "]" == "[" + tx + ", " + ty + "]";
  }

  /** Two elements with texts are joined by `, `. */
  lemma PairText(x: Value, y: Value, d: nat)
    requires ValueText(x, d).Some? && ValueText(y, d).Some?
    ensures ElementsText([x, y], d) == Some(ValueText(x, d).value + ", " + ValueText(y, d).value)
  {
    assert [x][..0] == [];
    assert ElementsText([x], d) == ValueText(x, d);
    assert [x, y][..1] == [x];
  }

  /** One element without text leaves the whole list without text. */
  lemma {:induction false} ElementsTextNone(vs: seq<Value>, i: nat, depth: nat)
    requires i < |vs| && ElementsText(vs[..i + 1], depth).None?
    ensures ElementsText(vs, depth).None?
    decreases |vs| - i
  {
    if i + 1 == |vs| {
      assert vs[..i + 1] == vs;
    } else {
      assert vs[..i + 2][..i + 1] == vs[..i + 1];
      ElementsTextNone(vs, i + 1, depth);
    }
  }

  /**
   * An array that holds itself has no text at any depth: valueToString
   * would recurse without end on it.
   */
  lemma {:induction false} SelfContainingHasNoText(a: VoltArray, i: nat, depth: nat)
    requires i < |a.elements| && a.elements[i] == Arr(a)
    ensures ValueText(Arr(a), depth).None?
    decreases depth
  {
    if depth > 0 {
      SelfContainingHasNoText(a, i, depth - 1);
      var vs := a.elements;
      assert vs[..i + 1][..i] == vs[..i];
      assert vs[..i + 1][i] == Arr(a);
      ElementsTextNone(vs, i, depth - 1);
    }
  }

  /** The message of the runtime_error that get and set throw. */
  function OutOfBounds(index: nat): string
  {
    "Array index out of bounds: " + Text.NatToString(index)
  }

  /** The contents after pop(): the last element goes, or nothing on an empty array. */
  function Popped(s: seq<Value>): (Value, seq<Value>)
  {
    if s == [] then (Nil, []) else (s[|s| - 1], s[..|s| - 1])
  }

  /** push(v) then pop() gives back v and the contents before the push. */
  lemma PushThenPop(s: seq<Value>, v: Value)
    ensures Popped(s + [v]) == (v, s)
  {
    assert (s + [v])[..|s|] == s;
  }

  /** pop() on an empty array gives nil and leaves it empty; otherwise it shortens it by one. */
  lemma PopShortens(s: seq<Value>)
    ensures s == [] ==> Popped(s) == (Nil, [])
    ensures s != [] ==> |Popped(s).1| == |s| - 1 && Popped(s).1 + [Popped(s).0] == s
  {
  }

  /** VoltArray: a growable, heterogeneous, zero-indexed sequence of values. */
  class VoltArray {
    var elements: seq<Value>

    constructor(elements: seq<Value>)
      ensures this.elements == elements
    {
      this.elements := elements;
    }

    function Length(): nat
      reads this
    {
      |elements|
    }

    /** get(index): the element, or the out-of-bounds error. */
    method Get(index: nat) returns (r: Result<Value>)
      ensures r.Ok? <==> index < |elements|
      ensures r.Ok? ==> r.value == elements[index]
      ensures r.Fail? ==> r.error == OutOfBounds(index)
    {
      if index >= |elements| {
        return Fail(OutOfBounds(index));
      }
      r := Ok(elements[index]);
    }

    /** set(index, v): replaces exactly one element, or fails and changes nothing. */
    method Set(index: nat, v: Value) returns (r: Result<()>)
      modifies this
      ensures r.Ok? <==> index < |old(elements)|
      ensures r.Ok? ==> elements == old(elements)[index := v]
      ensures r.Fail? ==> elements == old(elements) && r.error == OutOfBounds(index)
    {
      if index >= |elements| {
        return Fail(OutOfBounds(index));
      }
      elements := elements[index := v];
      r := Ok(());
    }

    /** push(v): appends at the end. */
    method Push(v: Value)
      modifies this
      ensures elements == old(elements) + [v]
    {
      elements := elements + [v];
    }

    /** pop(): removes and returns the last element; nil on an empty array. */
    method Pop() returns (v: Value)
      modifies this
      ensures (v, elements) == Popped(old(elements))
    {
      if elements == [] {
        return Nil;
      }
      v := elements[|elements| - 1];
      elements := elements[..|elements| - 1];
    }

    /**
     * toString(): `[`, the element texts separated by `, `, then `]`; the
     * elements are printed with `depth` levels of nesting left.
     */
    method ToString(depth: nat) returns (s: Option<string>)
      ensures s == ValueText(Arr(this), depth + 1)
    {
      var text := "";
      var i := 0;
      while i < |elements|
        invariant 0 <= i <= |elements|
        invariant ElementsText(elements[..i], depth) == Some(text)
      {
        var t := ValueText(elements[i], depth);
        assert elements[..i + 1][..i] == elements[..i];
        assert elements[..i + 1][i] == elements[i];
        if t.None? {
          ElementsTextNone(elements, i, depth);
          return None;
        }
        ghost var vs := elements[..i + 1];
        assert |vs| == i + 1 && vs[..|vs| - 1] == elements[..i] && vs[|vs| - 1] == elements[i];
        if i > 0 {
          text := text + ", ";
        }
        text := text + t.value;
        assert ElementsText(vs[..|vs| - 1], depth) == ElementsText(elements[..i], depth);
        assert ValueText(vs[|vs| - 1], depth) == t;
        if i == 0 {
          assert text == t.value;
          assert ElementsText(vs, depth) == Some(text);
        } else {
          assert ElementsText(vs, depth) == Some(text);
        }
        i := i + 1;
      }
      assert elements[..i] == elements;
      s := Some("[" + text + "]");
    }
  }
}

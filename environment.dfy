// The scope chain of src/environment.cpp. Each Environment owns a map of
// names to values and points to the scope that encloses it; the chain is
// fixed when a scope is made, while the maps change in place.
module Environments {
  import opened Wrappers
  import opened Values

  type Scope = map<string, Value>

  /** The message of the runtime_error for a name bound in no scope. */
  function Undefined(name: string): string
  {
    "Undefined variable: " + name
  }

  // The chain as a sequence of maps, innermost first.

  /** The walk of get(): the binding in the first scope that has the name. */
  function Lookup(scopes: seq<Scope>, name: string): Result<Value>
  {
    if scopes == [] then Fail(Undefined(name))
    else if name in scopes[0] then Ok(scopes[0][name])
    else Lookup(scopes[1..], name)
  }

  /** Some scope of the chain binds the name. */
  predicate Bound(scopes: seq<Scope>, name: string)
  {
    exists i :: 0 <= i < |scopes| && name in scopes[i]
  }

  /** The position of the innermost scope binding the name. */
  function Nearest(scopes: seq<Scope>, name: string): (i: nat)
    requires Bound(scopes, name)
    ensures i < |scopes| && name in scopes[i]
    ensures forall j :: 0 <= j < i ==> name !in scopes[j]
  {
    if name in scopes[0] then 0
    else
      assert Bound(scopes[1..], name) by {
        var i :| 0 <= i < |scopes| && name in scopes[i];
        assert scopes[1..][i - 1] == scopes[i];
      }
      1 + Nearest(scopes[1..], name)
  }

  /** The walk of assign(): the nearest scope holding the name takes the value. */
  function Assigned(scopes: seq<Scope>, name: string, v: Value): Option<seq<Scope>>
  {
    if scopes == [] then None
    else if name in scopes[0] then Some([scopes[0][name := v]] + scopes[1..])
    else
      var rest := Assigned(scopes[1..], name, v);
      if rest.None? then None else Some([scopes[0]] + rest.value)
  }

  /** define(): the innermost scope takes the binding, old or new. */
  function Defined(scopes: seq<Scope>, name: string, v: Value): seq<Scope>
    requires scopes != []
  {
    [scopes[0][name := v]] + scopes[1..]
  }

  /** get succeeds exactly for a bound name, and fails with "Undefined variable: <name>" otherwise. */
  lemma LookupOkIffBound(scopes: seq<Scope>, name: string)
    ensures Lookup(scopes, name).Ok? <==> Bound(scopes, name)
    ensures !Bound(scopes, name) ==> Lookup(scopes, name) == Fail(Undefined(name))
  {
    LookupFindsNearest(scopes, name);
  }

  /**
   * get succeeds exactly for a name bound somewhere, with the value from
   * the innermost scope binding it: inner definitions shadow outer ones.
   * Otherwise it fails with "Undefined variable: <name>".
   */
  lemma {:induction false} LookupFindsNearest(scopes: seq<Scope>, name: string)
    ensures Lookup(scopes, name).Ok? <==> Bound(scopes, name)
    ensures Bound(scopes, name) ==> Lookup(scopes, name) == Ok(scopes[Nearest(scopes, name)][name])
    ensures !Bound(scopes, name) ==> Lookup(scopes, name) == Fail(Undefined(name))
  {
    if scopes != [] && name !in scopes[0] {
      LookupFindsNearest(scopes[1..], name);
      if Bound(scopes[1..], name) {
        var i :| 0 <= i < |scopes| - 1 && name in scopes[1..][i];
        assert name in scopes[i + 1];
      }
      if Bound(scopes, name) {
        var i :| 0 <= i < |scopes| && name in scopes[i];
        assert scopes[1..][i - 1] == scopes[i];
      }
    }
  }

  /**
   * assign succeeds exactly for a bound name. It changes only the nearest
   * scope holding the name, and only that name there; it never adds a
   * binding; and it fails on an unbound name.
   */
  lemma {:induction false} AssignedChangesNearest(scopes: seq<Scope>, name: string, v: Value)
    ensures Assigned(scopes, name, v).Some? <==> Bound(scopes, name)
    ensures Bound(scopes, name) ==>
      var r := Assigned(scopes, name, v).value;
      var i := Nearest(scopes, name);
      |r| == |scopes| && r[i] == scopes[i][name := v] &&
      forall j :: 0 <= j < |scopes| && j != i ==> r[j] == scopes[j]
  {
    if scopes != [] && name !in scopes[0] {
      AssignedChangesNearest(scopes[1..], name, v);
      BoundCons(scopes[0], scopes[1..], name);
      assert scopes == [scopes[0]] + scopes[1..];
      if Bound(scopes, name) {
        var rest := Assigned(scopes[1..], name, v).value;
        assert Nearest(scopes, name) == 1 + Nearest(scopes[1..], name);
        ConsKeepsOthers(scopes[0], scopes[1..], rest, Nearest(scopes[1..], name));
      }
    }
  }

  /** Putting the same scope in front of two chains keeps every position where they agree. */
  lemma ConsKeepsOthers(first: Scope, rest: seq<Scope>, changed: seq<Scope>, i: nat)
    requires |changed| == |rest| && i < |rest|
    requires forall j :: 0 <= j < |rest| && j != i ==> changed[j] == rest[j]
    ensures forall j :: 0 <= j < |rest| + 1 && j != i + 1 ==> ([first] + changed)[j] == ([first] + rest)[j]
  {
    forall j | 0 <= j < |rest| + 1 && j != i + 1
      ensures ([first] + changed)[j] == ([first] + rest)[j]
    {
      if j > 0 {
        assert ([first] + changed)[j] == changed[j - 1];
        assert ([first] + rest)[j] == rest[j - 1];
      }
    }
  }

  /** After a successful assign, get of that name gives the new value. */
  lemma AssignThenLookup(scopes: seq<Scope>, name: string, v: Value)
    requires Bound(scopes, name)
    ensures Assigned(scopes, name, v).Some?
    ensures Lookup(Assigned(scopes, name, v).value, name) == Ok(v)
  {
    AssignedChangesNearest(scopes, name, v);
    var r := Assigned(scopes, name, v).value;
    var i := Nearest(scopes, name);
    assert Bound(r, name) by { assert name in r[i]; }
    LookupFindsNearest(r, name);
    assert Nearest(r, name) == i by {
      forall j | 0 <= j < i ensures name !in r[j] { assert r[j] == scopes[j]; }
      NearestIsFirst(r, name, i);
    }
  }

  /** The innermost scope holding a name is the only one with no holder before it. */
  lemma NearestIsFirst(scopes: seq<Scope>, name: string, i: nat)
    requires i < |scopes| && name in scopes[i]
    requires forall j :: 0 <= j < i ==> name !in scopes[j]
    ensures Bound(scopes, name) && Nearest(scopes, name) == i
  {
    var n := Nearest(scopes, name);
    assert name in scopes[n];
  }

  /** After define(n, v), get(n) is v and every other name looks up as before. */
  lemma DefineThenLookup(scopes: seq<Scope>, name: string, v: Value, other: string)
    requires scopes != [] && other != name
    ensures Lookup(Defined(scopes, name, v), name) == Ok(v)
    ensures Lookup(Defined(scopes, name, v), other) == Lookup(scopes, other)
  {
    assert Defined(scopes, name, v)[1..] == scopes[1..];
  }

  /** Assigning to an unbound name changes nothing. */
  lemma UnboundAssignFails(scopes: seq<Scope>, name: string, v: Value)
    requires !Bound(scopes, name)
    ensures Assigned(scopes, name, v) == None
  {
    AssignedChangesNearest(scopes, name, v);
  }

  /** A name is bound in a chain when the first scope or a later one binds it. */
  lemma BoundCons(first: Scope, rest: seq<Scope>, name: string)
    ensures Bound([first] + rest, name) <==> name in first || Bound(rest, name)
  {
    var s := [first] + rest;
    if name in first {
      assert s[0] == first;
    }
    if Bound(rest, name) {
      var i :| 0 <= i < |rest| && name in rest[i];
      assert s[i + 1] == rest[i];
    }
    if Bound(s, name) && name !in first {
      var i :| 0 <= i < |s| && name in s[i];
      assert rest[i - 1] == s[i];
    }
  }

  class Environment {
    var values: Scope
    const enclosing: Environment?
    /** This scope and every scope enclosing it. */
    ghost const Repr: set<Environment>

    ghost predicate Valid()
      decreases Repr
    {
      this in Repr &&
      (enclosing == null ==> Repr == {this}) &&
      (enclosing != null ==>
        enclosing in Repr && this !in enclosing.Repr && Repr == {this} + enclosing.Repr && enclosing.Valid())
    }

    /** The maps of the chain, this scope first. */
    ghost function Scopes(): (s: seq<Scope>)
      requires Valid()
      reads Repr
      ensures s != [] && s[0] == values
      decreases Repr
    {
      [values] + (if enclosing == null then [] else enclosing.Scopes())
    }

    /** Environment(): a scope with nothing around it. */
    constructor Global()
      ensures Valid() && enclosing == null && Scopes() == [map[]]
    {
      values := map[];
      enclosing := null;
      Repr := {this};
    }

    /** Environment(enclosing): an empty scope inside another. */
    constructor Enclosed(enclosing: Environment)
      requires enclosing.Valid()
      ensures Valid() && this.enclosing == enclosing && Repr == {this} + enclosing.Repr
      ensures Scopes() == [map[]] + enclosing.Scopes()
    {
      values := map[];
      this.enclosing := enclosing;
      Repr := {this} + enclosing.Repr;
    }

    /** define(name, v): binds in this scope only, replacing any binding there. */
    method Define(name: string, v: Value)
      requires Valid()
      modifies this
      ensures values == old(values)[name := v]
      ensures Scopes() == Defined(old(Scopes()), name, v)
    {
      values := values[name := v];
    }

    /** get(name): the innermost binding walking outward, or the undefined-variable error. */
    function Get(name: string): (r: Result<Value>)
      requires Valid()
      reads Repr
      ensures r == Lookup(Scopes(), name)
      decreases Repr
    {
      if name in values then Ok(values[name])
      else if enclosing != null then enclosing.Get(name)
      else Fail(Undefined(name))
    }

    /** exists(name): some scope of the chain binds the name. */
    predicate Exists(name: string)
      requires Valid()
      reads Repr
      ensures Exists(name) <==> Bound(Scopes(), name)
      decreases Repr
    {
      BoundCons(values, if enclosing == null then [] else enclosing.Scopes(), name);
      name in values || (enclosing != null && enclosing.Exists(name))
    }

    /**
     * assign(name, v): updates the nearest scope holding the name; when no
     * scope does, throws "Undefined variable: <name>" without changing
     * anything.
     */
    method Assign(name: string, v: Value) returns (r: Result<()>)
      requires Valid()
      modifies Repr
      ensures r.Ok? <==> Bound(old(Scopes()), name)
      ensures r.Ok? ==> Assigned(old(Scopes()), name, v) == Some(Scopes())
      ensures r.Fail? ==> r.error == Undefined(name) && Scopes() == old(Scopes())
      decreases Repr
    {
      ghost var rest := if enclosing == null then [] else enclosing.Scopes();
      assert Scopes() == [values] + rest && Scopes()[1..] == rest;
      BoundCons(values, rest, name);
      if name in values {
        values := values[name := v];
        assert rest == if enclosing == null then [] else enclosing.Scopes();
        return Ok(());
      }
      if enclosing == null {
        return Fail(Undefined(name));
      }
      r := enclosing.Assign(name, v);
      assert ([values] + enclosing.Scopes())[1..] == enclosing.Scopes();
    }
  }
}

/**
 * The scope stack (EggEnvironment.cs; Interpreter.Variables.cs keeps a static
 * copy of the same stack with the same three variable operations).  The
 * functions below describe the operations on the stack's contents, innermost
 * scope first; the class `EggEnvironment` holds the scope objects and is
 * proved to follow them.
 */
module Environments {
  import opened Errors
  import opened Values
  import opened Variables
  import opened Scopes

  /** The contents of a scope stack, the innermost (most recently pushed) scope first. */
  type Stack = seq<Table>

  /** What the runtime's stack reports when it is read or popped while empty. */
  const StackEmpty: Error := SystemError("Stack empty.")

  /** Every scope of the stack is well typed. */
  predicate StackWellTyped(s: Stack) {
    forall k :: 0 <= k < |s| ==> WellTyped(s[k])
  }

  /** PushScope: a new empty scope on top. */
  function Push(s: Stack): (r: Stack)
    ensures |r| == |s| + 1 && r[0] == map[] && r[1..] == s
  {
    [map[]] + s
  }

  /** PopScope: the top scope is discarded. */
  function Pop(s: Stack): (r: Result<Stack>)
    ensures r.Ok? <==> s != []
  {
    if s == [] then Err(StackEmpty) else Ok(s[1..])
  }

  /** AddVariable: declares in the top scope only. */
  function DeclareTop(s: Stack, name: string, t: DataType, constant: bool): Result<Stack> {
    if s == [] then Err(StackEmpty)
    else
      match Declare(s[0], name, t, constant)
      case Err(e) => Err(e)
      case Ok(m) => Ok(s[0 := m])
  }

  /** GetVariable: the data of the first scope, innermost outward, where the
      name is declared and initialised. */
  function Get(s: Stack, name: string): Result<Value>
    decreases |s|
  {
    if s == [] then Err(NotDeclared(name))
    else
      match Lookup(s[0], name)
      case Some(v) => Ok(v)
      case None => Get(s[1..], name)
  }

  /** ModifyVariable: assigns in the first scope, innermost outward, where the
      name is declared, initialised or not. */
  function Modify(s: Stack, name: string, data: Value, init: bool): (r: Result<Stack>)
    ensures r.Ok? ==> |r.value| == |s|
    decreases |s|
  {
    if s == [] then Err(NotDeclared(name))
    else if name in s[0] then
      match Assign(s[0], name, data, init)
      case Err(e) => Err(e)
      case Ok(m) => Ok(s[0 := m])
    else
      match Modify(s[1..], name, data, init)
      case Err(e) => Err(e)
      case Ok(t) => Ok([s[0]] + t)
  }

  // ---------------------------------------------------------------------------
  // Properties of the stack operations
  // ---------------------------------------------------------------------------

  /** GetVariable answers with the first scope, counting from the innermost,
      that holds data for the name; scopes where the name is declared but has
      no data are passed over. */
  lemma {:induction false} GetFinds(s: Stack, name: string, k: nat)
    requires k < |s| && Lookup(s[k], name).Some?
    requires forall j :: 0 <= j < k ==> Lookup(s[j], name) == None
    ensures Get(s, name) == Ok(Lookup(s[k], name).value)
    decreases k
  {
    if k > 0 {
      assert forall j :: 0 <= j < k - 1 ==> s[1..][j] == s[j + 1];
      GetFinds(s[1..], name, k - 1);
    }
  }

  /** GetVariable fails exactly when no scope holds data for the name, and
      then it reports the name as not declared. */
  lemma {:induction false} GetFails(s: Stack, name: string)
    ensures Get(s, name).Err? <==> forall k :: 0 <= k < |s| ==> Lookup(s[k], name) == None
    ensures Get(s, name).Err? ==> Get(s, name).error == NotDeclared(name)
    decreases |s|
  {
    if s != [] {
      GetFails(s[1..], name);
      assert forall k :: 1 <= k < |s| ==> s[k] == s[1..][k - 1];
    }
  }

  /** ModifyVariable assigns in the innermost scope that declares the name,
      whether or not the variable there has data, and no other scope changes. */
  lemma {:induction false} ModifyFinds(s: Stack, name: string, data: Value, init: bool, k: nat)
    requires k < |s| && name in s[k]
    requires forall j :: 0 <= j < k ==> name !in s[j]
    ensures Modify(s, name, data, init) ==
      match Assign(s[k], name, data, init)
      case Err(e) => Err(e)
      case Ok(m) => Ok(s[k := m])
    decreases k
  {
    if k > 0 {
      assert forall j :: 0 <= j < k - 1 ==> s[1..][j] == s[j + 1];
      ModifyFinds(s[1..], name, data, init, k - 1);
      match Assign(s[k], name, data, init)
      case Err(_) =>
      case Ok(m) =>
        assert [s[0]] + s[1..][k - 1 := m] == s[k := m];
    }
  }

  /** ModifyVariable of a name no scope declares reports it as not declared. */
  lemma {:induction false} ModifyFails(s: Stack, name: string, data: Value, init: bool)
    requires forall k :: 0 <= k < |s| ==> name !in s[k]
    ensures Modify(s, name, data, init) == Err(NotDeclared(name))
    decreases |s|
  {
    if s != [] {
      assert forall k :: 0 <= k < |s| - 1 ==> s[1..][k] == s[k + 1];
      ModifyFails(s[1..], name, data, init);
    }
  }

  /** After a successful ModifyVariable, GetVariable of that name returns
      the data just assigned, and every scope is still well typed. */
  lemma {:induction false} ModifyThenGet(s: Stack, name: string, data: Value, init: bool)
    requires Modify(s, name, data, init).Ok?
    ensures Get(Modify(s, name, data, init).value, name) == Ok(data)
    ensures StackWellTyped(s) ==> StackWellTyped(Modify(s, name, data, init).value)
    decreases |s|
  {
    var s' := Modify(s, name, data, init).value;
    if name in s[0] {
      AssignSpec(s[0], name, data, init);
    } else {
      var t := Modify(s[1..], name, data, init).value;
      ModifyThenGet(s[1..], name, data, init);
      assert s' == [s[0]] + t && s'[1..] == t;
      if StackWellTyped(s) {
        assert StackWellTyped(s[1..]) by {
          forall k | 0 <= k < |s| - 1 ensures WellTyped(s[1..][k]) {
            assert s[1..][k] == s[k + 1];
          }
        }
        forall k | 0 <= k < |s'| ensures WellTyped(s'[k]) {
          if k > 0 {
            assert s'[k] == t[k - 1];
          }
        }
      }
    }
  }

  /** Declaring in a pushed scope and popping it leaves the stack as before:
      the name is visible while its scope is on the stack and not afterwards. */
  lemma PushDeclarePop(s: Stack, name: string, t: DataType, constant: bool, data: Value)
    requires TypeOf(data) == t
    ensures DeclareTop(Push(s), name, t, constant).Ok?
    ensures var inner := DeclareTop(Push(s), name, t, constant).value;
      && Modify(inner, name, data, true).Ok?
      && Get(Modify(inner, name, data, true).value, name) == Ok(data)
      && Pop(Modify(inner, name, data, true).value) == Ok(s)
  {
    var inner := DeclareTop(Push(s), name, t, constant).value;
    assert inner == [map[name := VarState(t, constant, None)]] + s;
    var m := map[name := VarState(t, constant, None)];
    assert m[name := m[name].(data := Some(data))] == map[name := VarState(t, constant, Some(data))];
    assert Assign(m, name, data, true) == Ok(map[name := VarState(t, constant, Some(data))]);
    var after := Modify(inner, name, data, true).value;
    assert after == [map[name := VarState(t, constant, Some(data))]] + s;
  }

  /** An inner declaration without data hides nothing from GetVariable, which
      still finds the outer variable's data, while ModifyVariable would
      assign the inner variable. */
  lemma UninitializedShadow(outer: Table, name: string, t: DataType, constant: bool, data: Value)
    requires Lookup(outer, name) == Some(data)
    ensures var s := DeclareTop(Push([outer]), name, t, constant).value;
      && Get(s, name) == Ok(data)
      && (TypeOf(data) == t ==> Modify(s, name, data, true) == Ok([s[0][name := VarState(t, constant, Some(data))], outer]))
  {
    var s := DeclareTop(Push([outer]), name, t, constant).value;
    assert s == [map[name := VarState(t, constant, None)], outer];
    GetFinds(s, name, 1);
    if TypeOf(data) == t {
      var m := s[0][name := VarState(t, constant, Some(data))];
      assert Assign(s[0], name, data, true) == Ok(m);
      assert s[0 := m] == [m, outer];
    }
  }

  // ---------------------------------------------------------------------------
  // The environment object
  // ---------------------------------------------------------------------------

  class EggEnvironment {
    /** The scope objects, the top of the stack first. */
    var scopes: seq<Scope>
    /** The tables of the scopes, in the same order. */
    ghost var model: Stack
    ghost var Repr: set<object>

    /** The scopes are distinct valid objects and the model is their tables. */
    ghost predicate Valid()
      reads this, Repr
    {
      && this in Repr
      && |model| == |scopes|
      && (forall k :: 0 <= k < |scopes| ==> scopes[k] in Repr)
      && (forall k :: 0 <= k < |scopes| ==> scopes[k].Valid() && model[k] == scopes[k].variables)
      && (forall k, l :: 0 <= k < l < |scopes| ==> scopes[k] != scopes[l])
    }

    constructor()
      ensures Valid() && fresh(Repr) && model == []
    {
      scopes := [];
      model := [];
      Repr := {this};
    }

    /** PushScope. */
    method PushScope()
      requires Valid()
      modifies this
      ensures Valid() && fresh(Repr - old(Repr))
      ensures model == Push(old(model))
    {
      var scope := new Scope();
      scopes := [scope] + scopes;
      model := Push(model);
      Repr := Repr + {scope};
    }

    /** PopScope. */
    method PopScope() returns (outcome: Outcome)
      requires Valid()
      modifies this
      ensures Valid() && Repr == old(Repr)
      ensures Pop(old(model)) == if outcome.Pass? then Ok(model) else Err(outcome.error)
      ensures outcome.Fail? ==> model == old(model)
    {
      if scopes == [] {
        return Fail(StackEmpty);
      }
      scopes := scopes[1..];
      model := model[1..];
      outcome := Pass;
    }

    /** AddVariable: declares in the top scope, which must exist. */
    method AddVariable(name: string, t: DataType, constant: bool) returns (outcome: Outcome)
      requires Valid()
      modifies Repr
      ensures Valid() && Repr == old(Repr)
      ensures DeclareTop(old(model), name, t, constant) == if outcome.Pass? then Ok(model) else Err(outcome.error)
      ensures outcome.Fail? ==> model == old(model)
    {
      if scopes == [] {
        return Fail(StackEmpty);
      }
      var top := scopes[0];
      outcome := top.AddVariable(name, t, constant);
      model := model[0 := top.variables];
    }

    /** GetVariable: searches the scopes from the innermost outward. */
    method GetVariable(name: string) returns (r: Result<Value>)
      requires Valid()
      ensures r == Get(model, name)
    {
      var k := 0;
      while k < |scopes|
        invariant 0 <= k <= |scopes|
        invariant Get(model, name) == Get(model[k..], name)
      {
        var found, data := scopes[k].TryGetVariable(name);
        assert model[k..][1..] == model[k + 1..];
        if found {
          return Ok(data.value);
        }
        k := k + 1;
      }
      r := Err(NotDeclared(name));
    }

    /** ModifyVariable: assigns in the innermost scope that declares the name. */
    method ModifyVariable(name: string, data: Value, init: bool) returns (r: Result<Value>)
      requires Valid()
      modifies Repr
      ensures Valid() && Repr == old(Repr)
      ensures Modify(old(model), name, data, init) == if r.Ok? then Ok(model) else Err(r.error)
      ensures r.Err? ==> model == old(model)
      ensures r.Ok? ==> r.value == data
    {
      var k := 0;
      while k < |scopes|
        invariant 0 <= k <= |scopes| && Valid()
        invariant scopes == old(scopes) && model == old(model) && Repr == old(Repr)
        invariant forall j :: 0 <= j < k ==> name !in model[j]
      {
        var contains := scopes[k].ContainsVariable(name);
        if contains {
          ModifyFinds(model, name, data, init, k);
          var scope := scopes[k];
          r := scope.ModifyVariable(name, data, init);
          model := model[k := scope.variables];
          return;
        }
        k := k + 1;
      }
      ModifyFails(model, name, data, init);
      r := Err(NotDeclared(name));
    }
  }
}

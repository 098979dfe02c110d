/**
 * A scope (Scope.cs): a table from names to variables.  The functions
 * `Declare`, `Lookup` and `Assign` describe its operations on the table;
 * the class `Scope` updates its table in place and is proved to follow them.
 */
module Scopes {
  import opened Errors
  import opened Values
  import opened Variables

  /** The contents of a scope: each declared name and what its variable holds. */
  type Table = map<string, VarState>

  /** Every variable in the table holds data of its own type. */
  predicate WellTyped(m: Table) {
    forall n :: n in m ==> m[n].WellTyped()
  }

  function AlreadyDeclared(name: string): Error {
    RuntimeError("Variable " + name + " was already declared in this scope")
  }

  function NotDeclared(name: string): Error {
    RuntimeError("Variable " + name + " was not declared in this scope")
  }

  function ConstantModified(name: string): Error {
    RuntimeError("Cannot modify constant variable " + name)
  }

  function TypeChanged(name: string, from: DataType, to: DataType): Error {
    RuntimeError("Cannot change variable " + name + "'s type (tried to change " + TypeName(from) + " to " + TypeName(to) + ")")
  }

  /** AddVariable: a fresh name gets a variable without data; a name already
      declared in this scope is an error. */
  function Declare(m: Table, name: string, t: DataType, constant: bool): Result<Table> {
    if name in m then Err(AlreadyDeclared(name)) else Ok(m[name := VarState(t, constant, None)])
  }

  /** TryGetVariable: the data of a declared and initialised variable. */
  function Lookup(m: Table, name: string): Option<Value> {
    if name in m && m[name].Initialized() then m[name].data else None
  }

  /** ModifyVariable: the checks in order (declared, then constness unless
      this is an initialisation, then type), then the new data. */
  function Assign(m: Table, name: string, data: Value, init: bool): Result<Table> {
    if name !in m then Err(NotDeclared(name))
    else if !init && m[name].constant then Err(ConstantModified(name))
    else if m[name].dataType != TypeOf(data) then Err(TypeChanged(name, m[name].dataType, TypeOf(data)))
    else Ok(m[name := m[name].(data := Some(data))])
  }

  // ---------------------------------------------------------------------------
  // Properties of the table operations
  // ---------------------------------------------------------------------------

  /** Declaring succeeds exactly for a new name; it adds one variable without
      data, of the given type and constness, and touches nothing else. */
  lemma DeclareSpec(m: Table, name: string, t: DataType, constant: bool)
    ensures Declare(m, name, t, constant).Ok? <==> name !in m
    ensures Declare(m, name, t, constant).Err? ==> Declare(m, name, t, constant).error == AlreadyDeclared(name)
    ensures Declare(m, name, t, constant).Ok? ==>
      var m' := Declare(m, name, t, constant).value;
      && m'.Keys == m.Keys + {name}
      && m'[name] == VarState(t, constant, None)
      && Lookup(m', name) == None
      && (forall n :: n in m && n != name ==> m'[n] == m[n])
      && (WellTyped(m) ==> WellTyped(m'))
  {
  }

  /** Looking up finds data exactly for a declared, initialised name. */
  lemma LookupSpec(m: Table, name: string)
    ensures Lookup(m, name).Some? <==> name in m && m[name].data.Some?
    ensures Lookup(m, name).Some? ==> WellTyped(m) ==> TypeOf(Lookup(m, name).value) == m[name].dataType
  {
  }

  /** Assigning succeeds exactly when the name is declared, the variable is
      not a constant (unless this is its initialisation) and the data has its
      type.  Then the variable holds the data and nothing else changes; in
      particular no variable changes its type or constness. */
  lemma AssignSpec(m: Table, name: string, data: Value, init: bool)
    ensures Assign(m, name, data, init).Ok? <==>
      name in m && (init || !m[name].constant) && m[name].dataType == TypeOf(data)
    ensures Assign(m, name, data, init).Ok? ==>
      var m' := Assign(m, name, data, init).value;
      && m'.Keys == m.Keys
      && Lookup(m', name) == Some(data)
      && m'[name].dataType == m[name].dataType && m'[name].constant == m[name].constant
      && (forall n :: n in m && n != name ==> m'[n] == m[n])
      && (WellTyped(m) ==> WellTyped(m'))
  {
  }

  /** The error each failed check reports. */
  lemma AssignErrors(m: Table, name: string, data: Value, init: bool)
    ensures name !in m ==> Assign(m, name, data, init) == Err(NotDeclared(name))
    ensures name in m && !init && m[name].constant ==> Assign(m, name, data, init) == Err(ConstantModified(name))
    ensures name in m && (init || !m[name].constant) && m[name].dataType != TypeOf(data) ==>
      Assign(m, name, data, init) == Err(TypeChanged(name, m[name].dataType, TypeOf(data)))
  {
  }

  /** A constant can be initialised, after which every plain assignment fails
      and leaves the table as it was. */
  lemma ConstantInitialisedOnce(m: Table, name: string, first: Value, second: Value)
    requires name in m && m[name].constant && m[name].dataType == TypeOf(first)
    ensures Assign(m, name, first, true).Ok?
    ensures Assign(Assign(m, name, first, true).value, name, second, false) == Err(ConstantModified(name))
    ensures Lookup(Assign(m, name, first, true).value, name) == Some(first)
  {
  }

  // ---------------------------------------------------------------------------
  // The scope object
  // ---------------------------------------------------------------------------

  class Scope {
    /** The declared variables.  No reference to a variable ever leaves its
        scope, so each is held here by value. */
    var variables: Table

    /** Every variable holds data of its own type. */
    ghost predicate Valid()
      reads this
    {
      WellTyped(variables)
    }

    constructor()
      ensures Valid() && variables == map[]
    {
      variables := map[];
    }

    /** ContainsVariable. */
    method ContainsVariable(name: string) returns (b: bool)
      ensures b <==> name in variables
    {
      b := name in variables;
    }

    /** AddVariable. */
    method AddVariable(name: string, t: DataType, constant: bool) returns (outcome: Outcome)
      requires Valid()
      modifies this
      ensures Valid()
      ensures Declare(old(variables), name, t, constant) == if outcome.Pass? then Ok(variables) else Err(outcome.error)
      ensures outcome.Fail? ==> variables == old(variables)
    {
      var v := VarState(t, constant, None);
      if name in variables {
        return Fail(AlreadyDeclared(name));
      }
      variables := variables[name := v];
      outcome := Pass;
    }

    /** TryGetVariable: found exactly for a declared, initialised name; the
        data is what the variable holds, if it is declared. */
    method TryGetVariable(name: string) returns (found: bool, data: Option<Value>)
      requires Valid()
      ensures found <==> Lookup(variables, name).Some?
      ensures found ==> data == Lookup(variables, name) && TypeOf(data.value) == variables[name].dataType
      ensures data == if name in variables then variables[name].data else None
    {
      if name in variables {
        data := variables[name].data;
        found := data.Some?;
      } else {
        data := None;
        found := false;
      }
    }

    /** ModifyVariable. */
    method ModifyVariable(name: string, data: Value, init: bool) returns (r: Result<Value>)
      requires Valid()
      modifies this
      ensures Valid()
      ensures Assign(old(variables), name, data, init) == if r.Ok? then Ok(variables) else Err(r.error)
      ensures r.Err? ==> variables == old(variables)
      ensures r.Ok? ==> r.value == data
    {
      if name !in variables {
        return Err(NotDeclared(name));
      }
      var v := variables[name];
      if !init && v.constant {
        return Err(ConstantModified(name));
      }
      if v.dataType != TypeOf(data) {
        return Err(TypeChanged(name, v.dataType, TypeOf(data)));
      }
      variables := variables[name := v.(data := Some(data))];
      r := Ok(data);
    }
  }
}

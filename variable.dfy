/**
 * A variable (Variable.cs, and the shape Scope.cs constructs): a data type
 * and a constness fixed at declaration, and data that may be absent until
 * the variable is initialised.  Its data always has the variable's type.
 */
module Variables {
  import opened Errors
  import opened Values

  /** What a variable holds, as a value. */
  datatype VarState = VarState(dataType: DataType, constant: bool, data: Option<Value>)
  {
    /** The data, when present, has the declared type. */
    predicate WellTyped() {
      data.Some? ==> TypeOf(data.value) == dataType
    }

    predicate Initialized() {
      data.Some?
    }
  }

  const TypeChangeMessage: string := "Cannot change a variable's type"

  class Variable {
    /** The variable's type: it cannot change. */
    const dataType: DataType
    const constant: bool
    var data: Option<Value>

    ghost predicate Valid()
      reads this
    {
      State().WellTyped()
    }

    function State(): VarState
      reads this
    {
      VarState(dataType, constant, data)
    }

    /** `new(type, constant)`: a declared variable without data. */
    constructor(dataType: DataType, constant: bool)
      ensures Valid() && State() == VarState(dataType, constant, None)
    {
      this.dataType := dataType;
      this.constant := constant;
      data := None;
    }

    /** `new(data)`: a variable whose type is that of its initial data. */
    constructor FromData(initial: Value)
      ensures Valid() && State() == VarState(TypeOf(initial), false, Some(initial))
    {
      dataType := TypeOf(initial);
      constant := false;
      data := Some(initial);
    }

    /** The `Data` setter: data of the variable's type replaces what it held;
        data of another type is refused and nothing changes. */
    method SetData(v: Value) returns (outcome: Outcome)
      requires Valid()
      modifies this
      ensures Valid()
      ensures TypeOf(v) == dataType ==> outcome == Pass && data == Some(v)
      ensures TypeOf(v) != dataType ==> outcome == Fail(RuntimeError(TypeChangeMessage)) && data == old(data)
      ensures Set(old(State()), v) == if outcome.Pass? then Ok(State()) else Err(outcome.error)
    {
      if TypeOf(v) != dataType {
        return Fail(RuntimeError(TypeChangeMessage));
      }
      data := Some(v);
      outcome := Pass;
    }
  }

  /** The setter as a function of the state: the type check it performs. */
  function Set(s: VarState, v: Value): (r: Result<VarState>)
    ensures r.Ok? <==> TypeOf(v) == s.dataType
    ensures r.Ok? ==> r.value == s.(data := Some(v))
  {
    if TypeOf(v) != s.dataType then Err(RuntimeError(TypeChangeMessage)) else Ok(s.(data := Some(v)))
  }

  /** Applies the setter to each value in turn, stopping at the first refusal. */
  function SetAll(s: VarState, vs: seq<Value>): Result<VarState>
    decreases |vs|
  {
    if vs == [] then Ok(s)
    else
      match Set(s, vs[0])
      case Err(e) => Err(e)
      case Ok(t) => SetAll(t, vs[1..])
  }

  /** The type lock: after any sequence of successful sets the variable keeps
      its type and constness, holds the last value set, and is still well typed. */
  lemma {:induction false} TypeLocked(s: VarState, vs: seq<Value>)
    requires s.WellTyped()
    ensures SetAll(s, vs).Ok? ==>
      && SetAll(s, vs).value.dataType == s.dataType
      && SetAll(s, vs).value.constant == s.constant
      && SetAll(s, vs).value.WellTyped()
      && SetAll(s, vs).value.data == (if vs == [] then s.data else Some(vs[|vs| - 1]))
    ensures SetAll(s, vs).Ok? <==> forall k :: 0 <= k < |vs| ==> TypeOf(vs[k]) == s.dataType
    decreases |vs|
  {
    if vs != [] {
      if TypeOf(vs[0]) == s.dataType {
        var t := s.(data := Some(vs[0]));
        TypeLocked(t, vs[1..]);
        assert forall k :: 1 <= k < |vs| ==> vs[k] == vs[1..][k - 1];
        if |vs| > 1 {
          assert vs[1..][|vs[1..]| - 1] == vs[|vs| - 1];
        }
      }
    }
  }
}

/** The borrow state as the transfer functions see it: an object with one
    operation per borrow-safety rule. Its internals (the borrow graph, the
    status of every local, the join) are not part of this model. A
    `BorrowState` is modelled by the history of calls made on it since the
    initial state, and each call's result by an oracle over that history:
    whatever the real state answers is a function of where it started and of
    the calls made on it so far. */
module State {
  import opened Hlir

  /** An abstract value: a non-reference or a reference with an identity. */
  datatype Value = NonRef | Ref(id: nat) {
    predicate IsRef() { Ref? }
  }

  /** An opaque diagnostic. */
  type Diag = nat

  /** One call on the borrow state, with its arguments. */
  datatype Op =
    | MoveLocal(loc: Loc, v: Var, lastUsage: bool)
    | CopyLocal(loc: Loc, v: Var)
    | BorrowLocal(loc: Loc, isMut: bool, v: Var)
    | Freeze(loc: Loc, value: Value)
    | Dereference(loc: Loc, value: Value)
    | BorrowField(loc: Loc, isMut: bool, value: Value, f: Field)
    | BorrowGlobal(loc: Loc, isMut: bool, t: BaseType)
    | MoveFrom(loc: Loc, t: BaseType)
    | Call(loc: Loc, args: seq<Value>, acquires: map<StructName, Loc>, retTy: Ty)
    | Mutate(loc: Loc, value: Value)
    | AssignLocal(loc: Loc, v: Var, value: Value)
    | ReleaseValue(value: Value)
    | ReleaseValues(values: seq<Value>)
    | Return(loc: Loc, values: seq<Value>)
    | Abort
    | CanonicalizeLocals(localNumbers: map<Var, nat>)
  {
    /** The calls whose result includes diagnostics. */
    predicate ReportsDiags() {
      !(ReleaseValue? || ReleaseValues? || Abort? || CanonicalizeLocals?)
    }
  }

  /** What the borrow state answers to a call, given the calls made before it. */
  datatype Oracle = Oracle(
    diagsOf: (seq<Op>, Op) -> seq<Diag>,
    valueOf: (seq<Op>, Op) -> Value,
    valuesOf: (seq<Op>, Op) -> seq<Value>)

  /** The diagnostics a call returns after history `h`; none for the calls
      that return no diagnostics. */
  function Diags(o: Oracle, h: seq<Op>, op: Op): (ds: seq<Diag>)
    ensures !op.ReportsDiags() ==> ds == []
  {
    if op.ReportsDiags() then o.diagsOf(h, op) else []
  }

  /** The diagnostics reported by the calls `calls[from..]`, in order, each
      call answering after all the calls before it. */
  function Reported(o: Oracle, calls: seq<Op>, from: nat): seq<Diag>
    requires from <= |calls|
    decreases |calls|
  {
    if |calls| == from then []
    else Reported(o, calls[..|calls| - 1], from) + Diags(o, calls[..|calls| - 1], calls[|calls| - 1])
  }

  /** What a run of calls reports is what its first part reports, then what
      the rest reports. */
  lemma {:induction false} ReportedSplit(o: Oracle, calls: seq<Op>, i: nat, j: nat)
    requires i <= j <= |calls|
    ensures Reported(o, calls, i) == Reported(o, calls[..j], i) + Reported(o, calls, j)
    decreases |calls|
  {
    if j == |calls| {
      assert calls[..j] == calls;
    } else {
      var p := calls[..|calls| - 1];
      ReportedSplit(o, p, i, j);
      assert p[..j] == calls[..j];
    }
  }

  /** The borrow state of one function at one program point. */
  class BorrowState {
    /** The calls made on this state so far, oldest first. */
    var history: seq<Op>
    const oracle: Oracle

    constructor (initial: seq<Op>, oracle: Oracle)
      ensures history == initial && this.oracle == oracle
    {
      history := initial;
      this.oracle := oracle;
    }

    method MoveLocal(loc: Loc, v: Var, lastUsage: bool) returns (diags: seq<Diag>, result: Value)
      modifies this
      ensures history == old(history) + [Op.MoveLocal(loc, v, lastUsage)]
      ensures diags == Diags(oracle, old(history), Op.MoveLocal(loc, v, lastUsage))
      ensures result == oracle.valueOf(old(history), Op.MoveLocal(loc, v, lastUsage))
    {
      diags := Diags(oracle, history, Op.MoveLocal(loc, v, lastUsage));
      result := oracle.valueOf(history, Op.MoveLocal(loc, v, lastUsage));
      history := history + [Op.MoveLocal(loc, v, lastUsage)];
    }

    method CopyLocal(loc: Loc, v: Var) returns (diags: seq<Diag>, result: Value)
      modifies this
      ensures history == old(history) + [Op.CopyLocal(loc, v)]
      ensures diags == Diags(oracle, old(history), Op.CopyLocal(loc, v))
      ensures result == oracle.valueOf(old(history), Op.CopyLocal(loc, v))
    {
      diags := Diags(oracle, history, Op.CopyLocal(loc, v));
      result := oracle.valueOf(history, Op.CopyLocal(loc, v));
      history := history + [Op.CopyLocal(loc, v)];
    }

    method BorrowLocal(loc: Loc, isMut: bool, v: Var) returns (diags: seq<Diag>, result: Value)
      modifies this
      ensures history == old(history) + [Op.BorrowLocal(loc, isMut, v)]
      ensures diags == Diags(oracle, old(history), Op.BorrowLocal(loc, isMut, v))
      ensures result == oracle.valueOf(old(history), Op.BorrowLocal(loc, isMut, v))
    {
      diags := Diags(oracle, history, Op.BorrowLocal(loc, isMut, v));
      result := oracle.valueOf(history, Op.BorrowLocal(loc, isMut, v));
      history := history + [Op.BorrowLocal(loc, isMut, v)];
    }

    method Freeze(loc: Loc, value: Value) returns (diags: seq<Diag>, result: Value)
      modifies this
      ensures history == old(history) + [Op.Freeze(loc, value)]
      ensures diags == Diags(oracle, old(history), Op.Freeze(loc, value))
      ensures result == oracle.valueOf(old(history), Op.Freeze(loc, value))
    {
      diags := Diags(oracle, history, Op.Freeze(loc, value));
      result := oracle.valueOf(history, Op.Freeze(loc, value));
      history := history + [Op.Freeze(loc, value)];
    }

    method Dereference(loc: Loc, value: Value) returns (diags: seq<Diag>, result: Value)
      modifies this
      ensures history == old(history) + [Op.Dereference(loc, value)]
      ensures diags == Diags(oracle, old(history), Op.Dereference(loc, value))
      ensures result == oracle.valueOf(old(history), Op.Dereference(loc, value))
    {
      diags := Diags(oracle, history, Op.Dereference(loc, value));
      result := oracle.valueOf(history, Op.Dereference(loc, value));
      history := history + [Op.Dereference(loc, value)];
    }

    method BorrowField(loc: Loc, isMut: bool, value: Value, f: Field) returns (diags: seq<Diag>, result: Value)
      modifies this
      ensures history == old(history) + [Op.BorrowField(loc, isMut, value, f)]
      ensures diags == Diags(oracle, old(history), Op.BorrowField(loc, isMut, value, f))
      ensures result == oracle.valueOf(old(history), Op.BorrowField(loc, isMut, value, f))
    {
      diags := Diags(oracle, history, Op.BorrowField(loc, isMut, value, f));
      result := oracle.valueOf(history, Op.BorrowField(loc, isMut, value, f));
      history := history + [Op.BorrowField(loc, isMut, value, f)];
    }

    method BorrowGlobal(loc: Loc, isMut: bool, t: BaseType) returns (diags: seq<Diag>, result: Value)
      modifies this
      ensures history == old(history) + [Op.BorrowGlobal(loc, isMut, t)]
      ensures diags == Diags(oracle, old(history), Op.BorrowGlobal(loc, isMut, t))
      ensures result == oracle.valueOf(old(history), Op.BorrowGlobal(loc, isMut, t))
    {
      diags := Diags(oracle, history, Op.BorrowGlobal(loc, isMut, t));
      result := oracle.valueOf(history, Op.BorrowGlobal(loc, isMut, t));
      history := history + [Op.BorrowGlobal(loc, isMut, t)];
    }

    method MoveFrom(loc: Loc, t: BaseType) returns (diags: seq<Diag>, result: Value)
      modifies this
      ensures history == old(history) + [Op.MoveFrom(loc, t)]
      ensures diags == Diags(oracle, old(history), Op.MoveFrom(loc, t))
      ensures result == oracle.valueOf(old(history), Op.MoveFrom(loc, t))
    {
      diags := Diags(oracle, history, Op.MoveFrom(loc, t));
      result := oracle.valueOf(history, Op.MoveFrom(loc, t));
      history := history + [Op.MoveFrom(loc, t)];
    }

    method Call(loc: Loc, args: seq<Value>, acquires: map<StructName, Loc>, retTy: Ty) returns (diags: seq<Diag>, values: seq<Value>)
      modifies this
      ensures history == old(history) + [Op.Call(loc, args, acquires, retTy)]
      ensures diags == Diags(oracle, old(history), Op.Call(loc, args, acquires, retTy))
      ensures values == oracle.valuesOf(old(history), Op.Call(loc, args, acquires, retTy))
    {
      diags := Diags(oracle, history, Op.Call(loc, args, acquires, retTy));
      values := oracle.valuesOf(history, Op.Call(loc, args, acquires, retTy));
      history := history + [Op.Call(loc, args, acquires, retTy)];
    }

    method Mutate(loc: Loc, value: Value) returns (diags: seq<Diag>)
      modifies this
      ensures history == old(history) + [Op.Mutate(loc, value)]
      ensures diags == Diags(oracle, old(history), Op.Mutate(loc, value))
    {
      diags := Diags(oracle, history, Op.Mutate(loc, value));
      history := history + [Op.Mutate(loc, value)];
    }

    method AssignLocal(loc: Loc, v: Var, value: Value) returns (diags: seq<Diag>)
      modifies this
      ensures history == old(history) + [Op.AssignLocal(loc, v, value)]
      ensures diags == Diags(oracle, old(history), Op.AssignLocal(loc, v, value))
    {
      diags := Diags(oracle, history, Op.AssignLocal(loc, v, value));
      history := history + [Op.AssignLocal(loc, v, value)];
    }

    method ReleaseValue(value: Value)
      modifies this
      ensures history == old(history) + [Op.ReleaseValue(value)]
    {
      history := history + [Op.ReleaseValue(value)];
    }

    method ReleaseValues(values: seq<Value>)
      modifies this
      ensures history == old(history) + [Op.ReleaseValues(values)]
    {
      history := history + [Op.ReleaseValues(values)];
    }

    method Return(loc: Loc, values: seq<Value>) returns (diags: seq<Diag>)
      modifies this
      ensures history == old(history) + [Op.Return(loc, values)]
      ensures diags == Diags(oracle, old(history), Op.Return(loc, values))
    {
      diags := Diags(oracle, history, Op.Return(loc, values));
      history := history + [Op.Return(loc, values)];
    }

    method Abort()
      modifies this
      ensures history == old(history) + [Op.Abort]
    {
      history := history + [Op.Abort];
    }

    method CanonicalizeLocals(localNumbers: map<Var, nat>)
      modifies this
      ensures history == old(history) + [Op.CanonicalizeLocals(localNumbers)]
    {
      history := history + [Op.CanonicalizeLocals(localNumbers)];
    }
  }
}

/** The borrow checker's entry points and transfer functions: the numbering
    of locals, `execute` on one command, and the recursive walk over the
    command, its expressions and its left-hand sides, which threads a context
    holding the borrow state and the diagnostics collected so far. Each method
    is proved to make exactly the calls, keep exactly the diagnostics and
    yield exactly the values that the functions of module `Transfer` give. */
module Borrows {
  import opened Hlir
  import opened State
  import opened Transfer
  import opened Properties

  /** The number of every local: its position among the locals, given in the
      locals map's iteration order. The keys of a map are distinct. */
  method NumberLocals(locals: seq<Var>) returns (numbers: map<Var, nat>)
    requires forall i, j :: 0 <= i < j < |locals| ==> locals[i] != locals[j]
    ensures numbers.Keys == set i | 0 <= i < |locals| :: locals[i]
    ensures forall i :: 0 <= i < |locals| ==> locals[i] in numbers && numbers[locals[i]] == i
    ensures forall x :: x in numbers ==> numbers[x] < |locals|
    ensures forall x, y :: x in numbers && y in numbers && x != y ==> numbers[x] != numbers[y]
  {
    numbers := map[];
    for idx := 0 to |locals|
      invariant numbers.Keys == set i | 0 <= i < idx :: locals[i]
      invariant forall i :: 0 <= i < idx ==> locals[i] in numbers && numbers[locals[i]] == i
    {
      numbers := numbers[locals[idx] := idx];
    }
  }

  /** The analysis of one function: the numbering of its locals. */
  class BorrowSafety {
    const localNumbers: map<Var, nat>

    constructor (locals: seq<Var>)
      requires forall i, j :: 0 <= i < j < |locals| ==> locals[i] != locals[j]
      ensures forall i :: 0 <= i < |locals| ==> locals[i] in localNumbers && localNumbers[locals[i]] == i
      ensures localNumbers.Keys == set i | 0 <= i < |locals| :: locals[i]
    {
      var numbers := NumberLocals(locals);
      localNumbers := numbers;
    }

    /** The transfer function of one command: runs it on `pre`, then
        canonicalises the locals, and returns the diagnostics collected.
        Those are exactly the diagnostics the calls on `pre` reported, in
        order, and the canonicalisation is the one and only, and the last,
        call of its kind. */
    method Execute(pre: BorrowState, lbl: Label, idx: nat, cmd: Command) returns (diags: seq<Diag>)
      requires CommandSem(pre.oracle, Trace(pre.history, []), cmd).Done?
      modifies pre
      ensures pre.history
        == CommandSem(pre.oracle, Trace(old(pre.history), []), cmd).trace.calls + [Op.CanonicalizeLocals(localNumbers)]
      ensures diags == CommandSem(pre.oracle, Trace(old(pre.history), []), cmd).trace.diags
      ensures old(pre.history) < pre.history
      ensures pre.history[|pre.history| - 1] == Op.CanonicalizeLocals(localNumbers)
      ensures forall i :: |old(pre.history)| <= i < |pre.history| - 1 ==> !pre.history[i].CanonicalizeLocals?
      ensures diags == Reported(pre.oracle, pre.history, |old(pre.history)|)
    {
      ghost var t := Trace(pre.history, []);
      var context := new Context(this, pre);
      context.ExecCommand(cmd);
      CommandAccounts(pre.oracle, t, cmd);
      CommandNeverCanonicalizes(pre.oracle, t, cmd);
      ghost var calls := pre.history;
      context.borrowState.CanonicalizeLocals(context.localNumbers);
      diags := context.diags;
      assert pre.history[..|pre.history| - 1] == calls;
    }
  }

  /** What the walk over one command threads through: the numbering of
      locals, the borrow state it changes, and the diagnostics so far. */
  class Context {
    const localNumbers: map<Var, nat>
    const borrowState: BorrowState
    var diags: seq<Diag>

    constructor (safety: BorrowSafety, borrowState: BorrowState)
      ensures localNumbers == safety.localNumbers && this.borrowState == borrowState
      ensures diags == []
    {
      localNumbers := safety.localNumbers;
      this.borrowState := borrowState;
      diags := [];
    }

    /** The trace so far: the calls made on the borrow state and the
        diagnostics collected. */
    ghost function Now(): Trace
      reads this, borrowState
    {
      Trace(borrowState.history, diags)
    }

    method AddDiags(additional: seq<Diag>)
      modifies this
      ensures diags == old(diags) + additional
    {
      diags := diags + additional;
    }

    /** Function `command`. */
    method ExecCommand(c: Command)
      requires CommandSem(borrowState.oracle, Now(), c).Done?
      modifies this, borrowState
      ensures Now() == CommandSem(borrowState.oracle, old(Now()), c).trace
    {
      match c.command
      case Assign(ls, e) =>
        var values := EvalExp(e);
        AssignLValues(ls, values);
      case Mutate(el, er) =>
        var rvalues := EvalExp(er);
        assert |rvalues| == 1;
        var value := rvalues[0];
        assert !value.IsRef();
        var lvalues := EvalExp(el);
        assert |lvalues| == 1;
        var ds := borrowState.Mutate(c.loc, lvalues[0]);
        AddDiags(ds);
      case JumpIf(cond, _, _) =>
        var values := EvalExp(cond);
        assert |values| == 1 && !values[0].IsRef();
      case IgnoreAndPop(_, e) =>
        var values := EvalExp(e);
        borrowState.ReleaseValues(values);
      case Return(_, e) =>
        var values := EvalExp(e);
        var ds := borrowState.Return(c.loc, values);
        AddDiags(ds);
      case Abort(e) =>
        var values := EvalExp(e);
        assert |values| == 1 && !values[0].IsRef();
        borrowState.Abort();
      case Jump(_, _) =>
      case Break =>
        assert false;
      case Continue =>
        assert false;
    }

    /** Function `lvalues`: the i-th target receives the i-th value, as far
        as both go. */
    method AssignLValues(ls: seq<LValue>, values: seq<Value>)
      requires LValuesSem(borrowState.oracle, Now(), ls, values).Done?
      modifies this, borrowState
      ensures Now() == LValuesSem(borrowState.oracle, old(Now()), ls, values).trace
    {
      ghost var o, t := borrowState.oracle, Now();
      var n := Min(|ls|, |values|);
      for i := 0 to n
        invariant LValuesSem(o, t, ls[..i], values[..i]).Done?
        invariant Now() == LValuesSem(o, t, ls[..i], values[..i]).trace
      {
        LValuesPrefixDone(o, t, ls, values, i + 1);
        assert ls[..i + 1][..i] == ls[..i];
        assert values[..i + 1][..i] == values[..i];
        AssignLValue(ls[i], values[i]);
      }
      LValuesTruncate(o, t, ls, values);
    }

    /** Function `lvalue`. */
    method AssignLValue(l: LValue, value: Value)
      requires LValueSem(borrowState.oracle, Now(), l, value).Done?
      modifies this, borrowState
      ensures Now() == LValueSem(borrowState.oracle, old(Now()), l, value).trace
      decreases l
    {
      match l.lvalue
      case Ignore =>
        borrowState.ReleaseValue(value);
      case Var(v, _) =>
        var ds := borrowState.AssignLocal(l.loc, v, value);
        AddDiags(ds);
      case Unpack(_, _, fields) =>
        assert !value.IsRef();
        ghost var o, t := borrowState.oracle, Now();
        for i := 0 to |fields|
          invariant UnpackSem(o, t, fields[..i]).Done?
          invariant Now() == UnpackSem(o, t, fields[..i]).trace
        {
          UnpackPrefixDone(o, t, fields, i + 1);
          assert fields[..i + 1][..i] == fields[..i];
          AssignLValue(fields[i].target, NonRef);
        }
        assert fields[..|fields|] == fields;
    }

    /** Function `exp`: evaluates `e` and returns its abstract values. */
    method EvalExp(e: Exp) returns (values: seq<Value>)
      requires ExpSem(borrowState.oracle, Now(), e).Done?
      modifies this, borrowState
      ensures Now() == ExpSem(borrowState.oracle, old(Now()), e).trace
      ensures values == ExpSem(borrowState.oracle, old(Now()), e).values
      decreases e
    {
      match e.exp
      case Move(v, annotation) =>
        var lastUsage := annotation == InferredLastUsage;
        var ds, value := borrowState.MoveLocal(e.loc, v, lastUsage);
        AddDiags(ds);
        values := [value];
      case Copy(v, _) =>
        var ds, value := borrowState.CopyLocal(e.loc, v);
        AddDiags(ds);
        values := [value];
      case BorrowLocal(isMut, v) =>
        var ds, value := borrowState.BorrowLocal(e.loc, isMut, v);
        AddDiags(ds);
        assert value.IsRef();
        values := [value];
      case Freeze(inner) =>
        values := EvalFreeze(e, inner);
      case Dereference(inner) =>
        values := EvalDereference(e, inner);
      case Borrow(isMut, inner, f) =>
        values := EvalBorrowField(e, isMut, inner, f);
      case Builtin(b, arg) =>
        values := EvalBuiltin(e, b, arg);
      case Vector(_, n, _, inner) =>
        values := EvalVector(e, n, inner);
      case ModuleCall(mcall) =>
        values := EvalModuleCall(e, mcall);
      case Unit =>
        values := [];
      case Value(_) =>
        values := [NonRef];
      case Constant(_) =>
        values := [NonRef];
      case Spec(_) =>
        values := [NonRef];
      case UnresolvedError =>
        values := [NonRef];
      case Cast(inner, _) =>
        values := EvalNonRefOperand(e, inner);
      case UnaryExp(_, inner) =>
        values := EvalNonRefOperand(e, inner);
      case BinopExp(e1, bop, e2) =>
        values := EvalBinop(e, e1, bop, e2);
      case Pack(_, _, fields) =>
        values := EvalPack(e, fields);
      case ExpList(items) =>
        values := EvalExpList(e, items);
      case Unreachable =>
        assert false;
    }

    /** The `Freeze` arm of function `exp`. */
    method EvalFreeze(e: Exp, inner: Exp) returns (values: seq<Value>)
      requires e.exp.Freeze? && e.exp.inner == inner
      requires FreezeSem(borrowState.oracle, Now(), e, inner).Done?
      modifies this, borrowState
      ensures Now() == FreezeSem(borrowState.oracle, old(Now()), e, inner).trace
      ensures values == FreezeSem(borrowState.oracle, old(Now()), e, inner).values
      decreases e, 0
    {
      var evalues := EvalExp(inner);
      assert |evalues| == 1;
      var ds, value := borrowState.Freeze(e.loc, evalues[0]);
      AddDiags(ds);
      values := [value];
    }

    /** The `Dereference` arm of function `exp`. */
    method EvalDereference(e: Exp, inner: Exp) returns (values: seq<Value>)
      requires e.exp.Dereference? && e.exp.inner == inner
      requires DereferenceSem(borrowState.oracle, Now(), e, inner).Done?
      modifies this, borrowState
      ensures Now() == DereferenceSem(borrowState.oracle, old(Now()), e, inner).trace
      ensures values == DereferenceSem(borrowState.oracle, old(Now()), e, inner).values
      decreases e, 0
    {
      var evalues := EvalExp(inner);
      assert |evalues| == 1;
      var ds, value := borrowState.Dereference(e.loc, evalues[0]);
      AddDiags(ds);
      values := [value];
    }

    /** The field `Borrow` arm of function `exp`. */
    method EvalBorrowField(e: Exp, isMut: bool, inner: Exp, f: Field) returns (values: seq<Value>)
      requires e.exp == Borrow(isMut, inner, f)
      requires BorrowFieldSem(borrowState.oracle, Now(), e, isMut, inner, f).Done?
      modifies this, borrowState
      ensures Now() == BorrowFieldSem(borrowState.oracle, old(Now()), e, isMut, inner, f).trace
      ensures values == BorrowFieldSem(borrowState.oracle, old(Now()), e, isMut, inner, f).values
      decreases e, 0
    {
      var evalues := EvalExp(inner);
      assert |evalues| == 1;
      var ds, value := borrowState.BorrowField(e.loc, isMut, evalues[0], f);
      AddDiags(ds);
      values := [value];
    }

    /** The `Vector` arm of function `exp`: the elements must be non-references. */
    method EvalVector(e: Exp, n: nat, inner: Exp) returns (values: seq<Value>)
      requires e.exp.Vector? && e.exp.n == n && e.exp.inner == inner
      requires VectorSem(borrowState.oracle, Now(), e, n, inner).Done?
      modifies this, borrowState
      ensures Now() == VectorSem(borrowState.oracle, old(Now()), e, n, inner).trace
      ensures values == VectorSem(borrowState.oracle, old(Now()), e, n, inner).values
      decreases e, 0
    {
      var evalues := EvalExp(inner);
      assert n == |evalues|;
      assert forall i :: 0 <= i < |evalues| ==> !evalues[i].IsRef();
      values := [NonRef];
    }

    /** The `ModuleCall` arm of function `exp`: the call gets the callee's acquires. */
    method EvalModuleCall(e: Exp, mcall: ModuleCall) returns (values: seq<Value>)
      requires e.exp.ModuleCall? && e.exp.mcall == mcall
      requires ModuleCallSem(borrowState.oracle, Now(), e, mcall).Done?
      modifies this, borrowState
      ensures Now() == ModuleCallSem(borrowState.oracle, old(Now()), e, mcall).trace
      ensures values == ModuleCallSem(borrowState.oracle, old(Now()), e, mcall).values
      decreases e, 0
    {
      var evalues := EvalExp(mcall.arguments);
      var ds;
      ds, values := borrowState.Call(e.loc, evalues, mcall.acquires, e.ty);
      AddDiags(ds);
    }

    /** The `Cast` and `UnaryExp` arm of function `exp`: one non-reference operand. */
    method EvalNonRefOperand(e: Exp, inner: Exp) returns (values: seq<Value>)
      requires (e.exp.Cast? || e.exp.UnaryExp?) && e.exp.inner == inner
      requires NonRefOperandSem(borrowState.oracle, Now(), e, inner).Done?
      modifies this, borrowState
      ensures Now() == NonRefOperandSem(borrowState.oracle, old(Now()), e, inner).trace
      ensures values == NonRefOperandSem(borrowState.oracle, old(Now()), e, inner).values
      decreases e, 0
    {
      var v := EvalExp(inner);
      assert |v| == 1 && !v[0].IsRef();
      values := [NonRef];
    }

    /** The `Pack` arm of function `exp`: every field in order, each a single non-reference. */
    method EvalPack(e: Exp, fields: seq<PackField>) returns (values: seq<Value>)
      requires e.exp.Pack? && e.exp.fields == fields
      requires PackSem(borrowState.oracle, Now(), e, fields).Done?
      modifies this, borrowState
      ensures Now() == PackSem(borrowState.oracle, old(Now()), e, fields).trace
      ensures values == PackSem(borrowState.oracle, old(Now()), e, fields).values
      decreases e, 0
    {
      ghost var o, t := borrowState.oracle, Now();
      for i := 0 to |fields|
        invariant FieldsSem(o, t, fields[..i]).Done?
        invariant Now() == FieldsSem(o, t, fields[..i]).trace
      {
        FieldsPrefixDone(o, t, fields, i + 1);
        assert fields[..i + 1][..i] == fields[..i];
        var arg := EvalExp(fields[i].arg);
        assert |arg| == 1 && !arg[0].IsRef();
      }
      assert fields[..|fields|] == fields;
      values := [NonRef];
    }

    /** The `ExpList` arm of function `exp`: the items' values, concatenated in order. */
    method EvalExpList(e: Exp, items: seq<ExpListItem>) returns (values: seq<Value>)
      requires e.exp == ExpList(items)
      requires ItemsSem(borrowState.oracle, Now(), items).Done?
      modifies this, borrowState
      ensures Now() == ItemsSem(borrowState.oracle, old(Now()), items).trace
      ensures values == ItemsSem(borrowState.oracle, old(Now()), items).values
      decreases e, 0
    {
      ghost var o, t := borrowState.oracle, Now();
      values := [];
      for i := 0 to |items|
        invariant ItemsSem(o, t, items[..i]).Done?
        invariant Now() == ItemsSem(o, t, items[..i]).trace
        invariant values == ItemsSem(o, t, items[..i]).values
      {
        ItemsPrefixDone(o, t, items, i + 1);
        assert items[..i + 1][..i] == items[..i];
        var ivalues := EvalExpListItem(items[i]);
        values := values + ivalues;
      }
      assert items[..|items|] == items;
    }

    /** The `Builtin` arm of function `exp`; `e` is the builtin expression. */
    method EvalBuiltin(e: Exp, b: BuiltinFunction, arg: Exp) returns (values: seq<Value>)
      requires e.exp == Builtin(b, arg)
      requires BuiltinSem(borrowState.oracle, Now(), e, b, arg).Done?
      modifies this, borrowState
      ensures Now() == BuiltinSem(borrowState.oracle, old(Now()), e, b, arg).trace
      ensures values == BuiltinSem(borrowState.oracle, old(Now()), e, b, arg).values
      decreases e, 0
    {
      var evalues := EvalExp(arg);
      match b
      case BorrowGlobal(isMut, t) =>
        assert |evalues| == 1 && !evalues[0].IsRef();
        var ds, value := borrowState.BorrowGlobal(e.loc, isMut, t);
        AddDiags(ds);
        values := [value];
      case MoveFrom(t) =>
        assert |evalues| == 1 && !evalues[0].IsRef();
        var ds, value := borrowState.MoveFrom(e.loc, t);
        assert !value.IsRef();
        AddDiags(ds);
        values := [value];
      case _ =>
        var ds;
        ds, values := borrowState.Call(e.loc, evalues, map[], e.ty);
        AddDiags(ds);
    }

    /** The `BinopExp` arm of function `exp`; `e` is the binary expression. */
    method EvalBinop(e: Exp, e1: Exp, bop: BinOp, e2: Exp) returns (values: seq<Value>)
      requires e.exp == BinopExp(e1, bop, e2)
      requires BinopSem(borrowState.oracle, Now(), e, e1, bop, e2).Done?
      modifies this, borrowState
      ensures Now() == BinopSem(borrowState.oracle, old(Now()), e, e1, bop, e2).trace
      ensures values == BinopSem(borrowState.oracle, old(Now()), e, e1, bop, e2).values
      decreases e, 0
    {
      var v1s := EvalExp(e1);
      assert |v1s| == 1;
      var v2s := EvalExp(e2);
      assert |v2s| == 1;
      var v1, v2 := v1s[0], v2s[0];
      if bop == Eq || bop == Neq {
        // comparison is by value: both references are read at e1's location
        if v1.IsRef() {
          var errors, _ := borrowState.Dereference(e1.loc, v1);
          assert errors == [];
        }
        if v2.IsRef() {
          var errors, _ := borrowState.Dereference(e1.loc, v2);
          assert errors == [];
        }
      } else {
        assert !v1.IsRef();
        assert !v2.IsRef();
      }
      values := [NonRef];
    }

    /** Function `exp_list_item`: both kinds of item are plain expressions. */
    method EvalExpListItem(item: ExpListItem) returns (values: seq<Value>)
      requires ExpSem(borrowState.oracle, Now(), item.e).Done?
      modifies this, borrowState
      ensures Now() == ExpSem(borrowState.oracle, old(Now()), item.e).trace
      ensures values == ExpSem(borrowState.oracle, old(Now()), item.e).values
      decreases item
    {
      match item
      case Single(e, _) =>
        values := EvalExp(e);
      case Splat(_, e, _) =>
        values := EvalExp(e);
    }
  }
}

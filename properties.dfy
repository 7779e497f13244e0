/** What the transfer functions promise, proved about their specification in
    module `Transfer`: the diagnostics collected are exactly those the
    borrow-state calls report, in call order; a list of left-hand sides
    binds by position, one call per leaf; each expression form yields the
    number and kind of values the checker relies on; and the evaluation
    order of `==`, of mutation and of expression lists. */
module Properties {
  import opened Hlir
  import opened State
  import opened Transfer

  /** `after` extends the calls of `before`, and its diagnostics are those of
      `before` followed by everything the new calls reported. */
  predicate Accounts(o: Oracle, before: Trace, after: Trace) {
    before.calls <= after.calls
    && after.diags == before.diags + Reported(o, after.calls, |before.calls|)
  }

  lemma AccountsChain(o: Oracle, a: Trace, b: Trace, c: Trace)
    requires Accounts(o, a, b) && Accounts(o, b, c)
    ensures Accounts(o, a, c)
  {
    ReportedSplit(o, c.calls, |a.calls|, |b.calls|);
    assert c.calls[..|b.calls|] == b.calls;
  }

  lemma AccountsRecord(o: Oracle, t: Trace, op: Op)
    ensures Accounts(o, t, Record(o, t, op))
  {
  }

  /** A call whose diagnostics are empty may leave them out. */
  lemma AccountsSilent(o: Oracle, t: Trace, op: Op)
    requires Diags(o, t.calls, op) == []
    ensures Accounts(o, t, Trace(t.calls + [op], t.diags))
  {
  }

  lemma EqDerefAccounts(o: Oracle, t: Trace, loc: Loc, v: Value)
    requires EqDeref(o, t, loc, v).Done?
    ensures Accounts(o, t, EqDeref(o, t, loc, v).trace)
  {
  }

  /** After one sub-expression and then one call, every diagnostic is still accounted for. */
  lemma ThenRecord(o: Oracle, t: Trace, inner: Exp, op: Op)
    requires ExpSem(o, t, inner).Done?
    requires Accounts(o, t, ExpSem(o, t, inner).trace)
    ensures Accounts(o, t, Record(o, ExpSem(o, t, inner).trace, op))
  {
    var r := ExpSem(o, t, inner);
    AccountsRecord(o, r.trace, op);
    AccountsChain(o, t, r.trace, Record(o, r.trace, op));
  }

  /** An expression collects exactly the diagnostics its calls report; the
      two dereferences of `==` report none. */
  lemma {:induction false} ExpAccounts(o: Oracle, t: Trace, e: Exp)
    requires ExpSem(o, t, e).Done?
    ensures Accounts(o, t, ExpSem(o, t, e).trace)
    decreases e, 2
  {
    if e.exp.Freeze? || e.exp.Dereference? || e.exp.Borrow? || e.exp.ModuleCall? {
      OperandAccounts(o, t, e);
    } else if e.exp.Builtin? || e.exp.BinopExp? || e.exp.Vector? || e.exp.Cast?
      || e.exp.UnaryExp? || e.exp.Pack? || e.exp.ExpList?
    {
      NestedAccounts(o, t, e);
    } else {
      LeafAccounts(o, t, e);
    }
  }

  /** The arms with no sub-expression make at most one call. */
  lemma LeafAccounts(o: Oracle, t: Trace, e: Exp)
    requires !(e.exp.Freeze? || e.exp.Dereference? || e.exp.Borrow? || e.exp.ModuleCall?)
    requires !(e.exp.Builtin? || e.exp.BinopExp? || e.exp.Vector? || e.exp.Cast?
      || e.exp.UnaryExp? || e.exp.Pack? || e.exp.ExpList?)
    requires ExpSem(o, t, e).Done?
    ensures Accounts(o, t, ExpSem(o, t, e).trace)
  {
    match e.exp
    case Move(v, annotation) =>
      AccountsRecord(o, t, Op.MoveLocal(e.loc, v, annotation == InferredLastUsage));
    case Copy(v, _) =>
      AccountsRecord(o, t, Op.CopyLocal(e.loc, v));
    case BorrowLocal(isMut, v) =>
      AccountsRecord(o, t, Op.BorrowLocal(e.loc, isMut, v));
    case Unit =>
    case Value(_) =>
    case Constant(_) =>
    case Spec(_) =>
    case UnresolvedError =>
  }

  /** The arms whose calls are those of their sub-expressions, and perhaps one more. */
  lemma {:induction false} NestedAccounts(o: Oracle, t: Trace, e: Exp)
    requires e.exp.Builtin? || e.exp.BinopExp? || e.exp.Vector? || e.exp.Cast?
      || e.exp.UnaryExp? || e.exp.Pack? || e.exp.ExpList?
    requires ExpSem(o, t, e).Done?
    ensures Accounts(o, t, ExpSem(o, t, e).trace)
    decreases e, 1
  {
    match e.exp
    case Builtin(b, arg) =>
      BuiltinAccounts(o, t, e, b, arg);
    case Vector(_, _, _, inner) =>
      ExpAccounts(o, t, inner);
    case Cast(inner, _) =>
      ExpAccounts(o, t, inner);
    case UnaryExp(_, inner) =>
      ExpAccounts(o, t, inner);
    case BinopExp(lhs, bop, rhs) =>
      BinopAccounts(o, t, e, lhs, bop, rhs);
    case Pack(_, _, fields) =>
      FieldsAccounts(o, t, fields);
    case ExpList(items) =>
      ItemsAccounts(o, t, items);
  }

  /** The arms that evaluate one operand and then make one call. */
  lemma {:induction false} OperandAccounts(o: Oracle, t: Trace, e: Exp)
    requires e.exp.Freeze? || e.exp.Dereference? || e.exp.Borrow? || e.exp.ModuleCall?
    requires ExpSem(o, t, e).Done?
    ensures Accounts(o, t, ExpSem(o, t, e).trace)
    decreases e, 1
  {
    match e.exp
    case Freeze(inner) =>
      ExpAccounts(o, t, inner);
      ThenRecord(o, t, inner, Op.Freeze(e.loc, ExpSem(o, t, inner).values[0]));
    case Dereference(inner) =>
      ExpAccounts(o, t, inner);
      ThenRecord(o, t, inner, Op.Dereference(e.loc, ExpSem(o, t, inner).values[0]));
    case Borrow(isMut, inner, f) =>
      ExpAccounts(o, t, inner);
      ThenRecord(o, t, inner, Op.BorrowField(e.loc, isMut, ExpSem(o, t, inner).values[0], f));
    case ModuleCall(mcall) =>
      ExpAccounts(o, t, mcall.arguments);
      var r := ExpSem(o, t, mcall.arguments);
      ThenRecord(o, t, mcall.arguments, Op.Call(e.loc, r.values, mcall.acquires, e.ty));
  }

  lemma {:induction false} BuiltinAccounts(o: Oracle, t: Trace, e: Exp, b: BuiltinFunction, arg: Exp)
    requires e.exp.Builtin? && e.exp.b == b && e.exp.arg == arg
    requires BuiltinSem(o, t, e, b, arg).Done?
    ensures Accounts(o, t, BuiltinSem(o, t, e, b, arg).trace)
    decreases e, 0
  {
    ExpAccounts(o, t, arg);
    var r := ExpSem(o, t, arg);
    match b
    case BorrowGlobal(isMut, ty) =>
      ThenRecord(o, t, arg, Op.BorrowGlobal(e.loc, isMut, ty));
    case MoveFrom(ty) =>
      ThenRecord(o, t, arg, Op.MoveFrom(e.loc, ty));
    case MoveTo(_) =>
      ThenRecord(o, t, arg, Op.Call(e.loc, r.values, map[], e.ty));
    case Exists(_) =>
      ThenRecord(o, t, arg, Op.Call(e.loc, r.values, map[], e.ty));
  }

  lemma {:induction false} BinopAccounts(o: Oracle, t: Trace, e: Exp, lhs: Exp, bop: BinOp, rhs: Exp)
    requires e.exp.BinopExp? && e.exp.lhs == lhs && e.exp.bop == bop && e.exp.rhs == rhs
    requires BinopSem(o, t, e, lhs, bop, rhs).Done?
    ensures Accounts(o, t, BinopSem(o, t, e, lhs, bop, rhs).trace)
    decreases e, 0
  {
    var r1 := ExpSem(o, t, lhs);
    var r2 := ExpSem(o, r1.trace, rhs);
    ExpAccounts(o, t, lhs);
    ExpAccounts(o, r1.trace, rhs);
    AccountsChain(o, t, r1.trace, r2.trace);
    if bop == Eq || bop == Neq {
      var d1 := EqDeref(o, r2.trace, lhs.loc, r1.values[0]);
      var d2 := EqDeref(o, d1.trace, lhs.loc, r2.values[0]);
      EqDerefAccounts(o, r2.trace, lhs.loc, r1.values[0]);
      EqDerefAccounts(o, d1.trace, lhs.loc, r2.values[0]);
      AccountsChain(o, t, r2.trace, d1.trace);
      AccountsChain(o, t, d1.trace, d2.trace);
    }
  }

  lemma {:induction false} FieldsAccounts(o: Oracle, t: Trace, fields: seq<PackField>)
    requires FieldsSem(o, t, fields).Done?
    ensures Accounts(o, t, FieldsSem(o, t, fields).trace)
    decreases fields
  {
    if fields != [] {
      var p := fields[..|fields| - 1];
      var r := FieldsSem(o, t, p);
      FieldsAccounts(o, t, p);
      ExpAccounts(o, r.trace, fields[|fields| - 1].arg);
      AccountsChain(o, t, r.trace, ExpSem(o, r.trace, fields[|fields| - 1].arg).trace);
    }
  }

  lemma {:induction false} ItemsAccounts(o: Oracle, t: Trace, items: seq<ExpListItem>)
    requires ItemsSem(o, t, items).Done?
    ensures Accounts(o, t, ItemsSem(o, t, items).trace)
    decreases items
  {
    if items != [] {
      var p := items[..|items| - 1];
      var r := ItemsSem(o, t, p);
      ItemsAccounts(o, t, p);
      ExpAccounts(o, r.trace, items[|items| - 1].e);
      AccountsChain(o, t, r.trace, ExpSem(o, r.trace, items[|items| - 1].e).trace);
    }
  }

  lemma {:induction false} LValueAccounts(o: Oracle, t: Trace, l: LValue, v: Value)
    requires LValueSem(o, t, l, v).Done?
    ensures Accounts(o, t, LValueSem(o, t, l, v).trace)
    decreases l
  {
    match l.lvalue
    case Ignore =>
      AccountsSilent(o, t, Op.ReleaseValue(v));
    case Var(x, _) =>
      AccountsRecord(o, t, Op.AssignLocal(l.loc, x, v));
    case Unpack(_, _, fields) =>
      UnpackAccounts(o, t, fields);
  }

  lemma {:induction false} UnpackAccounts(o: Oracle, t: Trace, fields: seq<UnpackField>)
    requires UnpackSem(o, t, fields).Done?
    ensures Accounts(o, t, UnpackSem(o, t, fields).trace)
    decreases fields
  {
    if fields != [] {
      var p := fields[..|fields| - 1];
      var r := UnpackSem(o, t, p);
      UnpackAccounts(o, t, p);
      LValueAccounts(o, r.trace, fields[|fields| - 1].target, NonRef);
      AccountsChain(o, t, r.trace, UnpackSem(o, t, fields).trace);
    }
  }

  lemma {:induction false} LValuesAccounts(o: Oracle, t: Trace, ls: seq<LValue>, vs: seq<Value>)
    requires LValuesSem(o, t, ls, vs).Done?
    ensures Accounts(o, t, LValuesSem(o, t, ls, vs).trace)
    decreases |ls|
  {
    var n := Min(|ls|, |vs|);
    if n > 0 {
      var r := LValuesSem(o, t, ls[..n - 1], vs[..n - 1]);
      LValuesAccounts(o, t, ls[..n - 1], vs[..n - 1]);
      LValueAccounts(o, r.trace, ls[n - 1], vs[n - 1]);
      AccountsChain(o, t, r.trace, LValuesSem(o, t, ls, vs).trace);
    }
  }

  /** A command collects exactly the diagnostics its calls report, in order. */
  lemma CommandAccounts(o: Oracle, t: Trace, c: Command)
    requires CommandSem(o, t, c).Done?
    ensures Accounts(o, t, CommandSem(o, t, c).trace)
  {
    match c.command
    case Assign(ls, e) =>
      var r := ExpSem(o, t, e);
      ExpAccounts(o, t, e);
      LValuesAccounts(o, r.trace, ls, r.values);
      AccountsChain(o, t, r.trace, CommandSem(o, t, c).trace);
    case Mutate(lhs, rhs) =>
      var r := ExpSem(o, t, rhs);
      var l := ExpSem(o, r.trace, lhs);
      ExpAccounts(o, t, rhs);
      ExpAccounts(o, r.trace, lhs);
      AccountsChain(o, t, r.trace, l.trace);
      AccountsRecord(o, l.trace, Op.Mutate(c.loc, l.values[0]));
      AccountsChain(o, t, l.trace, CommandSem(o, t, c).trace);
    case JumpIf(cond, _, _) =>
      ExpAccounts(o, t, cond);
    case IgnoreAndPop(_, e) =>
      var r := ExpSem(o, t, e);
      ExpAccounts(o, t, e);
      AccountsSilent(o, r.trace, Op.ReleaseValues(r.values));
      AccountsChain(o, t, r.trace, CommandSem(o, t, c).trace);
    case Return(_, e) =>
      var r := ExpSem(o, t, e);
      ExpAccounts(o, t, e);
      AccountsRecord(o, r.trace, Op.Return(c.loc, r.values));
      AccountsChain(o, t, r.trace, CommandSem(o, t, c).trace);
    case Abort(e) =>
      var r := ExpSem(o, t, e);
      ExpAccounts(o, t, e);
      AccountsSilent(o, r.trace, Op.Abort);
      AccountsChain(o, t, r.trace, CommandSem(o, t, c).trace);
    case Jump(_, _) =>
  }

  /** The number of targets an assignment to `l` binds: one per ignored or
      variable target, nested unpacks included. */
  function Leaves(l: LValue): nat
    decreases l
  {
    match l.lvalue
    case Ignore => 1
    case Var(_, _) => 1
    case Unpack(_, _, fields) => FieldLeaves(fields)
  }

  function FieldLeaves(fields: seq<UnpackField>): nat
    decreases fields
  {
    if fields == [] then 0 else FieldLeaves(fields[..|fields| - 1]) + Leaves(fields[|fields| - 1].target)
  }

  /** The number of targets the left-hand sides `ls` bind together. */
  function LeavesOf(ls: seq<LValue>): nat
    decreases |ls|
  {
    if ls == [] then 0 else LeavesOf(ls[..|ls| - 1]) + Leaves(ls[|ls| - 1])
  }

  /** Assigning to `l` makes one binding call per target: an ignored target
      releases the value, a variable is assigned it, and each target of an
      unpack is bound to a non-reference. */
  lemma {:induction false} LValueBinds(o: Oracle, t: Trace, l: LValue, v: Value)
    requires LValueSem(o, t, l, v).Done?
    ensures |LValueSem(o, t, l, v).trace.calls| == |t.calls| + Leaves(l)
    decreases l
  {
    match l.lvalue
    case Ignore =>
    case Var(_, _) =>
    case Unpack(_, _, fields) =>
      UnpackBinds(o, t, fields);
  }

  lemma {:induction false} UnpackBinds(o: Oracle, t: Trace, fields: seq<UnpackField>)
    requires UnpackSem(o, t, fields).Done?
    ensures |UnpackSem(o, t, fields).trace.calls| == |t.calls| + FieldLeaves(fields)
    decreases fields
  {
    if fields != [] {
      var p := fields[..|fields| - 1];
      var r := UnpackSem(o, t, p);
      UnpackBinds(o, t, p);
      LValueBinds(o, r.trace, fields[|fields| - 1].target, NonRef);
    }
  }

  /** The calls `calls[lo..hi]` exist and each is a binding of `v`. */
  predicate BindsRange(calls: seq<Op>, lo: int, hi: int, v: Value) {
    0 <= lo && hi <= |calls|
    && forall j :: lo <= j < hi ==> IsBindOp(calls[j]) && calls[j].value == v
  }

  lemma BindsRangeExtend(calls: seq<Op>, more: seq<Op>, lo: int, hi: int, v: Value)
    requires calls <= more && BindsRange(calls, lo, hi, v)
    ensures BindsRange(more, lo, hi, v)
  {
    assert forall j :: lo <= j < hi ==> more[j] == calls[j];
  }

  /** `calls`, from index `base` on, is the blocks of bindings of the
      targets `ls` to the values `vs` in order: target `i`'s block starts
      after the leaves of the targets before it and binds `vs[i]`. */
  predicate ZipBlocks(calls: seq<Op>, base: nat, ls: seq<LValue>, vs: seq<Value>) {
    |ls| == |vs|
    && forall i :: 0 <= i < |ls| ==>
         BindsRange(calls, base + LeavesOf(ls[..i]), base + LeavesOf(ls[..i + 1]), vs[i])
  }

  /** Appending one target's block of bindings to a positional zip of
      blocks keeps the earlier blocks and adds the new one last. */
  lemma ZipBlocksExtend(calls: seq<Op>, more: seq<Op>, base: nat, ls: seq<LValue>, vs: seq<Value>, l: LValue, v: Value)
    requires calls <= more && ZipBlocks(calls, base, ls, vs)
    requires |calls| == base + LeavesOf(ls) && |more| == |calls| + Leaves(l)
    requires BindsRange(more, |calls|, |more|, v)
    ensures ZipBlocks(more, base, ls + [l], vs + [v])
  {
    var ls', vs' := ls + [l], vs + [v];
    forall i | 0 <= i < |ls'|
      ensures BindsRange(more, base + LeavesOf(ls'[..i]), base + LeavesOf(ls'[..i + 1]), vs'[i])
    {
      if i < |ls| {
        assert ls'[..i] == ls[..i] && ls'[..i + 1] == ls[..i + 1] && vs'[i] == vs[i];
        BindsRangeExtend(calls, more, base + LeavesOf(ls[..i]), base + LeavesOf(ls[..i + 1]), vs[i]);
      } else {
        assert ls'[..i] == ls && ls'[..i + 1][..i] == ls && ls'[..i + 1] == ls';
      }
    }
  }

  /** `lvalues` is a positional zip: the targets and values are paired up to
      the shorter length, and target `i`'s bindings come next, one per
      target it binds, each binding `vs[i]`. */
  lemma {:induction false} LValuesBinds(o: Oracle, t: Trace, ls: seq<LValue>, vs: seq<Value>)
    requires LValuesSem(o, t, ls, vs).Done?
    ensures var n := Min(|ls|, |vs|);
      |LValuesSem(o, t, ls, vs).trace.calls| == |t.calls| + LeavesOf(ls[..n])
      && ZipBlocks(LValuesSem(o, t, ls, vs).trace.calls, |t.calls|, ls[..n], vs[..n])
    decreases |ls|
  {
    var n := Min(|ls|, |vs|);
    if n == 0 {
      assert ls[..n] == [];
    } else {
      var pl, pv := ls[..n - 1], vs[..n - 1];
      var r := LValuesSem(o, t, pl, pv).trace;
      var s := LValuesSem(o, t, ls, vs).trace;
      LValuesBinds(o, t, pl, pv);
      LValueBinds(o, r, ls[n - 1], vs[n - 1]);
      assert pl[..n - 1] == pl && pv[..n - 1] == pv;
      assert ls[..n] == pl + [ls[n - 1]] && vs[..n] == pv + [vs[n - 1]];
      assert LeavesOf(ls[..n]) == LeavesOf(pl) + Leaves(ls[n - 1]);
      ZipBlocksExtend(r.calls, s.calls, |t.calls|, pl, pv, ls[n - 1], vs[n - 1]);
    }
  }

  /** A command never canonicalises the locals itself: only `execute` does,
      once the command is done. */
  lemma CommandNeverCanonicalizes(o: Oracle, t: Trace, c: Command)
    requires CommandSem(o, t, c).Done?
    ensures t.calls <= CommandSem(o, t, c).trace.calls
    ensures forall i :: |t.calls| <= i < |CommandSem(o, t, c).trace.calls| ==>
      !CommandSem(o, t, c).trace.calls[i].CanonicalizeLocals?
  {
    match c.command
    case Assign(ls, e) =>
      var r := ExpSem(o, t, e);
      LValuesBinds(o, r.trace, ls, r.values);
    case Mutate(lhs, rhs) =>
    case JumpIf(cond, _, _) =>
    case IgnoreAndPop(_, e) =>
    case Return(_, e) =>
    case Abort(e) =>
    case Jump(_, _) =>
  }

  /** Evaluating the items `a + b` evaluates `a`, then `b` from where `a`
      left off, and yields `a`'s values followed by `b`'s. */
  lemma {:induction false} ItemsAppend(o: Oracle, t: Trace, a: seq<ExpListItem>, b: seq<ExpListItem>)
    requires ItemsSem(o, t, a).Done?
    ensures ItemsSem(o, t, a + b) ==
      var r := ItemsSem(o, t, a);
      var s := ItemsSem(o, r.trace, b);
      if s.Ice? then Ice else Done(s.trace, r.values + s.values)
    decreases |b|
  {
    if b == [] {
      assert a + b == a;
    } else {
      var p := b[..|b| - 1];
      assert (a + b)[..|a + b| - 1] == a + p;
      assert (a + b)[|a + b| - 1] == b[|b| - 1];
      ItemsAppend(o, t, a, p);
    }
  }

  /** Only the expression of an item matters: a single item and a splat of
      the same expression evaluate alike. */
  lemma {:induction false} ItemsSameExps(o: Oracle, t: Trace, a: seq<ExpListItem>, b: seq<ExpListItem>)
    requires |a| == |b| && forall i :: 0 <= i < |a| ==> a[i].e == b[i].e
    ensures ItemsSem(o, t, a) == ItemsSem(o, t, b)
    decreases |a|
  {
    if a != [] {
      ItemsSameExps(o, t, a[..|a| - 1], b[..|b| - 1]);
    }
  }

  /** The dereferences `==` makes of its operands, at location `loc`: one
      per operand that is a reference, in operand order. */
  function Derefs(loc: Loc, vs: seq<Value>): (ops: seq<Op>)
    ensures |ops| <= |vs|
    ensures forall i :: 0 <= i < |ops| ==> ops[i].Dereference? && ops[i].loc == loc && ops[i].value.IsRef()
  {
    if vs == [] then []
    else (if vs[0].IsRef() then [Op.Dereference(loc, vs[0])] else []) + Derefs(loc, vs[1..])
  }

  /** `==` and `!=` evaluate the left operand, then the right one, then
      dereference the operands that are references, both at the left
      operand's location; they collect no diagnostic of their own and yield
      one non-reference. */
  lemma EqComparesByValue(o: Oracle, t: Trace, e: Exp)
    requires e.exp.BinopExp? && (e.exp.bop == Eq || e.exp.bop == Neq)
    requires ExpSem(o, t, e).Done?
    ensures
      var r1 := ExpSem(o, t, e.exp.lhs);
      Yields1(r1)
      && var r2 := ExpSem(o, r1.trace, e.exp.rhs);
      Yields1(r2)
      && ExpSem(o, t, e).trace.calls == r2.trace.calls + Derefs(e.exp.lhs.loc, r1.values + r2.values)
      && ExpSem(o, t, e).trace.diags == r2.trace.diags
      && ExpSem(o, t, e).values == [NonRef]
  {
  }

  /** Every other binary operator takes two non-references and calls nothing. */
  lemma BinopTakesNonRefs(o: Oracle, t: Trace, e: Exp)
    requires e.exp.BinopExp? && e.exp.bop != Eq && e.exp.bop != Neq
    requires ExpSem(o, t, e).Done?
    ensures
      var r1 := ExpSem(o, t, e.exp.lhs);
      YieldsNonRef(r1)
      && var r2 := ExpSem(o, r1.trace, e.exp.rhs);
      YieldsNonRef(r2) && ExpSem(o, t, e) == Done(r2.trace, [NonRef])
  {
  }

  /** How many values, and of which kind, each form of expression yields. */
  lemma ExpArity(o: Oracle, t: Trace, e: Exp)
    requires ExpSem(o, t, e).Done?
    ensures e.exp.Unit? ==> ExpSem(o, t, e).values == []
    ensures e.exp.Move? || e.exp.Copy? || e.exp.Freeze? || e.exp.Dereference? || e.exp.Borrow?
      ==> |ExpSem(o, t, e).values| == 1
    ensures e.exp.BorrowLocal? ==> |ExpSem(o, t, e).values| == 1 && ExpSem(o, t, e).values[0].IsRef()
    ensures e.exp.Builtin? && e.exp.b.BorrowGlobal? ==> |ExpSem(o, t, e).values| == 1
    ensures e.exp.Builtin? && e.exp.b.MoveFrom? ==> ExpSem(o, t, e).values == [NonRef]
    ensures e.exp.Value? || e.exp.Constant? || e.exp.Spec? || e.exp.UnresolvedError? || e.exp.Vector?
      || e.exp.Cast? || e.exp.UnaryExp? || e.exp.BinopExp? || e.exp.Pack?
      ==> ExpSem(o, t, e).values == [NonRef]
  {
  }

  /** A call of a module function passes the callee's acquires; the other
      builtins call with no acquires. Both pass the arguments' values and
      the expression's type, and yield what the call answers. */
  lemma CallAcquires(o: Oracle, t: Trace, e: Exp)
    requires e.exp.ModuleCall? || (e.exp.Builtin? && (e.exp.b.MoveTo? || e.exp.b.Exists?))
    requires ExpSem(o, t, e).Done?
    ensures
      var args := if e.exp.ModuleCall? then e.exp.mcall.arguments else e.exp.arg;
      var acquires := if e.exp.ModuleCall? then e.exp.mcall.acquires else map[];
      var r := ExpSem(o, t, args);
      r.Done?
      && var call := Op.Call(e.loc, r.values, acquires, e.ty);
      ExpSem(o, t, e).trace.calls == r.trace.calls + [call]
      && ExpSem(o, t, e).values == o.valuesOf(r.trace.calls, call)
  {
  }

  /** `Mutate` evaluates the right-hand side first, which must be one
      non-reference, then the left-hand side, then mutates through it. */
  lemma MutateOrder(o: Oracle, t: Trace, c: Command)
    requires c.command.Mutate? && CommandSem(o, t, c).Done?
    ensures
      var r := ExpSem(o, t, c.command.rhs);
      YieldsNonRef(r)
      && var l := ExpSem(o, r.trace, c.command.lhs);
      Yields1(l) && CommandSem(o, t, c).trace == Record(o, l.trace, Op.Mutate(c.loc, l.values[0]))
  {
  }

  /** `IgnoreAndPop` releases all the values of its expression at once,
      and `Jump` changes nothing. */
  lemma CommandEffects(o: Oracle, t: Trace, c: Command)
    requires CommandSem(o, t, c).Done?
    ensures c.command.IgnoreAndPop? ==>
      var r := ExpSem(o, t, c.command.e);
      CommandSem(o, t, c).trace == Trace(r.trace.calls + [Op.ReleaseValues(r.values)], r.trace.diags)
    ensures c.command.Jump? ==> CommandSem(o, t, c).trace == t
    ensures !c.command.Break? && !c.command.Continue?
  {
  }
}

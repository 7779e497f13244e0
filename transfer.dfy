/** What the transfer functions of the borrow checker do, as functions of the
    borrow state's oracle: given the trace so far (the calls made on the
    borrow state and the diagnostics collected), the trace afterwards and the
    abstract values an expression yields. An internal compiler error (a
    `panic!` or a failed `assert!` of the source) is the outcome `Ice`; the
    source's callers never reach it. */
module Transfer {
  import opened Hlir
  import opened State

  /** The calls made on the borrow state so far, and the diagnostics the
      context has collected so far. */
  datatype Trace = Trace(calls: seq<Op>, diags: seq<Diag>)

  /** The result of evaluating a piece of HLIR: the trace afterwards and the
      values yielded, or an internal compiler error. */
  datatype Outcome = Done(trace: Trace, values: seq<Value>) | Ice

  /** The calls an expression may make on the borrow state. */
  predicate IsExpOp(op: Op) {
    op.MoveLocal? || op.CopyLocal? || op.BorrowLocal? || op.Freeze? || op.Dereference?
    || op.BorrowField? || op.BorrowGlobal? || op.MoveFrom? || op.Call?
  }

  /** `after` extends `before` with expression calls only, and keeps every
      diagnostic collected before. */
  predicate ExpStep(before: Trace, after: Trace) {
    before.calls <= after.calls && before.diags <= after.diags
    && forall i :: |before.calls| <= i < |after.calls| ==> IsExpOp(after.calls[i])
  }

  /** The calls a left-hand side may make: it releases or assigns a value. */
  predicate IsBindOp(op: Op) {
    op.ReleaseValue? || op.AssignLocal?
  }

  /** `after` extends `before` with binding calls only, each binding `v`,
      and keeps every diagnostic collected before. */
  predicate BindStep(before: Trace, after: Trace, v: Value) {
    before.calls <= after.calls && before.diags <= after.diags
    && forall i :: |before.calls| <= i < |after.calls| ==> IsBindOp(after.calls[i]) && after.calls[i].value == v
  }

  /** The outcome yields exactly one value (`assert_single_value`). */
  predicate Yields1(r: Outcome) {
    r.Done? && |r.values| == 1
  }

  /** The outcome yields exactly one value, and it is not a reference. */
  predicate YieldsNonRef(r: Outcome) {
    Yields1(r) && !r.values[0].IsRef()
  }

  /** The trace after call `op`, whose diagnostics the context keeps. */
  function Record(o: Oracle, t: Trace, op: Op): Trace {
    Trace(t.calls + [op], t.diags + Diags(o, t.calls, op))
  }

  /** A call that yields one value. */
  function Answer(o: Oracle, t: Trace, op: Op): Outcome {
    Done(Record(o, t, op), [o.valueOf(t.calls, op)])
  }

  /** A call that yields no value. */
  function Effect(o: Oracle, t: Trace, op: Op): Outcome {
    Done(Record(o, t, op), [])
  }

  /** A call of a function, yielding the values the borrow state answers. */
  function CallSem(o: Oracle, t: Trace, loc: Loc, args: seq<Value>, acquires: map<StructName, Loc>, retTy: Ty): (r: Outcome)
    ensures r.Done? && ExpStep(t, r.trace) && |r.trace.calls| == |t.calls| + 1
    ensures var call := r.trace.calls[|t.calls|];
      call.Call? && call.args == args && call.acquires == acquires && call.retTy == retTy
      && r.trace.diags == t.diags + Diags(o, t.calls, call)
      && r.values == o.valuesOf(t.calls, call)
  {
    var op := Op.Call(loc, args, acquires, retTy);
    Done(Record(o, t, op), o.valuesOf(t.calls, op))
  }

  /** The dereference `==`/`!=` applies to one operand: none for a
      non-reference; for a reference, a dereference whose diagnostics must be
      empty and are not kept. */
  function EqDeref(o: Oracle, t: Trace, loc: Loc, v: Value): (r: Outcome)
    ensures r.Ice? <==> v.IsRef() && Diags(o, t.calls, Op.Dereference(loc, v)) != []
    ensures r.Done? ==> r.values == [] && r.trace.diags == t.diags && t.calls <= r.trace.calls
    ensures r.Done? ==> |r.trace.calls| == |t.calls| + (if v.IsRef() then 1 else 0)
    ensures r.Done? && v.IsRef() ==> r.trace.calls[|t.calls|] == Op.Dereference(loc, v)
  {
    if !v.IsRef() then Done(t, [])
    else if Diags(o, t.calls, Op.Dereference(loc, v)) != [] then Ice
    else Done(Trace(t.calls + [Op.Dereference(loc, v)], t.diags), [])
  }

  /** Evaluation of an expression (function `exp`). */
  function ExpSem(o: Oracle, t: Trace, e: Exp): (r: Outcome)
    ensures r.Done? ==> ExpStep(t, r.trace)
    decreases e, 1
  {
    match e.exp
    case Move(v, annotation) =>
      Answer(o, t, Op.MoveLocal(e.loc, v, annotation == InferredLastUsage))
    case Copy(v, _) =>
      Answer(o, t, Op.CopyLocal(e.loc, v))
    case BorrowLocal(isMut, v) =>
      var a := Answer(o, t, Op.BorrowLocal(e.loc, isMut, v));
      if a.values[0].IsRef() then a else Ice
    case Freeze(inner) => FreezeSem(o, t, e, inner)
    case Dereference(inner) => DereferenceSem(o, t, e, inner)
    case Borrow(isMut, inner, f) => BorrowFieldSem(o, t, e, isMut, inner, f)
    case Builtin(b, arg) => BuiltinSem(o, t, e, b, arg)
    case Vector(_, n, _, inner) => VectorSem(o, t, e, n, inner)
    case ModuleCall(mcall) => ModuleCallSem(o, t, e, mcall)
    case Unit => Done(t, [])
    case Value(_) => Done(t, [NonRef])
    case Constant(_) => Done(t, [NonRef])
    case Spec(_) => Done(t, [NonRef])
    case UnresolvedError => Done(t, [NonRef])
    case Cast(inner, _) => NonRefOperandSem(o, t, e, inner)
    case UnaryExp(_, inner) => NonRefOperandSem(o, t, e, inner)
    case BinopExp(lhs, bop, rhs) => BinopSem(o, t, e, lhs, bop, rhs)
    case Pack(_, _, fields) => PackSem(o, t, e, fields)
    case ExpList(items) => ItemsSem(o, t, items)
    case Unreachable => Ice
  }

  /** `freeze` of the single value of `inner`. */
  function FreezeSem(o: Oracle, t: Trace, e: Exp, inner: Exp): (r: Outcome)
    requires inner < e
    ensures r.Done? ==> ExpStep(t, r.trace)
    ensures r.Done? ==> |r.values| == 1 && |r.trace.calls| > |t.calls|
    decreases e, 0
  {
    var r := ExpSem(o, t, inner);
    if !Yields1(r) then Ice else Answer(o, r.trace, Op.Freeze(e.loc, r.values[0]))
  }

  /** `dereference` of the single value of `inner`. */
  function DereferenceSem(o: Oracle, t: Trace, e: Exp, inner: Exp): (r: Outcome)
    requires inner < e
    ensures r.Done? ==> ExpStep(t, r.trace)
    ensures r.Done? ==> |r.values| == 1 && |r.trace.calls| > |t.calls|
    decreases e, 0
  {
    var r := ExpSem(o, t, inner);
    if !Yields1(r) then Ice else Answer(o, r.trace, Op.Dereference(e.loc, r.values[0]))
  }

  /** `borrow_field` of field `f` through the single value of `inner`. */
  function BorrowFieldSem(o: Oracle, t: Trace, e: Exp, isMut: bool, inner: Exp, f: Field): (r: Outcome)
    requires inner < e
    ensures r.Done? ==> ExpStep(t, r.trace)
    ensures r.Done? ==> |r.values| == 1 && |r.trace.calls| > |t.calls|
    decreases e, 0
  {
    var r := ExpSem(o, t, inner);
    if !Yields1(r) then Ice else Answer(o, r.trace, Op.BorrowField(e.loc, isMut, r.values[0], f))
  }

  /** A builtin: a global borrow and a move-from take one non-reference
      operand, and a move-from yields a non-reference; every other builtin is
      a call that acquires nothing. */
  function BuiltinSem(o: Oracle, t: Trace, e: Exp, b: BuiltinFunction, arg: Exp): (r: Outcome)
    requires arg < e
    ensures r.Done? ==> ExpStep(t, r.trace)
    ensures r.Done? && (b.BorrowGlobal? || b.MoveFrom?) ==>
      YieldsNonRef(ExpSem(o, t, arg)) && |r.values| == 1 && |r.trace.calls| == |ExpSem(o, t, arg).trace.calls| + 1
    ensures r.Done? && b.MoveFrom? ==> r.values == [NonRef]
    ensures r.Done? && (b.MoveTo? || b.Exists?) ==>
      var a := ExpSem(o, t, arg);
      a.Done? && r.trace.calls == a.trace.calls + [Op.Call(e.loc, a.values, map[], e.ty)]
    decreases e, 0
  {
    var r := ExpSem(o, t, arg);
    if r.Ice? then Ice
    else
      match b
      case BorrowGlobal(isMut, ty) =>
        if !YieldsNonRef(r) then Ice else Answer(o, r.trace, Op.BorrowGlobal(e.loc, isMut, ty))
      case MoveFrom(ty) =>
        var a := Answer(o, r.trace, Op.MoveFrom(e.loc, ty));
        if !YieldsNonRef(r) || a.values[0].IsRef() then Ice else a
      case _ =>
        CallSem(o, r.trace, e.loc, r.values, map[], e.ty)
  }

  /** A vector literal of `n` elements, none of them a reference. */
  function VectorSem(o: Oracle, t: Trace, e: Exp, n: nat, inner: Exp): (r: Outcome)
    requires inner < e
    ensures r.Done? ==> ExpStep(t, r.trace)
    ensures r.Done? ==> r.values == [NonRef]
    decreases e, 0
  {
    var r := ExpSem(o, t, inner);
    if r.Ice? || n != |r.values| || exists v :: v in r.values && v.IsRef() then Ice
    else Done(r.trace, [NonRef])
  }

  /** A call of a module function, with the callee's declared acquires. */
  function ModuleCallSem(o: Oracle, t: Trace, e: Exp, mcall: ModuleCall): (r: Outcome)
    requires mcall.arguments < e
    ensures r.Done? ==> ExpStep(t, r.trace)
    ensures r.Done? ==>
      var a := ExpSem(o, t, mcall.arguments);
      a.Done? && r.trace.calls == a.trace.calls + [Op.Call(e.loc, a.values, mcall.acquires, e.ty)]
    decreases e, 0
  {
    var r := ExpSem(o, t, mcall.arguments);
    if r.Ice? then Ice else CallSem(o, r.trace, e.loc, r.values, mcall.acquires, e.ty)
  }

  /** A cast or a unary operation: one non-reference operand. */
  function NonRefOperandSem(o: Oracle, t: Trace, e: Exp, inner: Exp): (r: Outcome)
    requires inner < e
    ensures r.Done? ==> ExpStep(t, r.trace)
    ensures r.Done? ==> r.values == [NonRef]
    decreases e, 0
  {
    var r := ExpSem(o, t, inner);
    if !YieldsNonRef(r) then Ice else Done(r.trace, [NonRef])
  }

  /** A binary operation: the left operand, then the right one. Comparison
      with `==`/`!=` is by value: each operand that is a reference is
      dereferenced, at the LEFT operand's location for both. Every other
      operator takes non-references. */
  function BinopSem(o: Oracle, t: Trace, e: Exp, lhs: Exp, bop: BinOp, rhs: Exp): (r: Outcome)
    requires lhs < e && rhs < e
    ensures r.Done? ==> ExpStep(t, r.trace)
    ensures r.Done? ==> r.values == [NonRef]
    decreases e, 0
  {
    var r1 := ExpSem(o, t, lhs);
    if !Yields1(r1) then Ice
    else
      var r2 := ExpSem(o, r1.trace, rhs);
      if !Yields1(r2) then Ice
      else if bop == Eq || bop == Neq then
        var d1 := EqDeref(o, r2.trace, lhs.loc, r1.values[0]);
        if d1.Ice? then Ice
        else
          var d2 := EqDeref(o, d1.trace, lhs.loc, r2.values[0]);
          if d2.Ice? then Ice else Done(d2.trace, [NonRef])
      else if r1.values[0].IsRef() || r2.values[0].IsRef() then Ice
      else Done(r2.trace, [NonRef])
  }

  /** A pack: the effects of its fields, yielding one non-reference. */
  function PackSem(o: Oracle, t: Trace, e: Exp, fields: seq<PackField>): (r: Outcome)
    requires e.exp.Pack? && e.exp.fields == fields
    ensures r.Done? ==> ExpStep(t, r.trace)
    ensures r.Done? ==> r.values == [NonRef]
    decreases e, 0
  {
    var r := FieldsSem(o, t, fields);
    if r.Ice? then Ice else Done(r.trace, [NonRef])
  }

  /** The fields of a pack, evaluated in order; each must yield one
      non-reference, and none is kept. */
  function FieldsSem(o: Oracle, t: Trace, fields: seq<PackField>): (r: Outcome)
    ensures r.Done? ==> ExpStep(t, r.trace) && r.values == []
    decreases fields
  {
    if fields == [] then Done(t, [])
    else
      var r := FieldsSem(o, t, fields[..|fields| - 1]);
      if r.Ice? then Ice
      else
        var a := ExpSem(o, r.trace, fields[|fields| - 1].arg);
        if !YieldsNonRef(a) then Ice else Done(a.trace, [])
  }

  /** The items of an expression list, evaluated in order (`exp_list_item`),
      single and splat items alike. */
  function ItemsSem(o: Oracle, t: Trace, items: seq<ExpListItem>): (r: Outcome)
    ensures r.Done? ==> ExpStep(t, r.trace)
    decreases items
  {
    if items == [] then Done(t, [])
    else
      var r := ItemsSem(o, t, items[..|items| - 1]);
      if r.Ice? then Ice
      else
        var a := ExpSem(o, r.trace, items[|items| - 1].e);
        if a.Ice? then Ice else Done(a.trace, r.values + a.values)
  }

  /** Assigning `v` to one left-hand side (function `lvalue`). */
  function LValueSem(o: Oracle, t: Trace, l: LValue, v: Value): (r: Outcome)
    ensures r.Done? ==> BindStep(t, r.trace, v) && r.values == []
    ensures r.Done? && l.lvalue.Unpack? ==> !v.IsRef()
    decreases l
  {
    match l.lvalue
    case Ignore => Done(Trace(t.calls + [Op.ReleaseValue(v)], t.diags), [])
    case Var(x, _) => Effect(o, t, Op.AssignLocal(l.loc, x, v))
    case Unpack(_, _, fields) => if v.IsRef() then Ice else UnpackSem(o, t, fields)
  }

  /** The field targets of an unpack, in order, each bound to a non-reference. */
  function UnpackSem(o: Oracle, t: Trace, fields: seq<UnpackField>): (r: Outcome)
    ensures r.Done? ==> BindStep(t, r.trace, NonRef) && r.values == []
    decreases fields
  {
    if fields == [] then Done(t, [])
    else
      var r := UnpackSem(o, t, fields[..|fields| - 1]);
      if r.Ice? then Ice else LValueSem(o, r.trace, fields[|fields| - 1].target, NonRef)
  }

  function Min(a: nat, b: nat): nat {
    if a <= b then a else b
  }

  /** Assigning values to left-hand sides pairwise, as far as both go
      (function `lvalues`). */
  function LValuesSem(o: Oracle, t: Trace, ls: seq<LValue>, vs: seq<Value>): (r: Outcome)
    ensures r.Done? ==> t.calls <= r.trace.calls && t.diags <= r.trace.diags && r.values == []
    ensures r.Done? ==> forall i :: |t.calls| <= i < |r.trace.calls| ==>
      IsBindOp(r.trace.calls[i]) && r.trace.calls[i].value in vs
    decreases |ls|
  {
    var n := Min(|ls|, |vs|);
    if n == 0 then Done(t, [])
    else
      var r := LValuesSem(o, t, ls[..n - 1], vs[..n - 1]);
      if r.Ice? then Ice else LValueSem(o, r.trace, ls[n - 1], vs[n - 1])
  }

  /** One command (function `command`); it yields no value. */
  function CommandSem(o: Oracle, t: Trace, c: Command): (r: Outcome)
    ensures r.Done? ==> t.calls <= r.trace.calls && t.diags <= r.trace.diags && r.values == []
    ensures r.Done? ==> !c.command.Break? && !c.command.Continue?
  {
    match c.command
    case Assign(ls, e) =>
      var r := ExpSem(o, t, e);
      if r.Ice? then Ice else LValuesSem(o, r.trace, ls, r.values)
    case Mutate(lhs, rhs) =>
      var r := ExpSem(o, t, rhs);
      if !YieldsNonRef(r) then Ice
      else
        var l := ExpSem(o, r.trace, lhs);
        if !Yields1(l) then Ice else Effect(o, l.trace, Op.Mutate(c.loc, l.values[0]))
    case JumpIf(cond, _, _) =>
      var r := ExpSem(o, t, cond);
      if !YieldsNonRef(r) then Ice else Done(r.trace, [])
    case IgnoreAndPop(_, e) =>
      var r := ExpSem(o, t, e);
      if r.Ice? then Ice else Done(Trace(r.trace.calls + [Op.ReleaseValues(r.values)], r.trace.diags), [])
    case Return(_, e) =>
      var r := ExpSem(o, t, e);
      if r.Ice? then Ice else Effect(o, r.trace, Op.Return(c.loc, r.values))
    case Abort(e) =>
      var r := ExpSem(o, t, e);
      if !YieldsNonRef(r) then Ice else Done(Trace(r.trace.calls + [Op.Abort], r.trace.diags), [])
    case Jump(_, _) => Done(t, [])
    case Break => Ice
    case Continue => Ice
  }

  /** Prefixes of a pack's fields that evaluate without an internal error. */
  lemma {:induction false} FieldsPrefixDone(o: Oracle, t: Trace, fields: seq<PackField>, k: nat)
    requires k <= |fields| && FieldsSem(o, t, fields).Done?
    ensures FieldsSem(o, t, fields[..k]).Done?
    decreases |fields|
  {
    if k == |fields| {
      assert fields[..k] == fields;
    } else {
      var p := fields[..|fields| - 1];
      FieldsPrefixDone(o, t, p, k);
      assert p[..k] == fields[..k];
    }
  }

  lemma {:induction false} ItemsPrefixDone(o: Oracle, t: Trace, items: seq<ExpListItem>, k: nat)
    requires k <= |items| && ItemsSem(o, t, items).Done?
    ensures ItemsSem(o, t, items[..k]).Done?
    decreases |items|
  {
    if k == |items| {
      assert items[..k] == items;
    } else {
      var p := items[..|items| - 1];
      ItemsPrefixDone(o, t, p, k);
      assert p[..k] == items[..k];
    }
  }

  lemma {:induction false} UnpackPrefixDone(o: Oracle, t: Trace, fields: seq<UnpackField>, k: nat)
    requires k <= |fields| && UnpackSem(o, t, fields).Done?
    ensures UnpackSem(o, t, fields[..k]).Done?
    decreases |fields|
  {
    if k == |fields| {
      assert fields[..k] == fields;
    } else {
      var p := fields[..|fields| - 1];
      UnpackPrefixDone(o, t, p, k);
      assert p[..k] == fields[..k];
    }
  }

  /** `lvalues` looks only at as many pairs as the shorter side has: surplus
      targets or values are dropped. */
  lemma {:induction false} LValuesTruncate(o: Oracle, t: Trace, ls: seq<LValue>, vs: seq<Value>)
    ensures LValuesSem(o, t, ls, vs) == LValuesSem(o, t, ls[..Min(|ls|, |vs|)], vs[..Min(|ls|, |vs|)])
  {
    var n := Min(|ls|, |vs|);
    if n > 0 {
      assert ls[..n][..n - 1] == ls[..n - 1];
      assert vs[..n][..n - 1] == vs[..n - 1];
    }
  }

  lemma {:induction false} LValuesPrefixDone(o: Oracle, t: Trace, ls: seq<LValue>, vs: seq<Value>, k: nat)
    requires k <= |ls| && k <= |vs| && LValuesSem(o, t, ls, vs).Done?
    ensures LValuesSem(o, t, ls[..k], vs[..k]).Done?
    decreases |ls|
  {
    var n := Min(|ls|, |vs|);
    LValuesTruncate(o, t, ls, vs);
    if k < n {
      LValuesPrefixDone(o, t, ls[..n - 1], vs[..n - 1], k);
      assert ls[..n - 1][..k] == ls[..k];
      assert vs[..n - 1][..k] == vs[..k];
    }
  }
}

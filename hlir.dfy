/** The fragment of the high-level IR (HLIR) that the borrow checker's transfer
    functions inspect: commands of a control-flow graph, the expressions they
    evaluate and the left-hand sides they assign to. Source locations, names
    and types are opaque tokens: the transfer functions only pass them on. */
module Hlir {

  type Loc = nat
  type Label = nat
  type Var = string
  type Field = string
  type StructName = string
  /** A single (non-tuple) type, as named by a pack, unpack or global operation. */
  type BaseType = string
  /** The full type of an expression, passed on to a call as its return type. */
  type Ty = string
  type ConstantName = string
  type Literal = int

  /** How a `move` was introduced; only `InferredLastUsage` is told apart. */
  datatype MoveOpAnnotation = FromUser | InferredLastUsage | InferredNoCopy

  datatype UnaryOp = Not

  datatype BinOp =
    | Add | Sub | Mul | Mod | Div
    | BitOr | BitAnd | Xor | Shl | Shr
    | Range | Implies | Iff | And | Or
    | Eq | Neq | Lt | Gt | Le | Ge

  datatype BuiltinFunction =
    | MoveTo(t: BaseType)
    | MoveFrom(t: BaseType)
    | BorrowGlobal(isMut: bool, t: BaseType)
    | Exists(t: BaseType)

  /** A call of a function of some module, with the global resources that
      function declares it acquires. */
  datatype ModuleCall = ModuleCall(name: string, arguments: Exp, acquires: map<StructName, Loc>)

  /** An expression: its type, its location and its form. */
  datatype Exp = Exp(ty: Ty, loc: Loc, exp: UnannotatedExp)

  datatype PackField = PackField(f: Field, ty: BaseType, arg: Exp)

  datatype ExpListItem =
    | Single(e: Exp, ty: Ty)
    | Splat(loc: Loc, e: Exp, tys: seq<Ty>)

  datatype UnannotatedExp =
    | Unit
    | Value(lit: Literal)
    | Move(v: Var, annotation: MoveOpAnnotation)
    | Copy(v: Var, fromUser: bool)
    | Constant(c: ConstantName)
    | ModuleCall(mcall: ModuleCall)
    | Builtin(b: BuiltinFunction, arg: Exp)
    | Freeze(inner: Exp)
    | Dereference(inner: Exp)
    | UnaryExp(uop: UnaryOp, inner: Exp)
    | BinopExp(lhs: Exp, bop: BinOp, rhs: Exp)
    | Pack(s: StructName, tyArgs: seq<BaseType>, fields: seq<PackField>)
    | ExpList(items: seq<ExpListItem>)
    | Borrow(isMut: bool, inner: Exp, f: Field)
    | BorrowLocal(isMut: bool, v: Var)
    | Cast(inner: Exp, to: BaseType)
    | Vector(vloc: Loc, n: nat, elemTy: Ty, inner: Exp)
    | Spec(id: nat)
    | UnresolvedError
    | Unreachable

  /** A left-hand side of an assignment. */
  datatype LValue = LValue(loc: Loc, lvalue: LValueKind)

  datatype UnpackField = UnpackField(f: Field, target: LValue)

  datatype LValueKind =
    | Ignore
    | Var(v: Var, ty: Ty)
    | Unpack(s: StructName, tyArgs: seq<BaseType>, fields: seq<UnpackField>)

  /** A command of a basic block. */
  datatype Command = Command(loc: Loc, command: CommandKind)

  datatype CommandKind =
    | Assign(ls: seq<LValue>, e: Exp)
    | Mutate(lhs: Exp, rhs: Exp)
    | Abort(e: Exp)
    | Return(fromUser: bool, e: Exp)
    | IgnoreAndPop(popNum: nat, e: Exp)
    | Jump(fromUser: bool, target: Label)
    | JumpIf(cond: Exp, ifTrue: Label, ifFalse: Label)
    | Break
    | Continue
}

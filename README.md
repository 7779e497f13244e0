# Move borrow checker: the transfer functions

This project models the transfer functions of the Move compiler's borrow
checker (`cfgir/borrows`). The abstract interpreter runs `execute` on every
command of a function's control-flow graph, starting from the abstract
borrow state before the command. `execute` walks the command, its
expressions and its left-hand sides. It asks the borrow state whether each
move, copy, borrow, dereference, call, mutation, assignment and return is
safe. It collects the diagnostics those calls return. After the command it
canonicalises the numbering of locals. Expressions yield abstract values:
a non-reference, or a reference. The walk relies on invariants of the
HLIR, such as arities and the absence of references in some places. When
one of them fails, the source panics with an internal compiler error
(ICE).

The model has five modules:

- `Hlir` (hlir.dfy) is the fragment of the HLIR the walk inspects:
  commands, expressions, left-hand sides. Locations, names and types are
  opaque tokens.
- `State` (state.dfy) is the borrow state as the walk sees it.
  - `BorrowState` is a class whose only field is the history of calls made
    on it, plus an `Oracle`.
  - What the real state answers to a call depends only on where it started
    and the calls made on it since. The oracle stands for that dependence:
    every answer (diagnostics, values) is a function of the history and
    the call.
  - `Reported` gives the diagnostics a run of calls reports, in order.
- `Transfer` (transfer.dfy) specifies the walk as functions.
  - Each function takes the trace so far (the calls made and the
    diagnostics collected) and gives the trace afterwards and the values
    yielded, or `Ice`.
  - `Ice` stands for an `assert!` or `panic!` of the source.
  - Their contracts say which calls each piece may make. An expression
    only moves, copies, borrows, freezes, dereferences or calls
    (`ExpStep`). A left-hand side only releases or assigns, and only the
    value given to it (`BindStep`).
- `Borrows` (borrows.dfy) is the walk itself, in the source's imperative
  form.
  - `BorrowSafety` holds the local numbering and provides `Execute`.
  - `Context` holds the borrow state it mutates and the diagnostics it
    accumulates.
  - There is one method per source function and per heavy `exp` arm. Each
    method is proved to make exactly the calls, keep exactly the
    diagnostics and yield exactly the values that its `Transfer` function
    gives.
- `Properties` (properties.dfy) proves what the walk promises:
  - the diagnostics returned are exactly those the borrow-state calls
    reported, in order;
  - a list of left-hand sides binds positionally: one block of calls per
    target, one call per leaf of that target, each binding that target's
    value;
  - canonicalisation is the single, last call of `execute`;
  - the arity of each expression form;
  - the evaluation order of `==`/`!=`, of `Mutate` and of expression lists;
  - which acquires a call passes.

The source compares by value under `==`/`!=`. It dereferences each operand
that is a reference, and it does so at the LEFT operand's location for
both operands (`mod.rs:266-279`). The model keeps that.

## Model

| member | source | states |
|---|---|---|
| `Borrows.NumberLocals` | language/move-compiler/src/cfgir/borrows/mod.rs:30-36 | the i-th local gets number i; the keys are exactly the locals; every number is below the count of locals; distinct locals get distinct numbers |
| `Borrows.BorrowSafety.constructor` | language/move-compiler/src/cfgir/borrows/mod.rs:29-37 | the analysis holds the numbering of `NumberLocals` |
| `Borrows.BorrowSafety.Execute` | language/move-compiler/src/cfgir/borrows/mod.rs:67-80 | runs the command and then canonicalises the locals once. That call is the last one, and no other call of its kind is made. The diagnostics returned are exactly those the calls on the state reported, in call order |
| `Borrows.Context.constructor` | language/move-compiler/src/cfgir/borrows/mod.rs:46-53 | a fresh context shares the numbering and the state, with no diagnostics yet |
| `Borrows.Context.AddDiags` | language/move-compiler/src/cfgir/borrows/mod.rs:59-61 | appends the new diagnostics after the earlier ones |
| `Borrows.Context.ExecCommand` | language/move-compiler/src/cfgir/borrows/mod.rs:107-143 | leaves the trace that `Transfer.CommandSem` specifies. Break and continue are unreachable (an ICE) |
| `Borrows.Context.AssignLValues` | language/move-compiler/src/cfgir/borrows/mod.rs:145-149 | assigns value i to target i, in order, for as many pairs as both sides have |
| `Borrows.Context.AssignLValue` | language/move-compiler/src/cfgir/borrows/mod.rs:151-168 | leaves the trace of `Transfer.LValueSem`. An unpack requires a non-reference and binds each field target to a non-reference |
| `Borrows.Context.EvalExp` | language/move-compiler/src/cfgir/borrows/mod.rs:170-302 | makes the calls, keeps the diagnostics and yields the values of `Transfer.ExpSem` |
| `Borrows.Context.EvalFreeze` | language/move-compiler/src/cfgir/borrows/mod.rs:192-197 | freezes the single value of the operand |
| `Borrows.Context.EvalDereference` | language/move-compiler/src/cfgir/borrows/mod.rs:198-203 | dereferences the single value of the operand |
| `Borrows.Context.EvalBorrowField` | language/move-compiler/src/cfgir/borrows/mod.rs:204-209 | borrows the field through the single value of the operand |
| `Borrows.Context.EvalBuiltin` | language/move-compiler/src/cfgir/borrows/mod.rs:211-238 | a global borrow and a move-from need one non-reference operand, and a move-from yields a non-reference. Other builtins are calls that acquire nothing |
| `Borrows.Context.EvalVector` | language/move-compiler/src/cfgir/borrows/mod.rs:240-245 | needs as many element values as the vector's length, none a reference. Yields one non-reference |
| `Borrows.Context.EvalModuleCall` | language/move-compiler/src/cfgir/borrows/mod.rs:247-256 | calls with the arguments' values, the callee's acquires and the expression's type, and yields the call's values |
| `Borrows.Context.EvalNonRefOperand` | language/move-compiler/src/cfgir/borrows/mod.rs:261-265 | a cast or unary operation needs one non-reference operand and yields one non-reference |
| `Borrows.Context.EvalBinop` | language/move-compiler/src/cfgir/borrows/mod.rs:266-286 | evaluates the left operand, then the right. `==`/`!=` dereferences the references, with no diagnostics. Other operators need non-references |
| `Borrows.Context.EvalPack` | language/move-compiler/src/cfgir/borrows/mod.rs:287-293 | evaluates the fields in order, each one non-reference. Yields one non-reference |
| `Borrows.Context.EvalExpList` | language/move-compiler/src/cfgir/borrows/mod.rs:295-298 | evaluates the items in order and yields their values concatenated |
| `Borrows.Context.EvalExpListItem` | language/move-compiler/src/cfgir/borrows/mod.rs:304-308 | a single item and a splat item are both their expression |
| `Transfer.ExpSem` | language/move-compiler/src/cfgir/borrows/mod.rs:170-302 | an expression only appends calls that move, copy, borrow, freeze, dereference or call. It keeps every diagnostic already collected |
| `Transfer.CallSem` | language/move-compiler/src/cfgir/borrows/mod.rs:228-256 | makes exactly one call, with the given arguments, acquires and return type. The context keeps that call's diagnostics, and the values are the borrow state's answer to it |
| `Transfer.EqDeref` | language/move-compiler/src/cfgir/borrows/mod.rs:270-277 | an ICE exactly when the operand is a reference whose dereference reports diagnostics. Otherwise it adds one dereference at the given location for a reference and no call for a non-reference. The diagnostics are unchanged, and nothing is yielded |
| `Transfer.FreezeSem` | language/move-compiler/src/cfgir/borrows/mod.rs:192-197 | only appends expression calls, at least one, and yields one value |
| `Transfer.DereferenceSem` | language/move-compiler/src/cfgir/borrows/mod.rs:198-203 | only appends expression calls, at least one, and yields one value |
| `Transfer.BorrowFieldSem` | language/move-compiler/src/cfgir/borrows/mod.rs:204-209 | only appends expression calls, at least one, and yields one value |
| `Transfer.BuiltinSem` | language/move-compiler/src/cfgir/borrows/mod.rs:211-238 | only appends expression calls. A global borrow or move-from needs one non-reference operand, makes exactly one call after it and yields one value. A move-from yields a non-reference. Move-to and exists are one call after the operand, with its values, no acquires and the expression's type |
| `Transfer.VectorSem` | language/move-compiler/src/cfgir/borrows/mod.rs:240-245 | only appends expression calls and yields one non-reference |
| `Transfer.ModuleCallSem` | language/move-compiler/src/cfgir/borrows/mod.rs:247-256 | evaluates the arguments, then makes exactly one call with their values, the callee's acquires and the expression's type |
| `Transfer.NonRefOperandSem` | language/move-compiler/src/cfgir/borrows/mod.rs:261-265 | a cast or unary operation only appends expression calls and yields one non-reference |
| `Transfer.BinopSem` | language/move-compiler/src/cfgir/borrows/mod.rs:266-286 | a binary operation only appends expression calls and yields one non-reference |
| `Transfer.PackSem` | language/move-compiler/src/cfgir/borrows/mod.rs:287-293 | a pack only appends expression calls and yields one non-reference |
| `Transfer.FieldsSem` | language/move-compiler/src/cfgir/borrows/mod.rs:287-293 | the fields of a pack only append expression calls, and they yield no values of their own |
| `Transfer.ItemsSem` | language/move-compiler/src/cfgir/borrows/mod.rs:295-298 | an expression list only appends expression calls |
| `Transfer.LValueSem` | language/move-compiler/src/cfgir/borrows/mod.rs:151-168 | one left-hand side only releases or assigns the value given to it, keeps the diagnostics and yields nothing. An unpack succeeds only for a non-reference |
| `Transfer.UnpackSem` | language/move-compiler/src/cfgir/borrows/mod.rs:161-166 | the field targets of an unpack only release or assign a non-reference, and yield nothing |
| `Transfer.LValuesSem` | language/move-compiler/src/cfgir/borrows/mod.rs:145-149 | a list of left-hand sides only releases or assigns, each time one of the given values. It keeps the diagnostics and yields nothing |
| `Transfer.CommandSem` | language/move-compiler/src/cfgir/borrows/mod.rs:107-143 | a command extends the calls, keeps the diagnostics collected before and yields nothing. A break or continue never completes |
| `Transfer.LValuesTruncate` | language/move-compiler/src/cfgir/borrows/mod.rs:145-149 | `lvalues` is a zip: surplus targets or surplus values are ignored |
| `Properties.ExpAccounts` | language/move-compiler/src/cfgir/borrows/mod.rs:170-302 | the diagnostics after an expression are the earlier ones followed by exactly what its calls reported, in call order |
| `Properties.LeafAccounts` | language/move-compiler/src/cfgir/borrows/mod.rs:175-191 | the same for locals and literals, which make at most one call |
| `Properties.OperandAccounts` | language/move-compiler/src/cfgir/borrows/mod.rs:192-256 | the same for a freeze, dereference, field borrow or module call: the operand's reports, then the call's |
| `Properties.NestedAccounts` | language/move-compiler/src/cfgir/borrows/mod.rs:211-298 | the same for the forms whose calls are those of their sub-expressions, and perhaps one more |
| `Properties.BinopAccounts` | language/move-compiler/src/cfgir/borrows/mod.rs:266-279 | the same for a binary operation. The dereferences of `==` report nothing, and nothing is dropped |
| `Properties.BuiltinAccounts` | language/move-compiler/src/cfgir/borrows/mod.rs:211-238 | the same for a builtin |
| `Properties.FieldsAccounts` | language/move-compiler/src/cfgir/borrows/mod.rs:287-293 | the same for the fields of a pack |
| `Properties.ItemsAccounts` | language/move-compiler/src/cfgir/borrows/mod.rs:295-298 | the same for the items of an expression list |
| `Properties.LValueAccounts` | language/move-compiler/src/cfgir/borrows/mod.rs:151-168 | the same for one left-hand side. Releases report nothing, and assignments keep their diagnostics |
| `Properties.UnpackAccounts` | language/move-compiler/src/cfgir/borrows/mod.rs:161-166 | the same for the targets of an unpack |
| `Properties.LValuesAccounts` | language/move-compiler/src/cfgir/borrows/mod.rs:145-149 | the same for a list of left-hand sides |
| `Properties.CommandAccounts` | language/move-compiler/src/cfgir/borrows/mod.rs:107-143 | a command's diagnostics are exactly what its calls reported, in order |
| `Properties.LValueBinds` | language/move-compiler/src/cfgir/borrows/mod.rs:151-168 | one left-hand side makes exactly one call per target leaf: one for an ignore or a variable, and the leaves of its fields for an unpack |
| `Properties.UnpackBinds` | language/move-compiler/src/cfgir/borrows/mod.rs:161-166 | the field targets of an unpack make one call per leaf |
| `Properties.LValuesBinds` | language/move-compiler/src/cfgir/borrows/mod.rs:145-149 | `lvalues` pairs targets and values by position, up to the shorter length. The calls are one block per target i, in order, as long as its leaves, each call binding value i |
| `Properties.CommandNeverCanonicalizes` | language/move-compiler/src/cfgir/borrows/mod.rs:107-143 | no command canonicalises the locals. Only `execute` does, afterwards |
| `Properties.ItemsAppend` | language/move-compiler/src/cfgir/borrows/mod.rs:295-298 | a list `a + b` evaluates `a`, then `b` from where `a` stopped, and yields `a`'s values followed by `b`'s |
| `Properties.ItemsSameExps` | language/move-compiler/src/cfgir/borrows/mod.rs:304-308 | only an item's expression matters, so single and splat items evaluate alike |
| `Properties.EqComparesByValue` | language/move-compiler/src/cfgir/borrows/mod.rs:266-279 | `==`/`!=` evaluates left then right and adds one dereference per reference operand, at the left operand's location. It adds no diagnostics and yields one non-reference |
| `Properties.BinopTakesNonRefs` | language/move-compiler/src/cfgir/borrows/mod.rs:280-286 | other binary operators take two non-references, make no call of their own and yield one non-reference |
| `Properties.ExpArity` | language/move-compiler/src/cfgir/borrows/mod.rs:170-302 | unit yields nothing. Locals, freeze, dereference and field borrows yield one value, and a local borrow yields a reference. Literals, vectors, casts, operators and packs yield one non-reference. A move-from yields a non-reference |
| `Properties.CallAcquires` | language/move-compiler/src/cfgir/borrows/mod.rs:228-256 | a module call passes the callee's acquires, and other builtins pass none. Both pass the arguments' values and the expression's type, and yield the call's answer |
| `Properties.MutateOrder` | language/move-compiler/src/cfgir/borrows/mod.rs:114-120 | a mutation evaluates the right side first, which must be one non-reference, then the left side, then mutates through the left value |
| `Properties.CommandEffects` | language/move-compiler/src/cfgir/borrows/mod.rs:125-141 | `IgnoreAndPop` releases all its values in one call and reports nothing. `Jump` changes nothing. Break and continue never complete |

## Left out

- The borrow state's internals (`state.rs`: the borrow graph, the status of every local, joins, the actual safety rules, canonicalisation) are not part of this model. `BorrowState` records the calls made on it, and its answers come from an oracle over its history.
- `verify` (`mod.rs:85-101`) and the abstract-interpretation engine (`analyze_function`, the `AbstractInterpreter` and `TransferFunctions` traits) are not part of this model. Only the transfer function `execute` is.
- Diagnostics, locations, names and types are opaque tokens. Their contents and the compilation environment are not modelled.
- The locals map (`UniqueMap`) is given as the sequence of its keys in iteration order. Distinct keys are a precondition.
- A `panic!` or failed `assert!` is the outcome `Ice` of the specification. Each method requires that its specification does not reach it, so the methods never panic.
- `Transfer.VectorSem`: the element-count check is a `debug_assert_eq!`, which the model always applies. A release build skips it.
- The variants of HLIR binary operators, builtins and move annotations follow the HLIR AST, which is not part of this model. Only the distinctions the transfer functions make matter here.
- `Context.get_diags` is modelled by reading the `diags` field.

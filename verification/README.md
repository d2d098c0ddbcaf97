# Kaleidoscope-with-arrays: AST-to-IR lowering, modelled in Dafny

This project models the code generator of a small Kaleidoscope compiler extended
with arrays, globals, blocks, `for` loops and boolean connectives
(`parte_con_array/driver.cpp`), together with the grammar's semantic actions that
build its syntax trees (`parte_con_array/parser.cpp`, the reductions of
`parser::parse`).

Each `codegen` method becomes a pure function from a lowering state to a
`Step`: an outcome plus the next state. The outcome is `Ok(value)`, `NoValue`
(the source's null result) or `Crash` (the places where the source dereferences a
null pointer). The state holds:

- `env`: the symbol table `NamedValues`, from names to stack-slot ids. An absent key and a null entry are the same thing.
- `globals`: the module's global variables, each scalar or an array of N doubles.
- `funcs`: the module's functions, with their parameter lists and whether they have a body.
- `next`: one counter for fresh slot, register and block ids.
- `cursor`: the current insertion block.
- `code`: an append-only log of abstract instructions standing for what the `IRBuilder` emits.

Modules:

- `Options`: the option type.
- `Ast`: the syntax tree.
- `Ir`: the lowering state, the instruction log, name resolution, the shape of resolved storage and the frame predicates. `Ir.Resolve` and `Ir.Restore` carry no contract of their own; `ExprFacts.ScalarReadResolution`, `ExprFacts.ElementReadResolution` and `Scoping.RestoreWritesBack` state what they do.
- `Codegen`: expression lowering.
- `Naming`: the names LLVM gives a function's arguments, which are the keys the parameters are registered under.
- `TopLevel`: prototypes, functions, globals and sequences.
- `Grammar`: the reduction actions and the desugarings they perform.
- `ExprFacts`, `DeclFacts`, `Scoping` and `GrammarFacts`: the properties.
- `Footprint`: the frame theorem. Lowering touches only the slots the
  environment names or the slots it allocates itself.
- `ArrayLayout`: the byte addressing behind element accesses (see Findings).

Where the design and the code differ, the model follows the code:

- A block writes its saved handles back only when its bindings and statements all succeed (driver.cpp:321-322, 334-335). When they fail, the block's bindings stay in the environment.
- A block with two bindings of one name writes back in declaration order, so the first inner slot survives the block.
- A for-loop writes the shadowed handle back only when there was one (driver.cpp:699). A fresh loop variable stays bound after the loop.
- A definition fails when the module holds any function of that name, including a body-less `extern` (driver.cpp:449-456).
- The environment is never cleared between top-level definitions, not even when a definition fails and its function is erased (see `DeclFacts.ErasedParameterStaysBound`).

The frame theorem (`Footprint`) says three things about lowering an expression from a
state `st`:

- Every `alloca`, load or store it appends names a slot that is bound in `st.env` or is at least `st.next`.
- Every handle the environment holds afterwards is one of those slots.
- If every handle was drawn below the counter before, that still holds afterwards.

A consequence: a freshly allocated array slot is touched by exactly one `alloca` and
then one element store per element, in index order.

## Model

| member | source | states |
|---|---|---|
| Codegen.Lower | parte_con_array/driver.cpp:108-729 | lowering any expression only appends to the log, only draws fresh ids, and leaves the function and global tables alone |
| Codegen.LowerVariable | parte_con_array/driver.cpp:106-155 | a read only appends to the log and draws fresh ids |
| Codegen.LowerBinary | parte_con_array/driver.cpp:166-187 | a binary node only appends to the log and draws fresh ids |
| Codegen.LowerBoolean | parte_con_array/driver.cpp:708-729 | a boolean node only appends to the log and draws fresh ids |
| Codegen.LowerCall | parte_con_array/driver.cpp:200-226 | a call only appends to the log and draws fresh ids |
| Codegen.LowerIf | parte_con_array/driver.cpp:233-256 | a conditional only appends to the log and draws fresh ids |
| Codegen.LowerBranches | parte_con_array/driver.cpp:257-284 | the branches and merge of a conditional only append to the log and draw fresh ids |
| Codegen.LowerBlock | parte_con_array/driver.cpp:292-343 | a block only appends to the log and draws fresh ids |
| Codegen.LowerDefs | parte_con_array/driver.cpp:316-327 | block bindings only append to the log, and successful ones save exactly one handle per binding |
| Codegen.LowerAssign | parte_con_array/driver.cpp:548-598 | an assignment only appends to the log and draws fresh ids |
| Codegen.LowerFor | parte_con_array/driver.cpp:631-666 | a for-loop only appends to the log and draws fresh ids |
| Codegen.LowerLoop | parte_con_array/driver.cpp:668-702 | the loop proper only appends to the log and draws fresh ids |
| Codegen.LowerArgs | parte_con_array/driver.cpp:220-226 | a successful argument list yields exactly one operand per argument |
| Codegen.LowerStmts | parte_con_array/driver.cpp:331-336 | the statements of a block yield a value exactly when there is at least one statement |
| ExprFacts.StmtsValueIsLast | parte_con_array/driver.cpp:331-336 | statements that all succeed yield the value of the last one, in the state the last one leaves |
| ExprFacts.BlockValueIsLastStatement | parte_con_array/driver.cpp:316-343 | a successful block has at least one statement, its bindings and leading statements succeed, and its value is its last statement's value |
| Codegen.LowerBinding | parte_con_array/driver.cpp:355-383 | a binding that lowers yields the fresh slot it allocated |
| Codegen.LowerElems | parte_con_array/driver.cpp:364-374 | an array initialisation stores one value per element from the current index on, and 0.0 for every element past the initializer list |
| Ir.Put | parte_con_array/driver.cpp:338-340 | writing a saved handle back gives the name exactly that handle (a null handle unbinds it) and leaves every other name alone |
| TopLevel.LowerProto | parte_con_array/driver.cpp:404-441 | a prototype declares its name with its parameters and no body; a name the module already holds keeps its entry; the environment and the globals are untouched |
| Naming.Probe | parte_con_array/driver.cpp:423-424 | a taken name is renamed to itself followed by the decimal of a counter value above the last one used, and the result is free |
| Naming.NameArg | parte_con_array/driver.cpp:423-424 | an argument keeps its parameter's name when no earlier argument has it, and otherwise gets that name with a numeric suffix; either way the name is new |
| Naming.ArgNamesDistinct | parte_con_array/driver.cpp:423-424 | the arguments of a function end up with pairwise distinct names |
| Naming.ArgNamesKeepOrSuffix | parte_con_array/driver.cpp:423-424 | argument j is named after parameter j unless an earlier argument already has that name, in which case it is that name with a numeric suffix |
| Naming.ParamsAreNamed | parte_con_array/driver.cpp:423-424 | every parameter name is the name of some argument |
| Naming.RenamedNameIsRenamedAgain | parte_con_array/driver.cpp:423-424 | parameters `x x x1` are named `x`, `x1`, `x12`: the generated `x1` takes the third parameter's name, which is renamed in turn |
| TopLevel.BindParams | parte_con_array/driver.cpp:478-486 | registering the arguments draws exactly one fresh slot per argument and only appends to the log |
| TopLevel.ParamScope | parte_con_array/driver.cpp:478-486 | every argument name is bound to one of the fresh slots; every other name keeps its binding |
| TopLevel.ParamSlots | parte_con_array/driver.cpp:478-486 | the last argument carrying a name is bound under it to the slot drawn at its position |
| TopLevel.BindAll | parte_con_array/driver.cpp:478-486 | over the whole list: one fresh slot per argument, every argument name bound to one of them, every other name untouched |
| TopLevel.EntryState | parte_con_array/driver.cpp:449-486 | a function body is lowered with the function in the table (with a body), every argument name and every parameter name bound to a fresh slot, and every other binding left in place |
| TopLevel.EntrySlots | parte_con_array/driver.cpp:419-486 | in the entry state argument j is bound under its name to the j-th slot drawn after the entry block |
| TopLevel.LowerFunction | parte_con_array/driver.cpp:446-508 | defining a function only appends to the log, only draws fresh ids, and leaves the globals alone |
| TopLevel.LowerTop | parte_con_array/driver.cpp:60-68 | lowering any top-level node only appends to the log and only draws fresh ids |
| DeclFacts.RepeatedParameterNameIsFirst | parte_con_array/driver.cpp:419-486 | in `def f(x x)` the name `x` denotes the first parameter's slot, which the first argument is stored into |
| DeclFacts.GeneratedNameTakesLaterParameter | parte_con_array/driver.cpp:419-486 | in `def f(x x x1)` the names `x`, `x1` and `x12` denote the first, second and third parameter's slots |
| DeclFacts.FailedDefinitionKeepsParameter | parte_con_array/driver.cpp:478-507 | `def f(y) z` with `z` unknown fails, is erased, and leaves `y` bound to the slot `f` allocated for it |
| DeclFacts.ParameterlessRead | parte_con_array/driver.cpp:446-503 | a function without parameters whose body reads a bound name loads from that name's slot and returns the loaded value |
| DeclFacts.ErasedParameterStaysBound | parte_con_array/driver.cpp:478-507 | after `def f(y) z` fails and `f` is erased, `def g() y` loads from the slot `f` allocated for `y` and returns the value |
| TopLevel.LowerGlobal | parte_con_array/driver.cpp:514-530 | a global of a fresh name is added with the shape its size gives; a taken name keeps its global; the global's reference is the result |
| DeclFacts.GlobalThenElementRead | parte_con_array/driver.cpp:514-530 | after `global g[n]` of a fresh name, `g` resolves to that global with shape array-of-n exactly when n is positive; an element read of it then loads the element when n is positive and crashes when it is not |
| ExprFacts.BinaryOpcodeDomain | parte_con_array/driver.cpp:171-187 | a binary node accepts exactly the tags `+ - * / < =` |
| ExprFacts.ScalarReadResolution | parte_con_array/driver.cpp:135-153 | a scalar read loads from the local slot, else from the global, else fails with nothing emitted |
| ExprFacts.ElementReadResolution | parte_con_array/driver.cpp:108-134 | an element read lowers and converts its index first, then resolves the name local-first, then global, and loads that element; an unknown name fails, and storage allocated or declared as a scalar crashes |
| ExprFacts.ElementReadWithoutIndexCrashes | parte_con_array/driver.cpp:108-110 | an element read with no index expression dereferences null |
| ExprFacts.AssignValueFirst | parte_con_array/driver.cpp:549-553 | an assignment lowers its value first; if that fails nothing else is lowered and no store is emitted |
| ExprFacts.ScalarAssignResolution | parte_con_array/driver.cpp:581-595 | a scalar assignment stores into the local slot, else the global, and returns the stored value; an unknown name stores nothing |
| ExprFacts.AssignReturnsStored | parte_con_array/driver.cpp:548-598 | every successful assignment ends with a store, to where its name resolves, of exactly the value it returns |
| ExprFacts.BinaryLowersBothOperands | parte_con_array/driver.cpp:166-187 | both operands are lowered before either is checked; the node succeeds exactly when both do and the tag is supported, ending with one combining instruction |
| ExprFacts.BooleanOperators | parte_con_array/driver.cpp:708-729 | `N` negates its left operand, `A` and `O` combine both and crash without a right value, any other tag fails |
| ExprFacts.NotNeedsNoRightOperand | parte_con_array/driver.cpp:709-725 | a `not` without right operand succeeds exactly when its operand does, with one negation |
| ExprFacts.CallChecksCalleeFirst | parte_con_array/driver.cpp:206-212 | an unknown callee or an arity mismatch fails before any argument is lowered, leaving the state untouched |
| ExprFacts.CallAfterArguments | parte_con_array/driver.cpp:220-226 | a valid call succeeds exactly when all its arguments do, and ends with one call over their operands |
| ExprFacts.ArgsLeftToRight | parte_con_array/driver.cpp:221-225 | arguments are lowered left to right, and the first failure stops the rest |
| ExprFacts.IfBranchesOnCondition | parte_con_array/driver.cpp:237-256 | a conditional fails with its condition; otherwise it branches to fresh then/else blocks and fails with its then-branch |
| ExprFacts.IfMergesTwoValues | parte_con_array/driver.cpp:257-284 | a successful conditional ends in its merge block with a two-input phi: first the then-branch's value from the block the then-branch ends in, then the else-branch's value from the block it ends in, or 0.0 from the else block when there is no else |
| ExprFacts.BranchesMerge | parte_con_array/driver.cpp:257-284 | the same merge, stated for the branches once the condition is lowered |
| ExprFacts.ForInitMustBindOrAssign | parte_con_array/driver.cpp:650-661 | a loop initializer that is neither a binding nor an assignment fails the loop right after its init block is opened |
| ExprFacts.LoopShape | parte_con_array/driver.cpp:668-701 | condition, then body, then increment, each failing the loop; a complete loop yields 0.0 in its after block behind the back edge |
| DeclFacts.DefinitionOfTakenNameFails | parte_con_array/driver.cpp:449-456 | defining a name the module holds fails and changes nothing |
| DeclFacts.DefinitionOutcome | parte_con_array/driver.cpp:458-507 | a fresh definition adds the function with its body and returns it, or, when the body fails, leaves the function table as it was and logs the erasure |
| DeclFacts.ExternBlocksDefinition | parte_con_array/driver.cpp:449-456 | after an `extern` of a name, a definition of that name fails |
| DeclFacts.SequenceContinuesAfterFailure | parte_con_array/driver.cpp:60-68 | a sequence lowers its continuation after a failed first element, and never has a value |
| DeclFacts.EmptySequenceDoesNothing | parte_con_array/driver.cpp:60-64 | the chain terminator `Seq(null, null)` changes nothing |
| DeclFacts.SequenceWithoutRestCrashes | parte_con_array/driver.cpp:60-66 | a first element without a continuation dereferences null |
| Scoping.RestoreWritesBack | parte_con_array/driver.cpp:338-340 | writing back distinct names gives each its saved handle and leaves other names alone |
| Scoping.LowerKeepsScope | parte_con_array/driver.cpp:316-343 | a successful lowering keeps every existing binding, and leaves the environment unchanged when no for-loop inside binds a variable |
| Scoping.DefsKeepScope | parte_con_array/driver.cpp:316-327 | block bindings save each name's pre-block handle and make every bound name visible at a slot allocated by the block |
| Scoping.BlockKeepsScope | parte_con_array/driver.cpp:316-343 | a successful block with distinct binding names returns every name to its pre-block handle |
| Scoping.LoopKeepsScope | parte_con_array/driver.cpp:668-699 | the loop keeps every binding but the loop variable's, and writes a real shadowed handle back |
| Scoping.ForKeepsScope | parte_con_array/driver.cpp:648-699 | a successful for-loop keeps every existing binding |
| Scoping.LoopVariableAfterLoop | parte_con_array/driver.cpp:648-699 | a loop variable that shadowed a binding is restored; a fresh one stays bound to the loop's slot after the loop |
| Scoping.RepeatedNameLeaksFromBlock | parte_con_array/driver.cpp:325-340 | two bindings of one name leave the first inner slot bound after the block |
| Scoping.FailedBlockKeepsItsBindings | parte_con_array/driver.cpp:332-336 | a block whose statement fails leaves its bindings in the environment |
| Footprint.LowerConfined | parte_con_array/driver.cpp:108-729 | lowering any expression touches only slots bound on entry or allocated during it, binds names only to such slots, and keeps every handle below the counter |
| Footprint.VariableConfined | parte_con_array/driver.cpp:108-153 | a read touches only slots bound on entry or allocated while lowering its index, and binds nothing |
| Footprint.BinaryConfined | parte_con_array/driver.cpp:166-187 | a binary node touches only what its operands touch |
| Footprint.CallConfined | parte_con_array/driver.cpp:206-226 | a call touches only what its arguments touch |
| Footprint.IfConfined | parte_con_array/driver.cpp:237-284 | a conditional touches only what its condition and branches touch |
| Footprint.BlockConfined | parte_con_array/driver.cpp:316-343 | a block touches only slots bound on entry or allocated by it, and writes back only saved or fresh handles |
| Footprint.DefsConfined | parte_con_array/driver.cpp:316-327 | the handles a block saves are ones bound on entry, and its bindings name only fresh slots |
| Footprint.RestoreHandles | parte_con_array/driver.cpp:338-340 | after the write-back every handle is one that was bound before it or one that was saved |
| Footprint.BindingConfined | parte_con_array/driver.cpp:355-383 | a binding yields a slot allocated by it and touches only that slot and what its initializers touch |
| Footprint.AssignConfined | parte_con_array/driver.cpp:548-598 | an assignment touches only slots bound on entry or allocated while lowering its value and index |
| Footprint.LoopConfined | parte_con_array/driver.cpp:668-701 | after the initializer, the condition, body and step touch only slots reachable from the state before the loop, and the shadowed handle written back is one of them |
| Footprint.ForConfined | parte_con_array/driver.cpp:648-701 | a for-loop touches only slots bound on entry or allocated by it, including its loop variable's slot |
| Footprint.BooleanConfined | parte_con_array/driver.cpp:708-729 | a boolean node touches only what its operands touch |
| Footprint.ElemsStoreInOrder | parte_con_array/driver.cpp:364-374 | on a slot no one else can reach, the element stores are exactly one per element from the current index on, in index order, of the values returned |
| Footprint.ArrayBindingStoresEachElement | parte_con_array/driver.cpp:355-374 | a fresh array slot is touched by one `alloca` of N doubles and then by exactly N element stores, in index order, with 0.0 past the initializer list |
| Footprint.TopKeepsHandlesAllocated | parte_con_array/driver.cpp:446-508 | across prototypes, definitions, globals and sequences, every handle in the environment stays below the counter |
| Grammar.TruncateToInt | parte_con_array/parser.cpp:953-957 | an array size literal converts to `int` by truncation toward zero |
| Grammar.IdSeqKeepsSourceOrder | parte_con_array/parser.cpp:959-970 | prepending on each `idseq` reduction yields the parameters in source order |
| Grammar.RightListKeepsSourceOrder | parte_con_array/parser.cpp:972-983 | prepending on each `stmts` (and `explist`) reduction yields the items in source order |
| Grammar.VardefsKeepSourceOrder | parte_con_array/parser.cpp:1081-1094 | appending on each `vardefs` reduction yields the bindings in source order |
| Grammar.ProgramChainRoundTrip | parte_con_array/parser.cpp:893-909 | the program chain built from the top-level items reads back as exactly those items |
| GrammarFacts.StepStatementsReadModifyWrite | parte_con_array/parser.cpp:1057-1067 | `++x` and `--x` load `x`, add or subtract 1.0 and store back to the same place; an unknown name emits nothing |
| GrammarFacts.NegativeLiteralSubtractsFromZero | parte_con_array/parser.cpp:1156-1160 | `-n` lowers to the subtraction 0.0 - n |
| GrammarFacts.NegatedNameMultipliesByMinusOne | parte_con_array/parser.cpp:1234-1238 | `-x` lowers to a load of `x` times -1.0 |
| GrammarFacts.IfWithoutElseIsZeroElse | parte_con_array/parser.cpp:1015-1025 | an `if` without `else` lowers exactly as the conditional whose else is 0.0 |
| GrammarFacts.UninitialisedScalarCrashes | parte_con_array/driver.cpp:375-378 | `var x` with no initializer crashes its block right after allocating the slot |
| GrammarFacts.ElemsWithoutInitializers | parte_con_array/driver.cpp:366-373 | with no initializer list, the remaining elements are stored 0.0 one by one in index order |
| GrammarFacts.ArrayWithoutInitializersIsZeroFilled | parte_con_array/driver.cpp:364-379 | `var a[n]` allocates one slot of N doubles and zero-stores each element in order; a size of zero crashes |
| GrammarFacts.GrammarForInitsAreLowered | parte_con_array/parser.cpp:1033-1043 | a loop built from a binding lowers that binding in its init block and runs the loop with the name bound to its slot and the old handle saved; one built from an assignment lowers the assignment and runs the loop with nothing to restore; either fails as its initializer does |
| GrammarFacts.EmitFlagOnlyAffectsPrinting | parte_con_array/parser.cpp:929-940 | a definition marks its prototype no-emit, an extern keeps it, and the mark does not change lowering |
| GrammarFacts.ProgramLowersItemsInOrder | parte_con_array/driver.cpp:60-68 | a parsed program lowers its items in order on one state, a failure not stopping the rest, and has no value |
| ArrayLayout.AsWrittenStridesByWholeArray | parte_con_array/driver.cpp:372 | the one-index address of element i lies i whole arrays past the start |
| ArrayLayout.AsWrittenLeavesArray | parte_con_array/driver.cpp:579 | every nonzero index addresses outside the array |
| ArrayLayout.SecondElementOfPairOutOfBounds | parte_con_array/driver.cpp:132-133 | reading element 1 of a two-element local array loads 8 bytes at byte 16, past the end of the 16-byte array |
| ArrayLayout.LoggedElementAccessAsWritten | parte_con_array/driver.cpp:372 | an element load or store in the log with constant index n and array length N is addressed at byte 8·N·n, outside the array for every nonzero n |
| ArrayLayout.IntendedAddressesElement | parte_con_array/driver.cpp:127-133 | the corrected form of the element access written there: with indices 0 and i, element i is at byte 8·i, inside the array |
| ArrayLayout.IntendedElementsDisjoint | parte_con_array/driver.cpp:574-579 | the corrected form of the element store written there: with indices 0 and i, distinct elements occupy disjoint bytes |

## Left out

- Scanner, parser automaton and driver I/O (driver.cpp:36-45, the Bison tables and shift/reduce loop): they are file I/O and generated code. The model starts from the tree the reductions build.
- Textual emission to stderr (the `print(errs())` calls and the emit flag's effect): it is output only. The emit flag is kept in the tree, and its only observable role is shown not to affect lowering.
- LLVM's symbol table: functions and globals share one namespace in LLVM, where a clash renames the newcomer. The model keeps two tables and treats a taken name as "the table keeps its entry". Cross-kind clashes, such as a function named like a global, are not modelled.
- LLVM's local-name uniquing is modelled, not quoted, since LLVM is not part of this model: a taken name gets the next value of a counter kept per function and starting at 1, appended with no separator, retried until free. An empty parameter name, which the scanner cannot produce, is treated like any other name.
- TopLevel.LowerFunction: a failed definition erases its function (driver.cpp:506), which frees the allocas its parameter names are still bound to. A later read of such a name is modelled as an ordinary load from that slot, where the source reads freed memory. A read of a name bound by an earlier function that succeeded likewise loads from that function's slot, which is not valid IR; the model does not flag either case.
- Allocas are placed at the top of the entry block by the source. The model logs them where they are requested.
- `IRBuilder` constant folding is not modelled. Every operation is logged as an instruction even when its operands are constants.
- Instruction typing: values are untyped operands. The phi type check at driver.cpp:280 and the i32 conversions at driver.cpp:714-717 are not modelled; no expression yields an i32, so those conversions never fire.
- Floating-point arithmetic and the `FPToSI` index conversion: numbers are opaque constants, and the conversion is a logged `ToInt`.
- Array bounds are not checked, by design of the source. The byte-level addressing is examined separately (see Findings).
- Block attachment order, the position at which a basic block is attached to its function, is not modelled. The log records block entry only.
- `verifyFunction` (driver.cpp:497) is not modelled. Its result is ignored by the source.
- The structs' constructor default arguments (zero size, null index, no right operand) live in driver.hpp, which is not part of this model. They are taken from how the reductions call the constructors.
- Codegen.LowerElems: states the stored values' count and zero-fill, not that element i takes the value of the i-th initializer as lowered in the state reached at that point.
- Footprint.ArrayBindingStoresEachElement: states that the array's slot gets one store per element in index order, not that the k-th store's value is the k-th initializer's.
- ExprFacts.ElementReadResolution: storage with no logged `alloca`, such as a slot bound by a caller-supplied state, is read as an array. Element writes into scalar storage and scalar reads of array storage are not flagged, because instruction typing is not modelled.
- Codegen.Lower: its own contract states only the frame; what it computes is stated by the `ExprFacts`, `Scoping` and `Footprint` lemmas, one group per node kind.
- Codegen.LowerVariable: its own contract states only the frame; what it computes is stated by ExprFacts.ScalarReadResolution, ExprFacts.ElementReadResolution and ExprFacts.ElementReadWithoutIndexCrashes.
- Codegen.LowerBinary: its own contract states only the frame; what it computes is stated by ExprFacts.BinaryLowersBothOperands and ExprFacts.BinaryOpcodeDomain.
- Codegen.LowerBoolean: its own contract states only the frame; what it computes is stated by ExprFacts.BooleanOperators and ExprFacts.NotNeedsNoRightOperand.
- Codegen.LowerCall: its own contract states only the frame; what it computes is stated by ExprFacts.CallChecksCalleeFirst, ExprFacts.CallAfterArguments and ExprFacts.ArgsLeftToRight.
- Codegen.LowerIf: its own contract states only the frame; what it computes is stated by ExprFacts.IfBranchesOnCondition and ExprFacts.IfMergesTwoValues.
- Codegen.LowerBranches: its own contract states only the frame; what it computes is stated by ExprFacts.BranchesMerge and ExprFacts.IfMergesTwoValues.
- Codegen.LowerBlock: its own contract states only the frame; what it computes is stated by ExprFacts.BlockValueIsLastStatement and Scoping.BlockKeepsScope.
- Codegen.LowerAssign: its own contract states only the frame; what it computes is stated by ExprFacts.AssignValueFirst, ExprFacts.ScalarAssignResolution and ExprFacts.AssignReturnsStored.
- Codegen.LowerFor: its own contract states only the frame; what it computes is stated by ExprFacts.ForInitMustBindOrAssign, GrammarFacts.GrammarForInitsAreLowered and Scoping.ForKeepsScope.
- Codegen.LowerLoop: its own contract states only the frame; what it computes is stated by ExprFacts.LoopShape and Scoping.LoopKeepsScope.
- TopLevel.LowerFunction: its own contract states only the frame; the outcome is stated by DeclFacts.DefinitionOutcome and DeclFacts.DefinitionOfTakenNameFails.
- TopLevel.LowerTop: its own contract states only the frame; sequencing is stated by the DeclFacts sequence lemmas and GrammarFacts.ProgramLowersItemsInOrder.
- TopLevel.BindParams: its own contract states the frame and the slot count; the bindings are stated by TopLevel.ParamScope and TopLevel.ParamSlots, and the names by the `Naming` lemmas.
- Scoping.LowerKeepsScope: assumes blocks with distinct binding names and `not` without a right operand. The other cases are shown by the concrete leak lemmas instead.

## Findings

| source | as written | input that shows it | evidently intended | confidence | as-written member | corrected member |
|---|---|---|---|---|---|---|
| parte_con_array/driver.cpp:372 | array bindings store element i through a one-index in-bounds getelementptr over `[N x double]`, at byte 8·N·i | `var a[2] = {1, 2}` stores element 1 at byte 16 of a 16-byte slot | indices 0 and i, byte 8·i | high; not executed | ArrayLayout.AsWrittenLeavesArray | ArrayLayout.IntendedAddressesElement |
| parte_con_array/driver.cpp:127-132 | element reads of locals and globals use the same one-index address | reading `a[1]` of `var a[2]` loads past the array | indices 0 and i | high; not executed | ArrayLayout.SecondElementOfPairOutOfBounds | ArrayLayout.IntendedAddressesElement |
| parte_con_array/driver.cpp:574-579 | element assignments use the same one-index address | `a[1] = 3` on `var a[2]` stores past the array | indices 0 and i | high; not executed | ArrayLayout.AsWrittenStridesByWholeArray | ArrayLayout.IntendedElementsDisjoint |

The instruction log's `LoadElem` and `StoreElem` read and write element `index` of
their storage. That is the corrected addressing, `ArrayLayout.ElementOffset`, and
the rest of the model uses it.

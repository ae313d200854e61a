# The middle end of the Haard compiler, in Dafny

Haard's compiler lowers a function to an intermediate representation whose code is nested regions
-- `block`, `if`, `loop` -- verifies it, flattens it to basic blocks, and then interprets it,
writes it as x86-64 or, from the tree, as C++. This project models that path and the tables it
depends on, and proves what it is for.

| files | what they hold |
|---|---|
| `IrFunction`, `IrFlattener` | the IR's data; the pass that flattens it, as a class over its fields and as a specification |
| `IrInterpreter`, `StructuredMeaning`, `FlattenerInvariant`, `FlattenerPlaces`, `FlattenerMeaning` | the CFG as a machine, the structured form as a big-step meaning, where each block comes from, and that flattening preserves the meaning |
| `IrVerifier`, `VerifierSoundness` | the verifier of a CFG with its dominators, and what an accepted one never does |
| `FlattenerOrder`, `FlattenerScope`, `FlattenerVerified` | that what the verifier accepts before flattening it accepts after |
| `RealTime` | that real-time code ends |
| `HaardSource`, `Lowering`, `FunctionLowerer`, `LowererMeaning`, `CleanupMeaning`, `CleanupBalance` | statements and what they mean, their lowering with every scope's cleanups, and that cleanups balance in every run of the CFG |
| `CleanupTags`, `PlacesApart`, `CleanupPlaces` | that objects end in the places they were built in |
| `LoweredVerified` | that the verifier accepts what is lowered |
| `ElementLoops` | the loop over an array's elements, which never passes its bound |
| `IrBuilder` | the instruction lists, linked in place |
| `Layout`, `LayoutExact`, `LayoutSafety`, `LayoutLeaves`, `LayoutEmpties`, `IrLayoutTable` | layouts by section 2.4 of the Itanium C++ ABI, which they are and what they promise, and the table they are computed in |
| `ClassTable`, `ClassSlots` | slots, that dispatch agrees with walking the chain, and which slots there are |
| `CppGrammar`, `OperatorPrinter`, `PrinterReads`, `PrinterScans` | C++'s scanner and expression grammar, the printer of operators, and that what it writes is read back |
| `Words`, `IrArithmetic`, `IrOpcodes`, `WholeOperators` | machine words, the interpreter's arithmetic and what each opcode computes, and the operators written in IR and in C++ helpers |
| `X8664Machine`, `X8664Writer` | the part of an x86-64 machine the text uses, and the writer of a function's text |
| `X8664Simulates`, `X8664Meaning`, `X8664Labels`, `X8664TextLabels`, `X8664Runs`, `X8664Extends` | that each instruction's text simulates it, that every label is written once, and that the whole text runs as the interpreter runs the CFG |
| `CompiledRuns`, `BoundedLoops`, `WrittenOperators` | from a verified structured function to the machine; when a bound keeps the two apart; and the code written for `//` and `**`, run |
| `AstBuilder` | the syntax tree's child lists and `clone` |
| `Wrappers` | `Option` |

Code that changes fields or links in place is a class whose methods are proved against a
specification function, or a ghost account of the state; lemmas about the specification carry the
properties. An instruction's effect is a parameter wherever only control matters: the theorems
about flattening and the verifier hold for any meaning of the instructions.

## Where the code does not do what one would expect

- `UncheckedCallIsAccepted`: of a `vcall` that names no signature the verifier looks at the receiver alone, where the interpreter reads every argument. With the arguments a call gives, and an entry that is the body and takes none but those, this is exactly what acceptance does not cover (`CompletenessDecides`). An entry that takes block parameters is made by hand only: neither `begin_function` nor the flattener gives it any, and with as many arguments as parameters `CompletenessDecides` asks that it has none.
- `MisfitsDecide`: past its own vtable pointer a class may have a base with no data but arrays of length zero; the base then lies past the end (`BaseFitsExactly`). Where that base holds an empty record two of one type can meet, around every such class; everywhere else none do, and with no array of length zero there is no such class. The least is a class over a struct of an empty base and an array of no elements (`OverNoElementsMeets`).
- `BoolExtendedDiffers`: the x86-64 writer does not widen a bool, whose one bit the interpreter reads as a sign. Of what the verifier admits, only a true bool sign extended differs (`UnarySimulates`, `ComputeSimulates`); it rejects `ashr` and the ordered comparisons on bools, where the text would differ too (`BinarySimulates`, `ComparisonSimulates`).
- `WideConstantDiffers`: the verifier does not look at a constant's bits. Of one with bits above its width, divided by 1, the interpreter gives back every bit and the text those of the width.
- `SpinsApart`: the text counts no turns, so a loop the interpreter stops at its bound goes on: `^1: br ^2; ^2: br ^2`, with any bound on `^2`, stops and its text runs for ever. A run and its text come to the same exactly when no loop passes its bound (`TogetherExactly`, `CompiledRunsAreMeant`), and the functions whose loops carry one bound all do exactly when it is none (`BoundDecides`, `BoundDecidesCompiled`).
- `UncountedIsAccepted`: of a CFG of real-time code the verifier asks for a bound on every header, and not that every jump back is to one: `^1: br ^2; ^2: br ^2`, with no header, is accepted and runs for ever. One whose every jump back is to the header of a loop around it ends (`RealTimeCfgsEnd`), and what is flattened from a verified structured function always does (`RealTimeFunctionsEnd`).
- `FlattenIsAccepted`: the structured verifier accepts a body that can be fallen off; its CFG is accepted exactly when it cannot.

## Model

| member | source | states |
|---|---|---|
| `FlattenerMeaning.FlattenPreserves` | src/haard/ir/ir_flattener.cpp:15-138 | a structured function ends with a result -- a value given back, an abort, a loop past its bound, the end run off -- exactly when its CFG ends with it, whatever the instructions do; `break` and `continue` to any region around included |
| `FlattenerMeaning.FlattenPreservesDivergence` | src/haard/ir/ir_flattener.cpp:15-138 | one runs for ever exactly when the other does |
| `FlattenerMeaning.SimulatesFunction` | src/haard/ir/ir_flattener.cpp:15-47 | with any fuel the CFG gets as far as the structured form, and no further than it |
| `FlattenerMeaning.SimulatesCode` | src/haard/ir/ir_flattener.cpp:49-138 | a list of instructions is simulated from the block being written to where the pass stands after it, or to the region it leaves |
| `FlattenerMeaning.SimulatesRounds` | src/haard/ir/ir_flattener.cpp:100-123 | each round of a loop comes back to its header, whose count of turns is the rounds since the loop was last entered, and stops exactly past the bound |
| `FlattenerMeaning.GoesToHeader` | src/haard/ir/ir_interpreter.cpp:314-344 | a jump to a loop's header adds one turn while the run was inside the loop and starts again at none when it came from outside |
| `FlattenerMeaning.SimulatesIf` | src/haard/ir/ir_flattener.cpp:71-98 | an `if` runs the side its condition names and goes on in the block after it |
| `FlattenerMeaning.TakesJump` | src/haard/ir/ir_flattener.cpp:149-156 | a jump written for a frame is taken to the frame's block |
| `Flattener.IrFlattener.FlattenBlock` | src/haard/ir/ir_flattener.cpp:49-138 | walking a block's instructions leaves the fields of the pass as the specification's fold over them does |
| `Flattener.IrFlattener.FlattenFunction` | src/haard/ir/ir_flattener.cpp:15-47 | the pass gives the CFG the specification gives |
| `Flattener.IrFlattener.FindFrame` | src/haard/ir/ir_flattener.cpp:239-250 | the innermost frame of a region is found |
| `FlattenerInvariant.FlattenCodeKeeps` | src/haard/ir/ir_flattener.cpp:193-224 | whatever is walked, every pending block stays unwritten, and from the block being written `loop` and `outer` lead to exactly the headers of the loops around it, innermost first |
| `FlattenerPlaces.BlocksKeepTheirLoops` | src/haard/ir/ir_flattener.cpp:100-123 | in the CFG of every structured function each block of the order was written for code in some loops, and from it `loop` and `outer` lead to the headers of exactly these, innermost first, which are headers still and carry the bounds written on them |
| `FlattenerInvariant.SameLoopsAround` | src/haard/ir/ir_flattener.cpp:193-219 | following `loop` and `outer` from a block lists the same loops however the CFG grows |
| `FlattenerOrder.FlattenCodeOrderly` | src/haard/ir/ir_flattener.cpp:205-237 | every block is kept once, is pending or was dropped, and each kept one ends in one terminator |
| `FlattenerOrder.ClosedOrder` | src/haard/ir/ir_flattener.cpp:205-213 | the blocks kept are different ones, the entry first, each ends in its one terminator, and one dropped holds nothing and nothing jumps to it |
| `FlattenerOrder.WalkedOrderly` | src/haard/ir/ir_flattener.cpp:15-47 | when the body has been walked no block is pending |
| `FlattenerScope.FlattenCodeScoped` | src/haard/ir/ir_verifier.cpp:716-746 | the values a structured block sees are owned by blocks whose scope the new block is in |
| `FlattenerVerified.ScopeIsDominance` | src/haard/ir/ir_verifier.cpp:716-746 | what is visible by the scope rule dominates after flattening |
| `FlattenerVerified.ScopeIsOnPath` | src/haard/ir/ir_verifier.cpp:716-746 | every way to a block passes the blocks its scope sees |
| `FlattenerVerified.FallsExactly` | src/haard/ir/ir_flattener.cpp:226-237 | the pass goes on from a list exactly when the list can be fallen off |
| `FlattenerVerified.JumpsCounted` | src/haard/ir/ir_flattener.cpp:149-169 | a block after a region is jumped to exactly when a `break` of it is written |
| `FlattenerVerified.FlattenIsAccepted` | src/haard/ir/ir_verifier.cpp:84-169 | a structured function the verifier accepts flattens to a CFG it accepts if and only if its body cannot be fallen off |
| `FlattenerVerified.VerifiedFunctionsRunSafely` | src/haard/ir/ir_verifier.cpp:84-169 | so the flattened CFG of such a function, whose virtual calls have signatures, called with all its arguments, runs safely |
| `FlattenerVerified.FlattenAdmits` | src/haard/ir/ir_flattener.cpp:49-138 | flattening writes the list's own instructions, for each `if` a branch and for each region jumps, where in the source the `if` or the region is, and nothing else, and makes no value a parameter |
| `RealTime.RealTimeFunctionsEnd` | src/haard/ir/ir_verifier.cpp:160-163 | a structured function of real-time code that is verified ends, and its CFG does, whatever its instructions do |
| `RealTime.RealTimeCfgsEnd` | src/haard/ir/ir_verifier.cpp:104-108 | an accepted CFG of real-time code never runs for ever where every jump back in its order is to the header of a loop the jump is in |
| `RealTime.UncountedIsAccepted` | src/haard/ir/ir_verifier.cpp:84-131 | with a jump back to another block it may: a block that jumps to itself and is no header is accepted, and runs for ever |
| `Verifier.IrVerifier.ComputeDominators` | src/haard/ir/ir_verifier.cpp:766-820 | the iteration ends, and every block's set is exactly the blocks on every path to it |
| `Verifier.SettledIsDominance` | src/haard/ir/ir_verifier.cpp:766-820 | sets a round leaves as they are are path dominance, in both directions |
| `Verifier.SettledIsOnPath` | src/haard/ir/ir_verifier.cpp:766-820 | a settled set holds only what is on every path |
| `Verifier.RoundShrinks` | src/haard/ir/ir_verifier.cpp:785-815 | a block's new set is part of its old one and loses no dominator |
| `Verifier.IrVerifier.PredecessorsOf` | src/haard/ir/ir_verifier.cpp:766-784 | the blocks with an edge to a block, and no others |
| `Verifier.IrVerifier.VerifyCfg` | src/haard/ir/ir_verifier.cpp:84-131 | no error is reported if and only if every block is accepted |
| `Verifier.IrVerifier.VerifyBlock` | src/haard/ir/ir_verifier.cpp:84-131 | a block is accepted when it ends in its one terminator, its loop has a bound where one is needed, nothing in it jumps to the entry and each instruction is accepted |
| `Verifier.IrVerifier.VerifyInst` | src/haard/ir/ir_verifier.cpp:133-169 | an instruction is accepted when it has a place in the source, is no region's, ends its block if it is a terminator, and what is looked at of its operands and its targets is right |
| `Verifier.IrVerifier.VerifyOperands` | src/haard/ir/ir_verifier.cpp:690-714 | every operand looked at is visible where it is read, or is reported |
| `VerifierSoundness.AcceptedRunsAreSafe` | src/haard/ir/ir_verifier.cpp:84-169 | in every run of an accepted CFG that is complete each operand read was written in this call, neither the end of a block nor a region's opcode is come to, every instruction has a place in the source and every virtual call a receiver, and every jump gives its target one value for each parameter |
| `VerifierSoundness.CompletenessDecides` | src/haard/ir/ir_verifier.cpp:506-539 | the accepted CFGs that show the same of what the verifier does not look at -- the entry, its parameters, the function's, and virtual calls without a signature -- all run safely if and only if that is complete |
| `VerifierSoundness.UncheckedCallIsAccepted` | src/haard/ir/ir_verifier.cpp:506-539 | a virtual call without a signature is accepted with an argument given back only after it, which a run reads unwritten |
| `VerifierSoundness.VisibleIsWritten` | src/haard/ir/ir_verifier.cpp:716-746 | a visible value was written when a run comes to the instruction |
| `VerifierSoundness.EntryIsFirst` | src/haard/ir/ir_verifier.cpp:84-131 | a run of an accepted CFG is at its entry's instructions once, before all others |
| `VerifierSoundness.WatchingIsFaithful` | src/haard/ir/ir_interpreter.cpp:242-310 | recording what is written changes nothing of a run |
| `Interpreter.OneEnd` | src/haard/ir/ir_interpreter.cpp:278-299 | a run has one end |
| `CleanupPlaces.AlwaysInPlace` | src/haard/lowering/function_lowerer.cpp:574-638 | at every moment of every run of a function's CFG, also of one that never ends, each destructor that was called was given the place of its object, where that object was the last that was built and had not ended, and each constructor a place with no object |
| `CleanupPlaces.EveryPlaceIsLeft` | src/haard/lowering/function_lowerer.cpp:553-638 | a run that ends leaves no object in any place, and has come to what the function's statements do, each object in the slot it was given |
| `CleanupPlaces.PlacedEndlessTogether` | src/haard/lowering/function_lowerer.cpp:1117-1234 | it runs for ever exactly when they do |
| `CleanupPlaces.UnplacedFollows` | src/haard/lowering/function_lowerer.cpp:553-638 | where the program around does not see places, the CFG ends with the value of the function's own statements, having called, built and destroyed what they do in their order: each scope's objects the last registered first, whichever way it is left |
| `CleanupPlaces.EndAllInPlace` | src/haard/lowering/function_lowerer.cpp:589-609 | running cleanups ends what is live, each object in its own place, the last registered first, and clears the flags |
| `CleanupTags.FunctionIsTagged` | src/haard/lowering/function_lowerer.cpp:574-638 | every constructor and destructor call of the code is given the slot its object was declared with, on whatever way out of a scope it is written |
| `PlacesApart.BlockKeepsPlaces` | src/haard/lowering/function_lowerer.cpp:553-609 | statements whose objects have places of their own leave every place as they found it, however they are left |
| `PlacesApart.OccupiedFits` | src/haard/lowering/function_lowerer.cpp:574-609 | what is said of places is said of the trace: each object is built where the last event built none, and ended where the last event built it |
| `CleanupPlaces.FunctionSites` | src/haard/lowering/function_lowerer.cpp:611-638 | no two objects of a function are given one slot |
| `CleanupBalance.EveryRunBalances` | src/haard/lowering/function_lowerer.cpp:553-609 | told by the objects alone: in every run that ends each was destroyed as often as it was built, and at no moment more often |
| `CleanupBalance.EveryRunFollows` | src/haard/lowering/function_lowerer.cpp:94-99 | told by the objects alone: the CFG ends with the value of the function's statements and with their trace, whatever is called answers |
| `CleanupBalance.EndlessTogether` | src/haard/lowering/function_lowerer.cpp:1117-1234 | and runs for ever exactly when the statements do |
| `CleanupBalance.LoweredIsFlattenable` | src/haard/lowering/function_lowerer.cpp:553-572 | lowered code names only regions it is in |
| `LoweredVerified.LoweredIsVerified` | src/haard/ir/ir_verifier.cpp:716-746 | the structured verifier reports nothing about a lowered function: each value is given back once, a hoisted slot or flag is seen by whatever region reads it, and nothing follows a terminator |
| `LoweredVerified.LoweredIsAccepted` | src/haard/ir/ir_verifier.cpp:84-131 | so its CFG is accepted if and only if the body cannot be fallen off, and the CFG of one that gives nothing back always is |
| `LoweredVerified.LoweredRunsSafely` | src/haard/lowering/function_lowerer.cpp:94-99 | and then every run reads only what was written, and one that ends has given back the value of the statements and left their trace |
| `CleanupBalance.BlockBalances` | src/haard/lowering/function_lowerer.cpp:553-609 | a block leaves no object behind and ends none that was there, however it is left |
| `CleanupMeaning.FunctionRuns` | src/haard/lowering/function_lowerer.cpp:94-99 | the lowered body leaves its statements' trace and value, whatever the functions it calls answer, and a body that may end without saying so is given its `ret` |
| `CleanupMeaning.BlockRuns` | src/haard/lowering/function_lowerer.cpp:553-572 | a block left by falling through, `break`, `continue` or `return` has ended its locals, and the scopes out to where it goes |
| `CleanupMeaning.ReturnRuns` | src/haard/lowering/function_lowerer.cpp:1325-1355 | the value first, then every scope around, the innermost first |
| `CleanupMeaning.JumpRuns` | src/haard/lowering/function_lowerer.cpp:735-749 | a `break` and a `continue` end the scopes inside their loop, and no other |
| `CleanupMeaning.WhileRuns` | src/haard/lowering/function_lowerer.cpp:1117-1153 | a `while` tests, runs its body and goes round as its statements do |
| `CleanupMeaning.ForRuns` | src/haard/lowering/function_lowerer.cpp:1155-1234 | what a `for`'s head declares lives as long as the loop, and `continue` comes to the steps |
| `CleanupMeaning.IfRuns` | src/haard/lowering/function_lowerer.cpp:784-812 | a condition's temporaries end before either side runs |
| `CleanupMeaning.LetRuns` | src/haard/lowering/function_lowerer.cpp:611-638 | a local ends with the block around its statement, its initializer's temporaries with the statement |
| `CleanupMeaning.WholeRuns` | src/haard/lowering/function_lowerer.cpp:755-767 | an expression statement ends its own temporaries |
| `LowererMeaning.ExprRuns` | src/haard/lowering/function_lowerer.cpp:611-638 | an expression's code gives its value, and of the cleanups it registers exactly those of the objects it built are live |
| `LowererMeaning.LogicalRuns` | src/haard/lowering/function_lowerer.cpp:3157-3188 | the right side of an `and` or an `or` that never ran leaves the flags of its temporaries unset |
| `LowererMeaning.EndScopesRuns` | src/haard/lowering/function_lowerer.cpp:589-609 | the scopes down to a depth, the innermost first |
| `Lowerer.LetRegisters` | src/haard/lowering/function_lowerer.cpp:611-638 | a local is registered in the innermost scope that is not a statement's |
| `FunctionLowering.FunctionLowerer.RunCleanups` | src/haard/lowering/function_lowerer.cpp:589-609 | the two loops emit the cleanups of the scopes down to a depth in the specification's order |
| `FunctionLowering.FunctionLowerer.LowerChildren` | src/haard/lowering/function_lowerer.cpp:553-572 | statements are lowered up to one nothing comes after |
| `ElementLoops.ElementsAreTidy` | src/haard/lowering/function_lowerer.cpp:4310-4346 | a loop over elements around work that leaves the loop's own numbers alone and passes no bound never goes round more than its bound, the array's length, whatever else the work does |
| `ElementLoops.EachIsTidy` | src/haard/lowering/function_lowerer.cpp:4246-4261 | so for arrays of arrays of any depth, whatever is called for an element |
| `ElementLoops.EachIsVisited` | src/haard/lowering/function_lowerer.cpp:4246-4261 | over such an array every element is come to exactly once, in order, and the code goes on, unless a call stops the program, and then those before it were |
| `ElementLoops.VisitsAreARow` | src/haard/lowering/function_lowerer.cpp:4310-4336 | that order is the one the objects lie in, or backwards the opposite one |
| `ElementLoops.FlattenedVisits` | src/haard/lowering/function_lowerer.cpp:4310-4346 | and the flattened function does so and gives back, or stops where the call did, whichever calls stop |
| `ElementLoops.FlattenedEnds` | src/haard/lowering/function_lowerer.cpp:4310-4346 | whatever the calls do but write the loop's own numbers, the flattened function ends, one way, and not at a bound |
| `LayoutExact.LayoutIsExact` | src/haard/ir/ir_layout.cpp:152-231 | a record's layout is the one in which the base lies at 0 or past the vtable pointer, the first field at the least aligned and clear offset from where the base's data end -- its data size, or its size for a POD -- and each later one from the end of the one before, the data end with the last field, the alignment is the greatest and the size the least multiple of it: if and only if it is all that |
| `LayoutExact.TypeIsExact` | src/haard/ir/ir_layout.cpp:30-81 | a scalar and a pointer are as big as they are aligned, an array is its elements one after another, and a record is its layout |
| `LayoutExact.TailIsUsed` | src/haard/ir/ir_layout.cpp:161-181 | a derived class's first field begins at the first multiple of its alignment past its base's data, in the base's tail padding if it fits there |
| `LayoutExact.EmptiesAreThere` | src/haard/ir/ir_layout.cpp:292-324 | the empty records inside a record are itself, its base's where the base is, and each field's where that is |
| `LayoutExact.ElementsAreThere` | src/haard/ir/ir_layout.cpp:292-324 | and inside an array each element's |
| `LayoutExact.InsideIsFound` | src/haard/ir/ir_layout.cpp:326-340 | a record says it holds an empty record if and only if there is one inside |
| `LayoutLeaves.RecordIsApart` | src/haard/ir/ir_layout.cpp:152-231 | every scalar and vtable pointer of a record, at any depth, has aligned bytes of its own inside the record's data |
| `LayoutLeaves.LeavesAreApart` | src/haard/ir/ir_layout.cpp:30-81 | so has everything in any type, arrays included, inside the type's size |
| `LayoutSafety.BaseFitsExactly` | src/haard/ir/ir_layout.cpp:152-231 | the base's offset and size fit the record, if and only if it is not one with a vtable pointer of its own over a base whose data are arrays of nothing, with no field that has bytes |
| `LayoutSafety.PlaceIsClear` | src/haard/ir/ir_layout.cpp:265-290 | the offset found is aligned and puts no empty record on one of its type |
| `LayoutSafety.PlaceIsLeast` | src/haard/ir/ir_layout.cpp:265-290 | it is the least such offset |
| `LayoutSafety.LayoutIsSound` | src/haard/ir/ir_layout.cpp:205-231 | a size is a positive multiple of the alignment, and holds the data |
| `LayoutSafety.SizeFromData` | src/haard/ir/ir_layout.cpp:205-216 | a size is the data rounded up, or the alignment when there are none |
| `LayoutEmpties.EmptiesAreApart` | src/haard/ir/ir_layout.cpp:265-324 | no two empty records of one type share an address, at any depth, where no record inside is a misfit: one whose base lies outside it and holds an empty record |
| `LayoutEmpties.MisfitsDecide` | src/haard/ir/ir_layout.cpp:152-231 | for every record, the types around it whose other records are no misfits all keep their empty records apart if and only if it is none |
| `LayoutEmpties.LengthyIsSound` | src/haard/ir/ir_layout.cpp:265-324 | there is no misfit wherever no array has length zero |
| `LayoutEmpties.MisfitsMeet` | src/haard/ir/ir_layout.cpp:265-324 | around every misfit there is a type, of two structs one after the other, in which two empty records of one type share an address |
| `LayoutEmpties.OverNoElementsMeets` | src/haard/ir/ir_layout.cpp:152-231 | a class over a struct that holds an empty base and an array of no elements is a misfit, the records under it are none, and around it two empty records of one type meet |
| `LayoutEmpties.NothingToFind` | src/haard/ir/ir_layout.cpp:292-340 | looking only where an empty record is held finds them all |
| `LayoutTables.LayoutTable.LayOutAll` | src/haard/ir/ir_layout.cpp:18-28 | it succeeds if and only if no aggregate reaches itself by value, and then each layout is `LayoutOf`'s, the one `LayoutIsExact` says there is |
| `LayoutTables.LayoutTable.LayOut` | src/haard/ir/ir_layout.cpp:91-137 | an aggregate is laid out after everything it holds, once, and one met again while it is being laid out holds itself |
| `LayoutTables.LayoutTable.Place` | src/haard/ir/ir_layout.cpp:265-290 | the search ends, at the definition's offset, and the empty records placed are taken |
| `LayoutTables.LayoutTable.EmptiesOf` | src/haard/ir/ir_layout.cpp:292-324 | what is found is every empty record inside, moved to where the value is |
| `LayoutTables.TreesAreUnique` | src/haard/ir/ir_layout.cpp:91-137 | the layouts do not depend on the order the table lists the types in |
| `LayoutTables.TreesHoldOthers` | src/haard/ir/ir_layout.cpp:91-137 | what was laid out does not hold itself |
| `LayoutTables.TableKeepsEmptiesApart` | src/haard/ir/ir_layout.cpp:265-324 | in a table whose arrays have elements nothing laid out holds two empty records of one type at one address |
| `PrinterReads.TablesAgree` | src/haard/emitter/emitter.cpp:3548-3638 | the emitter's level of an operator is the one whose production in C++'s grammar has it |
| `PrinterScans.TwoOperators` | src/haard/emitter/emitter.cpp:3704-3721 | of any two binary operators between three names: how C++ groups them, and the emitter writes them bare exactly where that is the tree |
| `PrinterScans.TextReadsBack` | src/haard/emitter/emitter.cpp:3548-3721 | what is written for a tree of operators, by the emitter's own table of levels, is read by C++'s scanner and the productions of its grammar as that tree |
| `PrinterScans.ScansTree` | src/haard/emitter/emitter.cpp:4160-4187 | the longest-token scanner finds the tokens that were meant, none made longer by what is beside it |
| `PrinterScans.ScansPrefix` | src/haard/emitter/emitter.cpp:4160-4182 | a prefix operator is not glued to its operand's first character |
| `PrinterScans.GluedMinusIsAStep` | src/haard/emitter/emitter.cpp:4156-4171 | without the parentheses two minus signs would be read as a decrement |
| `PrinterReads.ReadsAt` | src/haard/emitter/emitter.cpp:3683-3721 | a tree is read back at its level and at any looser one |
| `PrinterReads.ReadsBinary` | src/haard/emitter/emitter.cpp:3704-3721 | a chain of operators that C++'s grammar has on one level is read as the tree it was written from, folded from the left |
| `PrinterReads.ReadsAssignment` | src/haard/emitter/emitter.cpp:3709-3721 | assignments fold from the right |
| `PrinterReads.ReadsOperand` | src/haard/emitter/emitter.cpp:3683-3692 | an operand looser than its place is wrapped, and read whole |
| `PrinterReads.ReadsPostfix` | src/haard/emitter/emitter.cpp:4184-4187 | a call, an index, a member or a step takes the whole of what it is written after |
| `Builder.IrBuilder.Emit` | src/haard/ir/ir_builder.cpp:370-405 | an instruction is linked at the end of its block, and every list stays linked both ways, each instruction in exactly one |
| `Builder.IrBuilder.MoveAfter` | src/haard/ir/ir_builder.cpp:408-443 | removed from its list and inserted after another, or first, also within one block |
| `Builder.IrBuilder.EntrySlot` | src/haard/ir/ir_builder.cpp:114-121 | a slot goes after the slots at the top of the body, wherever the builder is writing, and every other block's list stays |
| `Builder.IrBuilder.EntryFlag` | src/haard/ir/ir_builder.cpp:123-141 | a flag's slot with the slots, its zero and its store after them, before everything written; every other block's list stays |
| `Builder.IrBuilder.Begin` | src/haard/ir/ir_builder.cpp:236-278 | a region is emitted, and what follows is written in its body |
| `Builder.IrBuilder.End` | src/haard/ir/ir_builder.cpp:280-283 | back to the block the region was opened in |
| `Builder.Moved` | src/haard/ir/ir_builder.cpp:408-443 | moving keeps every other instruction where it was |
| `Builder.UnlinkKeeps` | src/haard/ir/ir_builder.cpp:413-424 | what pointed at the instruction points past it |
| `Builder.LinkKeeps` | src/haard/ir/ir_builder.cpp:426-442 | what is before and after the place points at it |
| `ClassSlots.SlotsAreDeclared` | src/haard/ir/ir_class_table.cpp:57-133 | a class's slots are one for its destructors and one for each different key among the virtual methods declared in it and above, in the order first declared, and each holds the last declared with its key |
| `ClassSlots.CallReachesLast` | src/haard/ir/ir_class_table.cpp:39-55 | a call through a class's slot reaches, in any class below it, the last method declared there or above whose name and parameters are the same |
| `ClassSlots.SameTypeIsEqual` | src/haard/ir/ir_class_table.cpp:161-188 | two types are the same if and only if they are equal once the modules that name nothing are set aside, at every depth |
| `ClassSlots.SameKeyIsEqual` | src/haard/ir/ir_class_table.cpp:136-159 | two methods override each other if and only if name and parameter types are equal so, whatever they give back |
| `ClassTables.SlotsAgree` | src/haard/ir/ir_class_table.cpp:57-133 | a class's slots keep the base's indexes and keys, each method has one, and each holds the method of the nearest class up the chain with its key; slot 0 the nearest destructor |
| `ClassTables.DispatchIsNearest` | src/haard/ir/ir_class_table.cpp:39-55 | a call through a class's slot reaches, in any class below it, the nearest override of the method called |
| `ClassTables.KeysAreEqual` | src/haard/ir/ir_class_table.cpp:136-159 | a method overrides what overrides it, and what a method it overrides does |
| `ClassTables.SameThrough` | src/haard/ir/ir_class_table.cpp:161-188 | types that are the same as a third are the same |
| `ClassTables.NearestSame` | src/haard/ir/ir_class_table.cpp:57-133 | the chain gives methods of one key the same slot |
| `ClassTables.IrClassTable.BuildClass` | src/haard/ir/ir_class_table.cpp:57-133 | the base's slots, then each member in turn, are the specification's |
| `ClassTables.IrClassTable.AddSlot` | src/haard/ir/ir_class_table.cpp:96-129 | a destructor takes slot 0, an override the slot it overrides, a new method one more |
| `ClassTables.IrClassTable.SlotOf` | src/haard/ir/ir_class_table.cpp:39-55 | the slot a candidate fills, and -1 only when it fills none |
| `ClassTables.IrClassTable.SameTypeAs` | src/haard/ir/ir_class_table.cpp:161-188 | two types are compared as `SameType` does, which `SameTypeIsEqual` says the meaning of |
| `ClassTables.IrClassTable.Build` | src/haard/ir/ir_class_table.cpp:18-26 | every class of the table is built |
| `IrArithmetic.ArithmeticMeans` | src/haard/ir/ir_interpreter.cpp:827-906 | every whole-number operator is the mathematics at every width: wrapping, truncation toward zero, the high halves, and shifts however far they go |
| `IrOpcodes.BinaryMeans` | src/haard/ir/ir_interpreter.cpp:827-1000 | what the interpreter computes, opcode by opcode, for every binary one: the sum, difference and product to the width, the truncated quotients and remainders, the high halves, the bits, the shifts, and the order of the numbers, signed or not |
| `IrOpcodes.UnaryMeans` | src/haard/ir/ir_interpreter.cpp:345-480 | and for every unary one: the negation, the complement, the low bits, the value and the signed value |
| `X8664Meaning.TablesAgree` | src/haard/backend/x86_64_writer.cpp:261-349 | what the x86-64 writer takes each opcode for is what the interpreter computes for it |
| `IrArithmetic.HighOfProduct` | src/haard/ir/ir_interpreter.cpp:59-72 | the high 64 bits of a product from 32-bit halves, no intermediate overflowing |
| `IrArithmetic.HighCorrected` | src/haard/ir/ir_interpreter.cpp:872-880 | the correction for negative operands gives the signed product's high half |
| `Words.WidenIsSigned` | src/haard/ir/ir_interpreter.cpp:1186-1194 | flipping the highest bit and taking it away reads a value as signed |
| `Words.FloorFromQuotient` | src/haard/lowering/function_lowerer.cpp:2682-2703 | the quotient rounded down is the truncated one, but one less where the division is inexact and the signs differ |
| `WholeOperators.FloorDividedMeans` | src/haard/lowering/function_lowerer.cpp:2682-2703 | the IR written for a floor division gives the floor, to the width, and aborts on zero |
| `WrittenOperators.FloorRuns` | src/haard/lowering/function_lowerer.cpp:2682-2703 | the eleven instructions written for a signed `//`, run, leave the quotient rounded down, to the width, and stop at the first division when the divisor is 0; no value before them changes |
| `WrittenOperators.FloorOnTheMachine` | src/haard/lowering/function_lowerer.cpp:2682-2703 | a function that gives that back, verified, flattened and written as x86-64: its text gives back the floor, and aborts on 0 |
| `WrittenOperators.PowerRuns` | src/haard/lowering/function_lowerer.cpp:2724-2777 | the code written for `**`, its two slots, its `if` and its loop, run, leaves the power to the width, and for a negative exponent the truncated quotient; no value before it and no other slot changes |
| `WrittenOperators.FlattenedPower` | src/haard/lowering/function_lowerer.cpp:2724-2777 | and the CFG it is flattened to gives it back |
| `WholeOperators.DivisionHelpersAgree` | src/haard/emitter/emitter.cpp:5687-5745 | the emitted signed division and remainder, and the floor division, cast back, are the interpreter's |
| `WholeOperators.UnsignedHelpersAgree` | src/haard/emitter/emitter.cpp:5706-5723 | the unsigned quotient and remainder, cast back, are the interpreter's and make up the dividend |
| `WholeOperators.ShiftHelpersAgree` | src/haard/emitter/emitter.cpp:5747-5766 | so are the emitted left and unsigned right shifts, over-wide and negative counts included |
| `WholeOperators.SignedShiftAgrees` | src/haard/emitter/emitter.cpp:5755-5759 | and the signed right shift |
| `WholeOperators.PowerHelper` | src/haard/emitter/emitter.cpp:5572-5595 | the emitted signed power wraps as the product does, and answers a negative exponent as 1 over the power |
| `WholeOperators.PowerHelperAgrees` | src/haard/emitter/emitter.cpp:5572-5595 | cast back, it is the power the IR computes |
| `WholeOperators.UnsignedPowerHelper` | src/haard/emitter/emitter.cpp:5597-5608 | the unsigned power, cast back |
| `CompiledRuns.CompiledRunsAreMeant` | src/haard/ir/ir_flattener.cpp:15-47 | a verified structured function, flattened and written as x86-64: it and its text end together, with the same value or an abort, or run for ever together, if and only if no loop of the run passes its bound |
| `BoundedLoops.BoundDecidesCompiled` | src/haard/ir/ir_interpreter.cpp:314-344 | the structured functions whose loops carry no bound but one number all run as their text does, in every run, if and only if that number is the one that stands for no bound |
| `X8664Runs.TogetherExactly` | src/haard/backend/x86_64_writer.cpp:122-164 | for an accepted function of constants, whole numbers, choices, branches and returns: the interpreter and the machine end together, with the same value or an abort, or run for ever together, if and only if no loop of the run passes its bound |
| `X8664Runs.TextIsUnbounded` | src/haard/backend/x86_64_writer.cpp:122-164 | with the bounds taken away the text is the same, and they always do: the machine never faults and never runs past the text |
| `BoundedLoops.BoundDecides` | src/haard/ir/ir_interpreter.cpp:314-344 | the CFGs whose loops carry no bound but one number all run as their text does, in every run, if and only if that number is the one that stands for no bound |
| `BoundedLoops.SpinsApart` | src/haard/ir/ir_interpreter.cpp:314-344 | a block that jumps to itself, with any bound: the interpreter stops past it, and the text runs for ever |
| `X8664Runs.MachineFollows` | src/haard/backend/x86_64_writer.cpp:152-161 | after any number of the interpreter's steps the machine is at the same place, every value written so far in its cell and below its width |
| `X8664Runs.BoundsOnlyStop` | src/haard/ir/ir_interpreter.cpp:314-344 | a bound does nothing but stop a run: till then the CFG without bounds, whose text is the same, runs as it does |
| `X8664Runs.JumpFollows` | src/haard/backend/x86_64_writer.cpp:410-439 | a branch goes to the text of the block the interpreter enters, and a return gives back its value |
| `X8664Labels.RunsInPlace` | src/haard/backend/x86_64_writer.cpp:251-259 | wherever an instruction's lines are in a text whose labels are written once, the machine does with them what they do by themselves, jumps to other blocks included |
| `X8664TextLabels.BlocksLabels` | src/haard/backend/x86_64_writer.cpp:251-259 | every label of a function's text is written once |
| `X8664Meaning.ComputeSimulates` | src/haard/backend/x86_64_writer.cpp:261-349 | each instruction the verifier's types admit, but a bool sign extended and a constant not below its width, leaves in its cell what the interpreter computes for its opcode and every other cell alone, or aborts as it does, and the value is below its width |
| `X8664Extends.BoolExtendedDiffers` | src/haard/backend/x86_64_writer.cpp:230-249 | a function the verifier accepts that gives back a true bool sign extended: the machine gives 1, the interpreter all ones |
| `X8664Extends.WideConstantDiffers` | src/haard/backend/x86_64_writer.cpp:503-550 | a function the verifier accepts that gives back a constant divided by 1: the machine gives the bits of the width and the interpreter all of them, the same if and only if the constant is below its width |
| `X8664Writer.X8664Writer.WriteBlocks` | src/haard/backend/x86_64_writer.cpp:152-161 | the loops over the order and each block's instructions append the function's text |
| `X8664Simulates.BinarySimulates` | src/haard/backend/x86_64_writer.cpp:446-582 | the text of every operator leaves the interpreter's value in the result's cell and every other cell alone, or aborts as the interpreter does, if and only if it is not a true bool shifted right by true as signed, which the verifier admits no instruction for |
| `X8664Simulates.DivisionSimulates` | src/haard/backend/x86_64_writer.cpp:503-550 | no division faults: by -1 the machine's is not used |
| `X8664Simulates.ShiftSimulates` | src/haard/backend/x86_64_writer.cpp:554-582 | counts from the width to 63 and past 63 |
| `X8664Simulates.ComparisonSimulates` | src/haard/backend/x86_64_writer.cpp:584-645 | a comparison's cell is 0 or 1 as the interpreter's, if and only if it is not a signed one of two different bools, which the verifier admits no instruction for |
| `X8664Simulates.UnarySimulates` | src/haard/backend/x86_64_writer.cpp:207-249 | negation, complement, truncation and extension, if and only if it is not a true bool sign extended |
| `X8664Simulates.SelectSimulates` | src/haard/backend/x86_64_writer.cpp:340-349 | the value the condition chooses |
| `X8664Writer.X8664Writer.LayOutFrame` | src/haard/backend/x86_64_writer.cpp:97-120 | value cells and slots are pairwise apart inside the frame, each slot aligned |
| `AstBuilders.AstBuilder.Clone` | src/haard/ast/ast_builder.cpp:31-49 | a copy in new nodes, its root with no sibling, every old node unchanged |
| `AstBuilders.CopyIsTree` | src/haard/ast/ast_builder.cpp:31-49 | the copy has the kinds, the tokens and the order of children of what it was copied from |
| `AstBuilders.AstBuilder.AddChild` | src/haard/ast/ast_builder.cpp:17-29 | a carried last child and 0 build the same list |
| `AstBuilders.ChildIsAdded` | src/haard/ast/ast_builder.cpp:542-551 | however many children the parent has, none included, the child is in the list then, after the others |
| `AstBuilders.AstBuilder.LastChildOf` | src/haard/ast/ast_builder.cpp:553-565 | the end of the list |

## Left out

- Flattener.FlattenCode: the instruction lists the flattener reads are linked by `next`, and its output's are sequences; the two-way links are `IrBuilder`'s, and are not carried into the flattened function.
- The flattener's 32-bit numbers are unbounded; the turns a loop counts are 32-bit and wrap, as in the interpreter.
- Verifier.IrVerifier.VerifyInst: the types of operands, of calls and of fields are not part of acceptance; accepted means visible operands, right targets and right shape. What `verify_types` asks of the instructions that have an x86-64 text is `Typed`.
- VerifierSoundness.CompletenessDecides: arguments past the last value of a callee, which the interpreter would write outside its frame, are not modelled.
- Verifier.IsVisible: in the structured form the walk from a block to its parents is given as the set of values seen, and the place in a list as an index; `comes_before` compares indexes.
- A block's owner fields that the flattener leaves stale, and the fallback of `frame_of` for a region that is not around, which no verified function reaches.
- CleanupMeaning.FunctionRuns: the receiver's slot, the destination and the parameters' copies are not lowered; statements are `if`/`else` (an `elif` is an `if` in the `else`), `while`, `for`, blocks, `let`, expressions, `return`, `break` and `continue`. `switch`, tuples, closures, moves and the named return value are left out, and so is the `failed` state, in which nothing that was emitted is kept.
- FunctionLowering.FunctionLowerer.Lower: the same, for the pass as a class.
- FunctionLowering.FunctionLowerer.GiveBack: a value is given back, and no struct into a destination nor a reference.
- FunctionLowering.FunctionLowerer.AddCleanup: every object modelled has a destructor, so the test for one is not there; a local is never registered on the conditional side of an expression, which the grammar has no way to write.
- FunctionLowering.FunctionLowerer.ValueOf: each method gives the code it emitted, to be put where the caller writes it; the builder's place in the function is modelled in `IrBuilder`. Every position is one constant.
- LoweredVerified.LoweredIsVerified: an object's constructor and destructor are given its place, and which object it is is the call's own number; a temporary's address is read from its place by an instruction, where the code hands on the place itself, and what the address is is asked of the program around.
- RealTime.RealTimeCfgsEnd: one way only; a CFG with a jump back to no header ends all the same where no cycle goes through that jump.
- CleanupPlaces.AlwaysInPlace: a constructor's and a destructor's own writes are not modelled, nor that an object holds its place's bytes: a place is a slot's number.
- An expression's calls answer what the trace before them says, so the values of variables and of memory other than the lowering's own slots are the caller's; a flag and an answer's slot are memory of the model.
- ElementLoops.EachIsVisited: `usize` is 64 bits wide; what is done to an element is one call on its address. The unbounded loops of `new` and `delete` over a length known only at run time are not modelled.
- Layout.LayoutOf: sizes are unbounded, where the code's are 32-bit and wrap for a type past four gigabytes; a scalar is 1, 2, 4 or 8 bytes and a pointer 8, as on every target there is.
- OperatorPrinter.Emitter.EmitExpression: names and whole numbers are one token each; strings, characters and floating literals, `sizeof`, `new`, `delete`, closures and the twin casts of wrapping arithmetic are not written. A cast's type is one word, and which words are types is given. A bare number has no member and is not stepped.
- CppGrammar.ReadLevel: the comma, the conditional and the pointers to members are left out of the grammar; the printer writes none.
- Builder.IrBuilder.Emit: an instruction's type, pool and position are not modelled, nor the CFG's own blocks and parameters.
- ClassTables.IrClassTable.BuildClass: that no class is above itself is given by a height for each, as the layouts establish it; `add_class` is left out.
- IrArithmetic.Arithmetic: a signed division by a number that is not 0 and whose bits of the width are 0, which no value below its width is and which the interpreter's own host does not define, gives 0; floats and the conversions to and from them are left out.
- X8664Runs.TogetherExactly: calls, slots, loads and stores, floats, the copies of arguments to their cells and the encoding of instructions are left out; each block is asked to be listed once.
- AstBuilders.AstBuilder.Clone: a node's number past the end, for which the code gives the unknown node back, is not asked for.
- The driver, the parser, the type phase, names and modules, files, the console, native functions and the dumps of the IR are no part of the model.

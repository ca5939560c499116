# Movy in Dafny

Movy fuzzes Move programs on Sui. It runs sequences of calls, follows each run with a symbolic shadow of the
Move operand stack, and mutates sequences while keeping account of the objects they make and consume. This project
models the parts of it that compute rather than talk to a node, a solver or a virtual machine, and proves what those
parts do: what they keep over whole runs, where they meet what they are for, and where they do not.

| files | what they model |
|---|---|
| `Bits`, `Smt`, `BitEncoding` | bitwise operations written with integer division and remainder only |
| `Trace`, `Shadow`, `Machine`, `Agreement`, `InstructionSoundness`, `ShadowSoundness` | the concrete trace, the shadow machine beside it, and their agreement over whole runs |
| `WhatIf` | what symbols and reported constraints mean under inputs other than the trace's own |
| `Abi`, `AbiLaws` | type signatures: matching, two-sided matching, substitution, embedding |
| `Sequences`, `Removal` | deleting a command from a sequence with everything that depends on it |
| `Objects`, `Ledger`, `LedgerLaws`, `HotPotatoes` | which objects a sequence has made and not consumed, and when the list of hot potatoes is right |
| `Conservation` | deletion and accounts together: linearity is kept, and which hot potatoes are left over |
| `AbilityLaws` | hot potatoes by abilities and names alone: what is listed, what a deletion takes along |
| `Candidates`, `Sampling`, `Construct`, `Filling`, `CallArguments`, `Appending` | choosing type arguments and objects for a call, and appending it |
| `Lending` | what a found call gives away, lends mutably or lends, by parameters, lists and owners on chain |
| `ModuleOrder`, `CallTree`, `TypeGraph` | dependency order, the tree of calls, who makes and who takes a type |
| `Cache`, `StageReplay` | the versioned overlay store and the stage replay state machine |
| `Wrappers`, `Keys` | an option type and the largest element of a set |

Every random pick of the source is an arbitrary pick here, so what is proved holds for all of them. `from_ptb` gives
nothing where the source panics, under exactly the stated condition; elsewhere conditions under which the source panics
are preconditions. Errors it returns are results. `eval` of an expression stands for what the solver takes it to mean,
with division and remainder by zero left arbitrary.

Properties that fail are kept as they are in the source, shown at an input, and given their exact condition:

- A comparison on a symbol pushes a symbol that says "as in the trace", which is 1 even where the comparison was
  false; it agrees with its slot exactly when the comparison was true (`ComparisonMeans`). The constraint reported for
  `Neq` on equal operands is false on the trace's own inputs; that of a left shift holds exactly when the shifted value
  leaves the word (`RunsAgree`, `TraceIsWitness`).
- Under any other inputs, a model satisfies the constraints of a run exactly if it meets every condition along the path
  of the trace, save that `Neq` on equal operands asks for the opposite and a left shift for an overflow
  (`ConstraintsMeanPath`, `ComparisonUnder`).
- Matching a struct against a tag looks only at the arguments both have (`SurplusArgumentIsLost`), so a match is undone
  by substitution exactly when the numbers of arguments agree (`MatchUndoneIffArityAgrees`). Two-sided matching finds a
  match of signatures with a common instance exactly when no type parameter meets an open signature other than a type
  parameter and references fit (`TwoSidedComplete`).
- The list of hot potatoes is that of the hot objects at hand exactly when as many of each type went stale as were
  overtaken (`ListRightIffBalanced`); in a linear sequence nothing does exactly when those who make and those who take
  an object agree on whether it is one (`CleanIffAgreeing`). They can disagree, since a struct put in for a type
  parameter counts as a hot potato whatever its abilities (`EmbeddedCountsAsHot`): then the list keeps a type for good
  (`StaleForGood`), the source panics (`GenericTakerPanics`) or another object's entry goes (`GenericTakerRobs`).
- Removing a call does not remove the maker of a hot potato that it takes under a type parameter
  (`GenericTakerLeavesPotato`); a removal leaves no new hot potato over exactly when no removed call takes one of a kept
  maker in such a way (`NothingNewLeftIff`).
- A read of the newest version through the cache finds the newest object held exactly when no newer version is buried
  or was missed by a child read, and asks the backing store otherwise (`NewestReadIff`). So a committed object vanishes
  (`HiddenByChildMiss`) and a deleted one comes back (`DeletedComesBack`). A remembered miss also answers for larger
  bounds (`NegativeChildSticks`). Reading by exact key is transparent (`RunTransparent`), unless a commit contradicts
  the backing history (`CommitOverHistoryIsLost`).
- A parameter gets no object exactly when it has no candidates or nothing suitable is left (`Filling.Fill`), and a list
  that is used up hides the chain (`UsedUpListHidesChain`). One object can be lent and then given away in the same call
  (`LoneObject`), but only in that order (`GivenTwice`).

## Model

| member | source | states |
|---|---|---|
| `BitEncoding.IntBvAndConst` | crates/movy-replay/src/tracer/concolic.rs:137-184 | builds the sum of the run terms, which `BvAndMeans` evaluates |
| `BitEncoding.CollectRuns` | crates/movy-replay/src/tracer/concolic.rs:148-176 | the nested loops over the mask collect exactly the run terms of its runs of ones |
| `BitEncoding.IntBvOrConst` | crates/movy-replay/src/tracer/concolic.rs:190-199 | the expression built is the one `BvOrMeans` evaluates |
| `BitEncoding.IntBvXorConst` | crates/movy-replay/src/tracer/concolic.rs:211-223 | the expression built is the one `BvXorMeans` evaluates |
| `BitEncoding.RunTermsMean` | crates/movy-replay/src/tracer/concolic.rs:148-183 | the run terms of any mask add up to the masked value, for every non-negative integer |
| `BitEncoding.BvAndMeans` | crates/movy-replay/src/tracer/concolic.rs:137-184 | for every integer, mask and width below 256, the div/mod encoding is the bitwise AND of the two words |
| `BitEncoding.BvOrMeans` | crates/movy-replay/src/tracer/concolic.rs:190-199 | likewise for OR |
| `BitEncoding.BvNotMeans` | crates/movy-replay/src/tracer/concolic.rs:203-207 | likewise for NOT |
| `BitEncoding.BvXorMeans` | crates/movy-replay/src/tracer/concolic.rs:211-223 | likewise for XOR |
| `Bits.AndBit` | crates/movy-replay/src/tracer/concolic.rs:133-137 | the reference AND sets bit i exactly when both operands do |
| `Bits.OrBit` | crates/movy-replay/src/tracer/concolic.rs:186-190 | the reference OR sets bit i exactly when either operand does |
| `Bits.XorBit` | crates/movy-replay/src/tracer/concolic.rs:209-211 | the reference XOR sets bit i exactly when one operand does and not the other |
| `Bits.NotBit` | crates/movy-replay/src/tracer/concolic.rs:201-203 | the reference NOT flips exactly the bits of the word |
| `Trace.TraceState.ApplyEvent` | crates/movy-replay/src/tracer/state.rs:104-194 | the new operand stack, frames and loaded objects after each event, writes through references and to objects included |
| `Trace.TraceState.WriteAt` | crates/movy-replay/src/tracer/state.rs:196-208 | a write to a part replaces the whole at its root, in a local or an object |
| `Trace.ReplacePuts` | crates/movy-replay/src/tracer/state.rs:196-208 | a write puts the value, or what it was seen to point to, at the root of the place and changes no other place; it panics exactly where there is nothing, or a local reference |
| `Shadow.ConcolicState.OnRawEvent` | crates/movy-replay/src/tracer/concolic.rs:329-365 | takes in pushes and pops of the trace, and whether to go on |
| `Shadow.ConcolicState.OnOpenFrame` | crates/movy-replay/src/tracer/concolic.rs:367-415 | arguments become locals: inputs for an outermost call, popped symbols otherwise |
| `Shadow.ConcolicState.OnBeforeInstruction` | crates/movy-replay/src/tracer/concolic.rs:421-1008 | new symbolic state and reported constraint of every instruction; what they mean under any inputs is `InstrUnder` |
| `Shadow.BuildBitExpr` | crates/movy-replay/src/tracer/concolic.rs:562-630 | the expression a bitwise instruction pushes |
| `Shadow.Notify` | crates/movy-replay/src/tracer/mod.rs:61-115 | the shadow machine sees each event before the concrete state takes it in |
| `Machine.EffectsExecute` | crates/movy-replay/src/tracer/state.rs:125-180 | the effects a trace emits for an instruction, applied one by one, amount to executing it |
| `Agreement.ComparisonMeans` | crates/movy-replay/src/tracer/concolic.rs:741-926 | on the trace's own values the pushed symbol always holds; it agrees with its slot exactly when the comparison was true; the reported constraint holds except for `Neq` on equal operands (`ComparisonUnder` for all values) |
| `Agreement.BinaryGood` | crates/movy-replay/src/tracer/concolic.rs:302-322 | every binary instruction pushes a symbol that means the concrete result, and its constraint has its expected truth value |
| `Agreement.MoveWidths` | crates/movy-replay/src/tracer/concolic.rs:251-265 | the bound used for left shifts is defined for every width a Move integer has |
| `InstructionSoundness.InstrGood` | crates/movy-replay/src/tracer/concolic.rs:448-1008 | every instruction, on a stack and locals that agree, leaves a stack that agrees, save for a false comparison on a symbol, and a constraint of the expected truth value |
| `InstructionSoundness.LocalsGood` | crates/movy-replay/src/tracer/concolic.rs:692-736 | and locals that agree |
| `InstructionSoundness.UndefinedIff` | crates/movy-replay/src/tracer/concolic.rs:118-223 | on Move's widths every instruction that runs is followed, save exactly for bitwise operations of one symbol and left shifts of a symbol by a constant on 256 bits |
| `ShadowSoundness.StepKeeps` | crates/movy-replay/src/tracer/concolic.rs:329-1008 | every step of a run keeps stack, locals and constraints in agreement with the trace, and the tracer does not panic |
| `ShadowSoundness.RunsAgree` | crates/movy-replay/src/tracer/concolic.rs:302-736 | over every run: equal heights, every symbol on the stack or in an initialised local evaluates to its concrete value, every constraint is true exactly when expected |
| `ShadowSoundness.TraceIsWitness` | crates/movy-replay/src/tracer/concolic.rs:472-926 | the trace's own inputs satisfy all constraints of a run other than left shifts and `Neq` on equal operands, and never the latter |
| `ShadowSoundness.OffForGood` | crates/movy-replay/src/tracer/concolic.rs:329-355 | an instruction met with unequal heights switches the shadow machine off; whatever follows, nothing in it changes and nothing is reported |
| `ShadowSoundness.AbortLevels` | crates/movy-replay/src/tracer/concolic.rs:356-361 | after a computing instruction that aborts, the error takes off the symbol pushed in advance and the heights match again |
| `WhatIf.ComparisonUnder` | crates/movy-replay/src/tracer/concolic.rs:741-926 | under every model the reported constraint holds exactly if the comparison comes out as in the trace, for `Neq` on equal operands exactly if it does not; the pushed symbol is 1 exactly if it comes out as in the trace, else 0 |
| `WhatIf.BinaryUnder` | crates/movy-replay/src/tracer/concolic.rs:472-926 | under every model, what a two-operand instruction pushes is its result on the operands' values, unknown exactly if no operand is followed or both are in an operation without an encoding; it reports a constraint exactly if the instruction imposes a condition |
| `WhatIf.InstrUnder` | crates/movy-replay/src/tracer/concolic.rs:421-1008 | every instruction, under every model: the symbols left are exactly the followed values, a constraint is reported exactly if a condition is imposed (comparison, cast, left shift) and holds exactly if it is met; only unpacking a variant of unknown size switches the tracer off |
| `WhatIf.StepUnder` | crates/movy-replay/src/tracer/concolic.rs:329-1008 | every step of a run keeps symbols and constraints to the values and conditions along the path, under every model |
| `WhatIf.ConstraintsMeanPath` | crates/movy-replay/src/tracer/concolic.rs:329-1008 | over every run and every model whatever: symbols are exactly the followed values along the path, the inputs are exactly the scalar parameters of the outermost calls, and a model satisfies all reported constraints exactly if every condition imposed along the path is met under it |
| `WhatIf.OwnPathIsTrace` | crates/movy-replay/src/tracer/concolic.rs:302-736 | under the trace's own inputs the values along the path are those of the trace |
| `WhatIf.EntryArguments` | crates/movy-replay/src/tracer/concolic.rs:367-395 | the inputs recorded for an outermost call are one variable for each parameter declared a scalar, and no other |
| `Abi.ExtractTyArgs` | crates/movy-types/src/abi.rs:670-738 | the recursive match with its loops equals the declarative match |
| `Abi.PartialExtractTyArgs` | crates/movy-types/src/abi.rs:740-834 | the two-sided match with its loops equals the declarative one |
| `Abi.MergeInto` | crates/movy-types/src/abi.rs:691-697 | bindings merge exactly when they agree, into their union |
| `AbiLaws.MatchThenSubst` | crates/movy-types/src/abi.rs:670-738 | with agreeing arities a match turns the signature back into the tag and binds exactly its type parameters |
| `AbiLaws.SubstThenMatch` | crates/movy-types/src/abi.rs:836-878 | what substitution makes matches with exactly the bindings of the parameters that occur |
| `AbiLaws.MatchIffSubst` | crates/movy-types/src/abi.rs:670-970 | matching and substitution are inverse, both ways |
| `AbiLaws.MatchUndoneIffArityAgrees` | crates/movy-types/src/abi.rs:689-701 | a match is undone by substitution exactly when arities agree |
| `AbiLaws.SurplusArgumentIsLost` | crates/movy-types/src/abi.rs:689-701 | an input on which a match is not undone |
| `AbiLaws.LossyRoundTrip` | crates/movy-types/src/abi.rs:908-957 | every tag survives embedding and substitution under any bindings |
| `AbiLaws.SubstTwice` | crates/movy-types/src/abi.rs:880-906 | partial substitution and then substitution is one substitution, the first bindings taking precedence |
| `AbiLaws.TwoSidedSound` | crates/movy-types/src/abi.rs:740-834 | whatever extends a two-sided match makes the same type of both signatures |
| `AbiLaws.TwoSidedComplete` | crates/movy-types/src/abi.rs:740-834 | signatures with a common instance match exactly when no type parameter meets an open signature other than a type parameter and references fit; the instance realises the match |
| `AbiLaws.MatchEmbedded` | crates/movy-types/src/abi.rs:740-834 | two-sided matching against an embedded tag is matching against the tag with agreeing arities |
| `Removal.GenRemoveIdxes` | crates/movy-fuzz/src/mutators/sequence.rs:73-179 | terminates; in range, without duplicates, increasing; closed; and only commands forced by the first one; by abilities `OnlyDependantsGo` |
| `Removal.RemoveEach` | crates/movy-fuzz/src/mutators/sequence.rs:121-126 | removes all commands listed, last first, passing over those already gone |
| `Removal.RemoveSplitsBefore` | crates/movy-fuzz/src/mutators/sequence.rs:132-145 | removes the run of splits before a command |
| `Removal.HotPotatoMakers` | crates/movy-fuzz/src/mutators/sequence.rs:154-167 | exactly the commands whose results the call takes through struct parameters that are hot potatoes as they stand, not those it takes under type parameters; by abilities `FeedsIff` |
| `Removal.RemovalIsLeastClosed` | crates/movy-fuzz/src/mutators/sequence.rs:73-179 | in a sequence of calls the removal is the least set with the command that is closed under users, hot-potato makers and splits before |
| `Removal.DropCommands` | crates/movy-fuzz/src/mutators/sequence.rs:203-205 | deleting by index from the back leaves exactly the other commands in order |
| `Removal.ShiftArgument` | crates/movy-fuzz/src/mutators/sequence.rs:208-228 | a result reference goes down by the number of removed commands before it |
| `Removal.ShiftCommand` | crates/movy-fuzz/src/mutators/sequence.rs:206-230 | renumbers all arguments of a call and leaves other commands alone |
| `Removal.ShiftCommands` | crates/movy-fuzz/src/mutators/sequence.rs:206-230 | renumbers every command in place |
| `Removal.KeptPosition` | crates/movy-fuzz/src/mutators/sequence.rs:210-216 | a kept command is found at its old position less the shift |
| `Removal.RebuiltPointsAlike` | crates/movy-fuzz/src/mutators/sequence.rs:203-230 | the kept commands keep their order and stay as they are, except that each result reference of a call points back to the command it pointed to before |
| `Removal.RemoveCommand` | crates/movy-fuzz/src/mutators/sequence.rs:181-233 | mutated exactly when something but not everything goes; unchanged if skipped; otherwise the rebuilt sequence |
| `AbilityLaws.SplitIff` | crates/movy-types/src/input.rs:614-618 | a split is a call of `split` in 0x2::coin or 0x2::balance |
| `AbilityLaws.FeedsIff` | crates/movy-fuzz/src/mutators/sequence.rs:154-167 | the makers looked for are those of results given to struct parameters with neither `drop` nor `store` that are not the context or a balance |
| `AbilityLaws.MakerGoesAlong` | crates/movy-fuzz/src/mutators/sequence.rs:128-167 | with a removed call go the makers of such results and the coin or balance split right before it |
| `AbilityLaws.OnlyDependantsGo` | crates/movy-fuzz/src/mutators/sequence.rs:73-179 | where no result goes to such a parameter and nothing is split, the removal is exactly the command with everything that depends on it, directly or not; makers of storable or droppable objects stay |
| `Ledger.FromPtb` | crates/movy-fuzz/src/mutators/object_data.rs:101-301 | gives a result exactly on the sequences on which the source does not panic; index of the objects at hand; hot potatoes plus those overtaken are those of hot objects at hand, hot vectors and what went stale, by abilities `NothingOnList` and `OnListIff`; used ids are gas and inputs |
| `Ledger.BookInputs` | crates/movy-fuzz/src/mutators/object_data.rs:120-150 | succeeds exactly when every object input can be looked up and has a supported owner, and lists each under its type with its gate |
| `Ledger.ConsumeArguments` | crates/movy-fuzz/src/mutators/object_data.rs:174-231 | succeeds exactly when every by-value argument can be taken, and books each out of index and hot potatoes |
| `Ledger.ProduceResults` | crates/movy-fuzz/src/mutators/object_data.rs:233-292 | succeeds exactly when all results instantiate; object results are listed, hot ones and hot vectors counted |
| `Ledger.TakeOut` | crates/movy-fuzz/src/mutators/object_data.rs:186-230 | succeeds exactly when the type is known and listed and a hot potato taken off is on the list; what leaves the objects and what leaves the list is accounted for side by side |
| `Ledger.BookCall` | crates/movy-fuzz/src/mutators/object_data.rs:151-293 | one call: arguments out, results in, or a panic exactly when stated |
| `Ledger.BookResult` | crates/movy-fuzz/src/mutators/object_data.rs:233-291 | one result: a vector counted if hot, a struct listed and counted if hot, anything else passed over |
| `Ledger.BookIn` | crates/movy-fuzz/src/mutators/object_data.rs:274-291 | one new object joins index and, if hot, the hot potatoes |
| `Ledger.BookVector` | crates/movy-fuzz/src/mutators/object_data.rs:234-268 | a vector is hot exactly when its struct elements cannot be dropped |
| `Ledger.Retain` | crates/movy-fuzz/src/mutators/object_data.rs:196 | keeps exactly the entries of other arguments, in order |
| `Ledger.RemoveFirst` | crates/movy-fuzz/src/mutators/object_data.rs:214-229 | takes one occurrence of the type from the hot potatoes |
| `LedgerLaws.TakesEarlier` | crates/movy-fuzz/src/mutators/object_data.rs:174-196 | in a linear sequence a call takes only inputs and earlier results |
| `LedgerLaws.MakerIsNamed` | crates/movy-fuzz/src/mutators/object_data.rs:269-282 | a lone result is named by its command, one of several by its command and place, and has the type that result instantiates to |
| `LedgerLaws.InputIdsIff` | crates/movy-fuzz/src/mutators/object_data.rs:118-133 | the objects in use are those of the object inputs |
| `LedgerLaws.StepLive` | crates/movy-fuzz/src/mutators/object_data.rs:151-293 | after one more command exactly what it took is gone and what it made is there |
| `LedgerLaws.LiveIffAlive` | crates/movy-fuzz/src/mutators/object_data.rs:101-301 | in every sequence an object is at hand, under its own type, exactly when it was introduced and not taken by value since |
| `LedgerLaws.LiveIffNeverTaken` | crates/movy-fuzz/src/mutators/object_data.rs:101-301 | in a linear sequence an object is at hand exactly when it was introduced and never taken by value |
| `LedgerLaws.TakenOnce` | crates/movy-fuzz/src/mutators/object_data.rs:188-203 | in a linear sequence no two commands take the same object |
| `LedgerLaws.ListedOnce` | crates/movy-fuzz/src/mutators/object_data.rs:279-282 | the index lists an argument under a type exactly when it is at hand with that type, and once |
| `LedgerLaws.ListRightIffBalanced` | crates/movy-fuzz/src/mutators/object_data.rs:289-291 | the list is that of the hot objects at hand and hot vectors exactly when, per type, as many went stale as were overtaken |
| `LedgerLaws.UnsettledIffDisagrees` | crates/movy-fuzz/src/mutators/object_data.rs:213-214 | one taking leaves the list wrong exactly when the signatures that make and take the object disagree |
| `LedgerLaws.CleanIffAgreeing` | crates/movy-fuzz/src/mutators/object_data.rs:213-214 | in a linear sequence nothing goes stale or is overtaken exactly when makers and takers agree |
| `LedgerLaws.AgreeingProceeds` | crates/movy-fuzz/src/mutators/object_data.rs:204-230 | on linear sequences whose makers and takers agree there is no panic, and the list of hot potatoes is right |
| `HotPotatoes.EmbeddedCountsAsHot` | crates/movy-fuzz/src/mutators/object_data.rs:270-291 | a struct under a type parameter is a hot potato exactly when it is neither the transaction context nor a balance |
| `AbilityLaws.HotPotatoIff` | crates/movy-types/src/abi.rs:560-581 | a hot potato is a struct, or a vector of such, with neither `drop` nor `store` that is not the context or a balance |
| `AbilityLaws.TakenByValueIff` | crates/movy-types/src/abi.rs:593-612 | a parameter is taken by value exactly if it is built of a struct or type parameter and is not the context |
| `AbilityLaws.NothingOnList` | crates/movy-fuzz/src/mutators/object_data.rs:233-292 | where all struct results have `drop` or `store`, nothing is made under a type parameter and no vectors of undroppable structs, the list of hot potatoes is empty |
| `AbilityLaws.OnListIff` | crates/movy-fuzz/src/mutators/object_data.rs:101-301 | in linear sequences whose makers and takers agree a type is on the list exactly if some result of that type with neither ability (or under a type parameter) is taken by no command, or is a vector of undroppable structs |
| `AbilityLaws.TakesHotIff` | crates/movy-fuzz/src/mutators/object_data.rs:204-230 | an object is taken off the list exactly if a result of the parameter's type would be put on it, and it is no input |
| `AbilityLaws.NamesAgree` | crates/movy-fuzz/src/mutators/object_data.rs:186-292 | makers and takers agree where all objects are made and taken by name and a name stands for one declaration |
| `HotPotatoes.StaleForGood` | crates/movy-fuzz/src/mutators/object_data.rs:213-230 | a linear sequence on which nothing is left and the list still has a type |
| `HotPotatoes.GenericTakerPanics` | crates/movy-fuzz/src/mutators/object_data.rs:218-228 | a linear sequence on which the source panics |
| `HotPotatoes.GenericTakerRobs` | crates/movy-fuzz/src/mutators/object_data.rs:213-217 | a linear sequence without a panic on which a hot object is at hand and the list is empty |
| `Conservation.RemovalKeepsLinear` | crates/movy-fuzz/src/mutators/sequence.rs:181-233 | removing a command from a linear sequence leaves a linear sequence |
| `Conservation.RemovalKeepsAgreeing` | crates/movy-fuzz/src/mutators/sequence.rs:181-233 | makers and takers that agreed still agree, so the accounts of what is left come out right |
| `Conservation.LeftOverNow` | crates/movy-fuzz/src/mutators/sequence.rs:203-230 | after a removal exactly those hot potatoes of kept makers are left over that no kept call takes |
| `Conservation.NothingNewLeftIff` | crates/movy-fuzz/src/mutators/sequence.rs:181-233 | a removal leaves no hot potato over that was not left over before, exactly when no removed call takes one of a kept maker through a parameter that is not a hot-potato struct as it stands |
| `Conservation.StrayUnderTypeParameter` | crates/movy-fuzz/src/mutators/sequence.rs:155-160 | where makers and takers agree, such a taking is under a type parameter |
| `Conservation.GenericTakerLeavesPotato` | crates/movy-fuzz/src/mutators/sequence.rs:154-160 | a linear sequence and a removal after which a hot potato is left over that was used up before |
| `Candidates.IntersectGenerics` | crates/movy-fuzz/src/mutators/object_data.rs:328-344 | the loop computes the intersection that the next two rows characterise |
| `Candidates.IntersectionIsUnion` | crates/movy-fuzz/src/mutators/object_data.rs:328-344 | the result is m exactly when m contains each choice and binds nothing else |
| `Candidates.IntersectionFails` | crates/movy-fuzz/src/mutators/object_data.rs:334-338 | there is a result exactly when the choices are pairwise compatible |
| `Candidates.InProduct` | crates/movy-fuzz/src/mutators/object_data.rs:349-351 | the product has exactly the one-per-row choices |
| `Candidates.GetTyArgsCandidates` | crates/movy-fuzz/src/mutators/object_data.rs:346-354 | the unions of the combos of the product, in order |
| `Candidates.CandidatesAreUnions` | crates/movy-fuzz/src/mutators/object_data.rs:346-354 | the candidates are exactly the unions of compatible one-per-row choices |
| `Candidates.CandidatesExist` | crates/movy-fuzz/src/mutators/object_data.rs:346-354 | there are candidates exactly when some one-per-row choice has no contradiction |
| `Sampling.SampleFromChain` | crates/movy-fuzz/src/mutators/object_data.rs:404-452 | exactly the matches, with the demanded abilities, against types of which the chain has a usable object |
| `Sampling.SampleFromList` | crates/movy-fuzz/src/mutators/object_data.rs:455-494 | exactly the matches, with the demanded abilities, against types under which a promising object is listed |
| `Sampling.SampleObject` | crates/movy-fuzz/src/mutators/object_data.rs:709-725 | both together, the chain only for types with the key ability |
| `Sampling.MatchInScope` | crates/movy-fuzz/src/mutators/object_data.rs:418-421 | a match binds only type parameters that occur, so indexing the abilities is in range |
| `Construct.WantOf` | crates/movy-fuzz/src/mutators/object_data.rs:676-703 | a parameter always asks for a struct, by value exactly when it is one; which objects will do is `WantIs` |
| `Construct.WantInstantiates` | crates/movy-fuzz/src/mutators/object_data.rs:682-700 | instantiating what is asked for is instantiating the parameter with fixed bindings added |
| `Lending.WantIs` | crates/movy-fuzz/src/mutators/object_data.rs:41-80 | `T` and `&mut T` take no immutable object, listed or of the chain, `&T` takes any; of the chain only the fuzzer's own and shared ones beside |
| `Lending.AbilityIff` | crates/movy-fuzz/src/mutators/object_data.rs:373-400 | the abilities of a type argument: a struct's as declared, a vector's and a primitive's all but `key`, a signer's `drop` |
| `Lending.FitsIff` | crates/movy-fuzz/src/mutators/object_data.rs:411-423 | a tag fits exactly if it matches with types that have every ability demanded |
| `Lending.ServedIff` | crates/movy-fuzz/src/mutators/object_data.rs:404-492 | a parameter has candidates exactly if a fitting type has: for `T` a listed owned object, for `&mut T` a listed one that is not immutable, for `&T` a list; or, if the struct has `key`, a usable object of the chain |
| `Construct.PartialSubstContains` | crates/movy-types/src/abi.rs:880-906 | after partial substitution exactly the type parameters that were not fixed remain |
| `Construct.FindRows` | crates/movy-fuzz/src/mutators/object_data.rs:706-740 | the candidates of the rows are exactly the unions of one contribution per parameter; missing are those without any |
| `Construct.Serve` | crates/movy-fuzz/src/mutators/object_data.rs:772-865 | gives an object whenever one is left: a listed one, or an unused one of the chain as a new input |
| `Filling.StepKeepsServing` | crates/movy-fuzz/src/mutators/object_data.rs:750-866 | each step keeps: listed exactly if listed at the start and not consumed, fresh identities, exclusive arguments, well-served parameters |
| `Filling.Fill` | crates/movy-fuzz/src/mutators/object_data.rs:748-866 | one answer per parameter; none exactly when there are no candidates or nothing suitable is left; by-value and imported arguments are not given again; imported objects distinct, unused and each for a parameter |
| `Filling.LoneObject` | crates/movy-fuzz/src/mutators/object_data.rs:772-806 | two parameters of a type with a single listed object: the second gets it too exactly if it was only lent |
| `Filling.UsedUpListHidesChain` | crates/movy-fuzz/src/mutators/object_data.rs:797-806 | a second by-value parameter gets nothing once the only listed object is given away, though the chain has an unused one |
| `Filling.GivenTwice` | crates/movy-fuzz/src/mutators/object_data.rs:784-795 | an object goes to two parameters only if the first was lent it and it is one of the sequence |
| `CallArguments.FilledWellTyped` | crates/movy-fuzz/src/mutators/object_data.rs:759-866 | every argument found is of the type its original parameter has under chosen and fixed bindings |
| `CallArguments.ChosenTypeIsOffered` | crates/movy-fuzz/src/mutators/object_data.rs:745-761 | substitution of the chosen bindings cannot fail and gives a type on offer that the parameter matched |
| `CallArguments.ChosenHasAbilities` | crates/movy-fuzz/src/mutators/object_data.rs:418-423 | every chosen binding has the abilities its type parameter demands |
| `CallArguments.SampleType` | crates/movy-fuzz/src/mutators/object_data.rs:356-371 | a sample type of exactly these abilities, or u64 if there is none |
| `CallArguments.TypeArguments` | crates/movy-fuzz/src/mutators/object_data.rs:869-878 | chosen bindings first, then fixed ones, else a sample type of the abilities demanded |
| `CallArguments.TryConstructArgs` | crates/movy-fuzz/src/mutators/object_data.rs:634-891 | unsolvable exactly when a parameter is of another kind or no choice is compatible; otherwise arguments of the types the original parameters have under the returned type arguments, one each if Ok, some missing if partial; who is given what is `GivenChangeable`, `GoesWithoutIff` |
| `Lending.SolvableIff` | crates/movy-fuzz/src/mutators/object_data.rs:676-748 | there is a result exactly if every parameter is a struct or a reference to one and one binding on offer per parameter can be chosen without contradiction |
| `Lending.GivenChangeable` | crates/movy-fuzz/src/mutators/object_data.rs:772-865 | in every result what a parameter `T` or `&mut T` is given is not immutable: by its listed gate, or by the owner of the object brought in |
| `Lending.ImportedAsOwned` | crates/movy-fuzz/src/mutators/object_data.rs:807-865 | what is brought in is an unused object of the parameter's type that it may use, when none of the type is listed; a shared one by initial version and mutably, another by version and digest |
| `Lending.GoesWithoutIff` | crates/movy-fuzz/src/mutators/object_data.rs:748-866 | a parameter goes without exactly if nothing was on offer or nothing it could use is left; `&T` of a listed type only if all objects of the type were given away before |
| `Lending.ListedGate` | crates/movy-fuzz/src/mutators/object_data.rs:134-150 | inputs are listed as owned, immutable or shared exactly as their owner on chain is, results as owned |
| `Lending.NothingImmutableChanged` | crates/movy-fuzz/src/mutators/object_data.rs:634-891 | a call appended with arguments found for it takes no object by value or by `&mut` that is immutable on chain |
| `Lending.BoundHasAbility` | crates/movy-fuzz/src/mutators/object_data.rs:411-423 | every chosen type argument has each ability demanded of it |
| `CallArguments.ChooseTypes` | crates/movy-fuzz/src/mutators/object_data.rs:705-745 | type arguments are chosen exactly when some are choosable, and are |
| `CallArguments.Conclude` | crates/movy-fuzz/src/mutators/object_data.rs:868-890 | a full result exactly if no parameter is missing, with type arguments that contain chosen and fixed bindings |
| `CallArguments.AccountsAreProper` | crates/movy-fuzz/src/mutators/object_data.rs:634-647 | what `from_ptb` lists for any sequence is a start on which all this holds |
| `Appending.LinearWithMore` | crates/movy-fuzz/src/mutators/object_data.rs:151-203 | a linear sequence is linear with more inputs |
| `Appending.AppendKeepsLinear` | crates/movy-fuzz/src/mutators/object_data.rs:634-891 | appending a call with the arguments, type arguments and inputs found for it gives a linear sequence again |
| `ModuleOrder.CollectModulesRec` | crates/movy-static-analysis/src/sui/common.rs:96-126 | terminates on every store, cyclic or not, and explores exactly what the module reaches |
| `ModuleOrder.CollectModules` | crates/movy-static-analysis/src/sui/common.rs:128-139 | lists exactly the available modules reachable from the root, once each, root last |
| `ModuleOrder.OrderedIffAcyclic` | crates/movy-static-analysis/src/sui/common.rs:114-125 | every module comes after all its available dependencies exactly when no cycle is reachable |
| `CallTree.TreeTracer.OnRawEvent` | crates/movy-replay/src/tracer/tree.rs:274-284 | only the first error is recorded, with the path at that moment |
| `CallTree.TreeTracer.CloseFrame` | crates/movy-replay/src/tracer/tree.rs:261-270 | the current frame gets its results; at depth zero nothing happens |
| `CallTree.TreeTracer.Notify` | crates/movy-replay/src/tracer/tree.rs:273-297 | one step of the tree, keeping the invariant |
| `CallTree.TreeTracer.ErrorTrace` | crates/movy-replay/src/tracer/tree.rs:188-216 | an error trace is printable whenever an error is recorded, and names the frames of its path |
| `CallTree.StepFaithful` | crates/movy-replay/src/tracer/tree.rs:248-284 | every event keeps the path valid and the tree true to the stream |
| `CallTree.RunFaithful` | crates/movy-replay/src/tracer/tree.rs:84-105 | for every stream, the path is valid and the tree's brackets are the stream less closings at depth zero |
| `CallTree.ErrorStays` | crates/movy-replay/src/tracer/tree.rs:274-284 | a recorded error path names the same frames for the rest of the run |
| `CallTree.FirstErrorIsTraced` | crates/movy-replay/src/tracer/tree.rs:197-216 | the error trace shows the frames open at the first error, whatever follows |
| `CallTree.NoErrorNoTrace` | crates/movy-replay/src/tracer/tree.rs:197-198 | a stream without an error has no error trace |
| `CallTree.ReadBack` | crates/movy-replay/src/tracer/tree.rs:248-270 | tracing the brackets of a tree anew builds the same tree |
| `CallTree.FilteredPrints` | crates/movy-replay/src/tracer/tree.rs:141-160 | the filtered view prints exactly the included frames, in call order, each nested under exactly its included callers |
| `TypeGraph.MoveTypeGraph.MayAddTy` | crates/movy-analysis/src/type_graph.rs:196-205 | one node per type, edges untouched |
| `TypeGraph.MoveTypeGraph.AddLink` | crates/movy-analysis/src/type_graph.rs:95-108 | one more link between a type and a function, nothing else changed |
| `TypeGraph.MoveTypeGraph.AddFunction` | crates/movy-analysis/src/type_graph.rs:82-110 | the graph's links are those of the functions added |
| `TypeGraph.MoveTypeGraph.AddModule` | crates/movy-analysis/src/type_graph.rs:112-122 | a module is added once |
| `TypeGraph.MoveTypeGraph.Find` | crates/movy-analysis/src/type_graph.rs:130-194 | finds, as a multiset, what a scan of all parameters or returns of all added functions would |
| `TypeGraph.EdgesOf` | crates/movy-analysis/src/type_graph.rs:140-150 | the edges of one type in the direction asked for, with the filters |
| `TypeGraph.MoveTypeGraph.FindConsumers` | crates/movy-analysis/src/type_graph.rs:130-154 | the brute-force consumers, with the visibility filter |
| `TypeGraph.MoveTypeGraph.FindProducers` | crates/movy-analysis/src/type_graph.rs:156-194 | the brute-force producers of the dereferenced type, with visibility, exclusion and framework filters |
| `TypeGraph.IndexInjective` | crates/movy-analysis/src/type_graph.rs:196-205 | two types never share a node |
| `TypeGraph.SelectIndexed` | crates/movy-analysis/src/type_graph.rs:136-152 | going type by type over the index misses no link and counts none twice |
| `TypeGraph.LinkIff` | crates/movy-analysis/src/type_graph.rs:82-110 | the links are those of the parameters, by value, reference or mutable reference, and of the results of the functions added |
| `TypeGraph.ConsumerIff` | crates/movy-analysis/src/type_graph.rs:130-154 | found as consumers exactly the functions added with a parameter, by value or reference, of a matching type; public ones if so asked |
| `TypeGraph.ProducerIff` | crates/movy-analysis/src/type_graph.rs:156-194 | found as producers exactly those with such a result, other than the excluded one, and of 0x1, 0x2, 0x3 and 0xd only five constructors |
| `Cache.CachedStore.GetObject` | crates/movy-sui/src/database/cache.rs:161-180 | the newest cached object, else the backing store's, which is then cached |
| `Cache.CachedStore.GetPackageObject` | crates/movy-sui/src/database/cache.rs:132-157 | likewise, with errors passed on |
| `Cache.CachedStore.GetObjectByKey` | crates/movy-sui/src/database/cache.rs:181-206 | the object last committed at the key, otherwise the backing store's |
| `Cache.CachedStore.GetObjectReceivedAtVersion` | crates/movy-sui/src/database/cache.rs:219-255 | by exact version, misses passed on; over runs `ReceivedReadIff` |
| `Cache.CachedStore.ReadChildObject` | crates/movy-sui/src/database/cache.rs:257-321 | hits only at the bound itself; negative answers remembered at the bound; over runs `ChildReadIff` |
| `Cache.CachedStore.CommitSingleObject` | crates/movy-sui/src/database/cache.rs:325-332 | caches the object under its own id and version |
| `Cache.CachedStore.Bury` | crates/movy-sui/src/database/cache.rs:357-361 | a tombstone at the key |
| `Cache.CachedStore.CommitWritten` | crates/movy-sui/src/database/cache.rs:340-343 | caches every object written |
| `Cache.CachedStore.BuryInputs` | crates/movy-sui/src/database/cache.rs:345-362 | one tombstone per input that went, at the version first listed |
| `Cache.CachedStore.BuryEnded` | crates/movy-sui/src/database/cache.rs:364-385 | one tombstone per ended stream, at the transaction's version |
| `Cache.CachedStore.CommitStore` | crates/movy-sui/src/database/cache.rs:333-389 | writes, then tombstones, then endings, keeping exact-key reads right |
| `Cache.ByKeyTransparent` | crates/movy-sui/src/database/cache.rs:181-206 | exact-key reads of a consistent cache are transparent |
| `Cache.ReadKeeps` | crates/movy-sui/src/database/cache.rs:131-322 | every read keeps the cache consistent with the commits so far |
| `Cache.WriteKeeps` | crates/movy-sui/src/database/cache.rs:325-389 | every commit new to the backing history keeps the cache consistent |
| `Cache.RunConsistent` | crates/movy-sui/src/database/cache.rs:131-390 | every run of reads and commits new to the backing history stays consistent |
| `Cache.RunTransparent` | crates/movy-sui/src/database/cache.rs:131-390 | after every such run an exact-key read gives the last object committed there, otherwise the backing store's; objects sit under their own id and version |
| `Cache.NegativeKeepsObjects` | crates/movy-sui/src/database/cache.rs:315-320 | a negative child entry never overwrites an object |
| `Cache.BoundIsFree` | crates/movy-sui/src/database/cache.rs:67-83 | where the newest entry up to a bound is no hit for it, nothing is cached at the bound |
| `Cache.CommitOverHistoryIsLost` | crates/movy-sui/src/database/cache.rs:312-314 | why committed keys must be new: a commit over a different object of the backing history can be lost to a child read |
| `Cache.EntryOfRun` | crates/movy-sui/src/database/cache.rs:89-94 | after every run the cache holds at a key what the run last recorded there |
| `Cache.NewestReadIff` | crates/movy-sui/src/database/cache.rs:58-83 | after every run a newest-version read finds the newest object held exactly when no newer version is buried or missed, otherwise it asks the backing store |
| `Cache.NothingHeld` | crates/movy-sui/src/database/cache.rs:174-179 | where no object is held the backing store is asked |
| `Cache.ChildReadIff` | crates/movy-sui/src/database/cache.rs:257-321 | after every run a child read gives the ideal object where one is held at the bound, nothing where the newest key recorded up to the bound is buried or missed, and the backing store's answer otherwise |
| `Cache.ReceivedReadIff` | crates/movy-sui/src/database/cache.rs:219-255 | after every run a read of a received object gives the ideal object where one is held at the key, and the backing store's answer otherwise |
| `Cache.TombstonesIff` | crates/movy-sui/src/database/cache.rs:345-362 | buried are exactly the inputs listed as gone, each at the version it is first listed with |
| `Cache.HiddenByChildMiss` | crates/movy-sui/src/database/cache.rs:309-319 | a committed object that was never deleted vanishes from newest-version reads after a child miss at a newer bound, and is still there by key |
| `Cache.DeletedComesBack` | crates/movy-sui/src/database/cache.rs:161-180 | after a commit and a deletion a newest-version read answers with the backing store |
| `Cache.NegativeChildSticks` | crates/movy-sui/src/database/cache.rs:269-276 | a remembered negative answer stands up to the next cached version, and is right exactly when the backing store still has nothing |
| `StageReplay.Replayer.DecideNext` | crates/movy-fuzz/src/mutators/utils.rs:54-113 | new state and action of a decision; over runs `ReplayedIff` |
| `StageReplay.RunsAreSane` | crates/movy-fuzz/src/mutators/utils.rs:34-133 | in every run attempts stay below 30 |
| `StageReplay.ReplayIsCovered` | crates/movy-fuzz/src/mutators/utils.rs:54-113 | a replay is of the cached sequence, at a stage not beyond the reported one, for the same mutator and fingerprint |
| `StageReplay.CachedIff` | crates/movy-fuzz/src/mutators/utils.rs:54-133 | after every run from the start, cached is exactly the argument of the last success, unless the sequence changed since; the fingerprint is that of the last decision |
| `StageReplay.ReplayedIff` | crates/movy-fuzz/src/mutators/utils.rs:54-113 | after every run from the start a decision replays a snapshot exactly if it is told of a stage under the own kind and of no other sequence, and the snapshot is the last success of that sequence; any other decision is fresh and restarts counting |
| `StageReplay.ReplayedAfterWait` | crates/movy-fuzz/src/mutators/utils.rs:91-108 | how many decisions it takes exactly until a stage is replayed first |
| `StageReplay.EveryStageReplayed` | crates/movy-fuzz/src/mutators/utils.rs:91-108 | under a steady report s >= 1 any s + 29 decisions replay every stage 0..s |
| `StageReplay.BoundIsTight` | crates/movy-fuzz/src/mutators/utils.rs:101-103 | s + 28 decisions can miss stage 0 |

## Left out

- RPC, GraphQL, the command line, compilation, deployment, the Move VM, the Z3 solver and the parsing of its models.
- The RocksDB store, whose key encoding is not visible; `reset`, `dump_snapshot` and `restore_snapshot` of the cache, which only copy maps.
- Integer widths of indices and versions: command, input and type parameter indices and versions are unbounded naturals; they coincide with the source's up to 65536 commands and 2^64 versions.
- BitEncoding.BvAndMeans: widths of 256 and more are excluded, because two to the power 256 leaves the source's number type there.
- ShadowSoundness.RunsAgree: runs have no instructions on references, as the shadow machine does not write back through them; a run ends at an abort; the result of a comparison that was false must be consumed by the next branch or pop, since its symbol does not stand for its value; bitwise operations and left shifts of a symbol with a constant are on words below 256 bits.
- ShadowSoundness.TraceIsWitness: says nothing of left-shift constraints, which claim an overflow that need not have happened; `RunsAgree` says exactly when they hold.
- WhatIf.ConstraintsMeanPath: values that the shadow machine does not follow, such as loaded constants, results of natives and contents of structs, are those of the trace, and the path is over the steps of `RunsAgree`.
- AbilityLaws.OnListIff: for linear sequences whose makers and takers agree; `UnsettledIffDisagrees` and `ListRightIffBalanced` say what happens in others.
- Flash loans in the mutators: the provider is always absent, and `finish` is commented out.
- Removal.RemovalIsLeastClosed: for sequences of calls; other commands are neither scanned for uses nor renumbered by the source.
- Ledger.FromPtb: the `balances` and `key_store_objects` lists are not modelled, and neither are receiving inputs, on which the source panics.
- The abilities of structs are given for every struct name; the source panics on an unknown one.
- CallArguments.TryConstructArgs: a tag that matches a parameter must have as many type arguments as the parameter, and the pool must be right about the types of objects; looking up an object twice gives the same answer, so the two error returns after the pick cannot occur.
- Appending.AppendKeepsLinear: for functions all of whose parameters take objects; plain values in between are left out.
- `try_construct_args_from_db`, which samples in the same way without a sequence, `from_ptb_and_remove_used` and `update_score`.
- ModuleOrder.CollectModules: a fetch must return the module asked for; errors of a fetch, which end the collection, are left out.
- Labels and layout of printed call trees; the frames printed, their order and their nesting are modelled.
- The mutators' append, hook and remap helpers, the oracles, static detectors and scheduling weights.

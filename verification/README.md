# Kernel and runtime algorithms in Dafny

A model of the proof kernel and of two parts of the runtime, with proofs of the properties the code
relies on. Paths below are relative to the root of the repository.

What is modelled, from the bottom up:

- **Universe levels** (`Names`, `Levels`, `LevelNormalizer`, `LevelComplete`, `LevelInstantiate`): the
  denotation of levels with imax a 0 = 0, the simplifying constructors, the total order used for
  sorting, the buffer-based normaliser, and the equivalence and order tests. Meaning is preserved, the
  tests are sound, and exact on levels without imax, and the order test terminates although it
  normalises again at every call.
- **Terms** (`Exprs`, `DeBruijn`, `ExprFacts`, `ExprGraph`, `ReplaceFn`, `ExprEq`): the de Bruijn
  algebra as equations between plain structural passes; the memoised, range-pruned traversals and
  structural equality over acyclic graphs of shared nodes, equal to the plain definitions for every
  choice of which nodes count as shared.
- **Reduction and conversion** (`Congruence`, `Conversion`, `ConversionFacts`, `Beta`, `BetaZeta`,
  `Telescope`): definitional equality as the least congruence containing beta, zeta, delta, eta,
  metadata erasure, literals, projections of constructors and levels of equal value. Batched beta,
  batched types of applications and telescopes are compared with their one-step versions.
- **The type checker's conversion test** (`UnionFind`, `EquivManager`, `HeadPaths`, `Resting`,
  `Literals`, `CheckerState`, `Joins`, `EtaJoins`, `TypeChecker`): classes with the caches, the local
  context and the equivalence manager as fields. Every result and every cached result is reachable by
  reduction and weak head normal, and is where contraction and closed arithmetic lead; every positive
  answer of the equality test is a derivable equality; nothing learned is ever invalidated. `Joins`
  defines, without mention of the checker, pairs of terms that head steps bring together: no caching,
  no failure cache, no choice of the side to unfold and no order of the tests makes the answer on such
  a pair negative.
- **Metavariables** (`MVarContext`, `MVarFacts`, `InstantiateMVars`, `MVarSaturation`, `MVarMeaning`):
  instantiation that rewrites its own context is compared with recursion against the original context;
  its result is definitionally equal to its argument, and it is settled when every resolvable delayed
  metavariable has the arguments it needs.
- **Nested inductive types** (`NestedTerms`, `NestedSpec`, `NestedInverse`, `NestedElim`, `NestedKeys`,
  `NestedTyped`, `NestedRun`, `NestedWitness`): elimination with its queue of types, which gives every
  nested occurrence a replacement of its type, restoration, and the round trip with the exact
  condition on the declaration for it to be the identity.
- **Multi-precision arithmetic** (`MpnValue`, `Mpn`, `MpnBits`, `MpnKnuth`, `MpnDivision`,
  `MpnPrint`): Knuth's algorithms A, S, M and D (section 4.3.1 of The Art of Computer Programming,
  volume 2) on arrays of 32-bit digits with 64-bit intermediates, and decimal printing.
- **Page allocator** (`LinkedLists`, `PageLists`, `AllocState`, `AllocLayout`, `Allocator`): pages,
  per-heap lists, export and import between heaps, orphan heaps. Over every run of every number of
  threads one invariant holds, no object is lost, every object cut out of a page is in exactly one
  place, and the objects handed out do not overlap.
- **Compactor** (`CompactFormat`, `CompactHeaders`, `CompactSharing`, `Compactor`, `CompactReader`,
  `CompactRoundTrip`): what is below a root of the object graph, and nothing else, is written with
  maximal sharing and read back, relocated, at any address.

Conventions. A method follows the code; the function it is proved equal to, or the lemmas about that
function, say what the result means. Fields named `ghost` record history the program does not keep
(the table of all let-variables, where each memory object is, which pairs were learned). Tests on
object identity, sharing and likely-unshared nodes are nondeterministic choices that imply only what
the code may use; in level updates, where their outcome matters, it is modelled exactly and
`MVarFacts.LFullSame` says what it is.

Places where the code does less than its comments or names suggest:

- The search for an existing auxiliary type compares nested types without binder names
  (kernel/inductive.cpp, line 981). Restoration therefore returns the declared constructor types up to
  binder names. `NestedRun.AddInductive` states when they are returned exactly: any two nested
  occurrences in the declared constructors, over common parameters and with heads of one mutual
  declaration, that agree up to binder names must have equal parameters.
  `NestedWitness.BinderNamesAreLost` runs both passes on a declaration that violates this,
  `T.mk : L (fun x : Type => T) -> L (fun y : Type => T) -> T`.
- One pass of `instantiateExprMVars` need not be the last one. A delayed metavariable is live when its
  pending value is known and free of metavariables; it is resolved exactly when it has at least
  max(1, number of its variables) arguments (`MVarSaturation.LiveResolvedIff`; kernel/instantiate_mvars.cpp,
  line 295, and line 315 for a metavariable that is not applied). When that holds of every live
  metavariable in the term and in the assignments, one pass is the last one
  (`MVarSaturation.FullIdempotent`). The error branch of line 295 can make it fail for the term
  (`MVarMeaning.DelayedNeedsSecondPass`), and the values of metavariables in the rewritten context can
  change when an assignment violates it (`MVarMeaning.UnsaturatedAssignment`), but only then
  (`MVarSaturation.FullRewritten`).
- `apply_beta` with zeta need not reach the head normal form of an application of lambdas: when an
  argument comes to the head that could itself take the next argument, it stops. `BetaZeta.AllStepsIff`
  says that this is the only way to stop early, and `BetaZeta.StopsEarly` gives an application on which
  it does.
- The order test on levels may miss an inequality that involves imax (`LevelComplete.IMaxIncomplete`).

## Model

| member | source | states |
|---|---|---|
| Names.NameOrder | therom ai/src/util/name.cpp:191-215 | name comparison is a strict total order with the anonymous name least |
| Levels.EvalMkMax | therom ai/src/kernel/level.cpp:81-104 | `mk_max` has the value of the maximum whichever simplification fires |
| Levels.EvalMkIMax | therom ai/src/kernel/level.cpp:112-123 | `mk_imax` has the value of imax, where imax a 0 = 0 |
| Levels.IsNotZeroSound | therom ai/src/kernel/level.cpp:160-172 | a level reported as not zero is positive under every assignment |
| LevelComplete.IsNotZeroExact | therom ai/src/kernel/level.cpp:160-172 | and the other way round: a level that is positive under every assignment is reported as not zero |
| Levels.ToOffset | therom ai/src/kernel/level.cpp:67-74 | the loop strips all successors and counts them |
| Levels.MkSuccTimes | therom ai/src/kernel/level.cpp:431-437 | k successors are put around the level |
| Levels.NormOrder | therom ai/src/kernel/level.cpp:376-403 | `is_norm_lt` is a strict total order, zero is least, and succ l comes immediately after l |
| LevelNormalizer.PushMaxArgs | therom ai/src/kernel/level.cpp:405-412 | collects the leaves of nested maxima, left to right |
| LevelNormalizer.SortUnique | therom ai/src/kernel/level.cpp:459 | the sorted arrangement of a buffer of levels is unique, so the result does not depend on the sorting algorithm |
| LevelNormalizer.Normalize | therom ai/src/kernel/level.cpp:439-501 | the buffer-based normaliser computes the recursive normal form |
| LevelNormalizer.NormalFormMeaning | therom ai/src/kernel/level.cpp:439-501 | normalising preserves the value of every level under every assignment, including dropped explicit levels and pushed successors |
| LevelNormalizer.IsEquivalentSound | therom ai/src/kernel/level.cpp:503-506 | levels reported equivalent have the same value under every assignment |
| LevelNormalizer.NormalFormNodes | therom ai/src/kernel/level.cpp:439-501 | normalising never adds max or imax nodes, and when it removes none the successor offset does not grow: why the order test, which normalises at every call, terminates |
| LevelNormalizer.IsGeqCoreSound | therom ai/src/kernel/level.cpp:508-525 | a positive answer on normalised levels means greater or equal under every assignment |
| LevelNormalizer.IsGeqSound | therom ai/src/kernel/level.cpp:527-529 | the same for the entry point that normalises first |
| LevelComplete.IsGeqExact | therom ai/src/kernel/level.cpp:508-529 | on levels without imax the order test is right both ways: it answers true if and only if the first level is at least the second under every assignment |
| LevelComplete.IMaxIncomplete | therom ai/src/kernel/level.cpp:515-529 | with imax it is not: it denies that the successor of imax u v is at least imax u v |
| LevelComplete.IsEquivalentExact | therom ai/src/kernel/level.cpp:439-506 | on levels without imax normal forms are canonical: two levels are reported equivalent if and only if they have the same value under every assignment |
| LevelInstantiate.InstantiateMeaning | therom ai/src/kernel/level.cpp:246-325 | instantiating parameters and evaluating is evaluating under the extended assignment, for any outcome of the pointer tests |
| LevelInstantiate.DecLevelMeaning | therom ai/src/library/util.cpp:122-146 | a decremented level is one less at every assignment |
| LevelInstantiate.DecLevelIff | therom ai/src/library/util.cpp:122-146 | there is a decremented level exactly when every argument of nested max and imax is positive under every assignment |
| Exprs.GetAppArgs | therom ai/src/kernel/expr.cpp:231-240 | returns the head and all arguments in order |
| Exprs.GetAppRevArgs | therom ai/src/kernel/expr.cpp:257-264 | returns the head and all arguments last first |
| Exprs.BuildRevApp | therom ai/src/kernel/expr.cpp:216-224 | applies to arguments stored last first |
| Exprs.AppSpine | therom ai/src/kernel/expr.cpp:216-282 | taking a spine apart and rebuilding it gives the term back |
| DeBruijn.LowerLift | therom ai/src/kernel/expr.cpp:417-467 | lowering at s + d by d undoes lifting at s by d |
| DeBruijn.LiftLower | therom ai/src/kernel/expr.cpp:417-467 | lifting undoes lowering when the indices in between do not occur |
| DeBruijn.InstSplit | therom ai/src/kernel/instantiate.cpp:15-42 | simultaneous instantiation equals instantiating in two batches |
| DeBruijn.InstInst | therom ai/src/kernel/instantiate.cpp:15-42 | substitution lemma: two instantiations commute with the second applied to the terms of the first |
| DeBruijn.OpenClose | therom ai/src/kernel/abstract.cpp:14-32 | abstracting fresh distinct variables undoes instantiating with them |
| DeBruijn.CloseOpen | therom ai/src/kernel/instantiate.cpp:99-118 | instantiating with the variables undoes abstracting them, on closed terms |
| ReplaceFn.ReplaceRec.Apply | therom ai/src/kernel/replace_fn.cpp:33-72 | the memoised traversal returns what recursion without a cache returns, for every choice of shared nodes |
| ReplaceFn.ReplacedIsMap | therom ai/src/kernel/replace_fn.cpp:33-72 | a callback that prunes soundly computes the plain structural pass |
| ReplaceFn.LiftLooseBVars | therom ai/src/kernel/expr.cpp:448-463 | range-pruned lifting over a shared graph equals plain lifting |
| ReplaceFn.LowerLooseBVars | therom ai/src/kernel/expr.cpp:417-434 | range-pruned lowering over a shared graph equals plain lowering |
| ReplaceFn.Instantiate | therom ai/src/kernel/instantiate.cpp:15-37 | range-pruned instantiation from any start index equals plain substitution |
| ReplaceFn.InstFromMeaning | therom ai/src/kernel/instantiate.cpp:15-37 | from index zero this is substitution; from s it substitutes terms that live outside the s innermost binders |
| ReplaceFn.InstantiateRev | therom ai/src/kernel/instantiate.cpp:99-118 | instantiation with the most recent variable last |
| ReplaceFn.AbstractFVars | therom ai/src/kernel/abstract.cpp:14-32 | pruned abstraction with the backward search equals plain abstraction |
| ReplaceFn.FindLast | therom ai/src/kernel/abstract.cpp:22-28 | the backward loop finds the last position of a variable |
| ReplaceFn.HasLooseBVar | therom ai/src/kernel/expr.cpp:389-409 | the visited-set traversal answers exactly whether an index occurs loose |
| ReplaceFn.LooseSearch.Apply | therom ai/src/kernel/for_each_fn.cpp:82-154 | skipping visited nodes never hides an occurrence |
| ExprEq.EqFn.Apply | therom ai/src/kernel/expr_eq_fn.cpp:33-129 | with pairs cached before they are compared, a definite answer says exactly whether the unfolded terms are equal |
| ExprEq.IsEqual | therom ai/src/kernel/expr_eq_fn.cpp:131-144 | equality of two nodes of a shared graph, with or without binder information, for any hash that respects equality |
| Beta.ApplyBetaIsIter | therom ai/src/kernel/instantiate.cpp:168-198 | batched `apply_beta` in its default mode is one-argument-at-a-time beta |
| Beta.BatchIsIter | therom ai/src/kernel/type_checker.cpp:464-477 | the multi-argument step of `whnf_core` is iterated single beta |
| Beta.CheapBetaReduce | therom ai/src/kernel/instantiate.cpp:211-230 | on closed input the result is the iterated beta reduct for the smaller of the number of lambdas and of arguments, exactly when the body below them is closed or a variable; otherwise the input |
| BetaZeta.LetShortens | therom ai/src/kernel/instantiate.cpp:175-182 | unfolding a let at the head shortens the head, whatever the value: why `apply_beta` with zeta stops on all input |
| BetaZeta.BetaZetaReduces | therom ai/src/kernel/instantiate.cpp:168-198 | with `preserve_data = false` and `zeta = true` the application reduces to the result by beta, zeta and metadata steps |
| BetaZeta.ApplyBetaZetaIsSteps | therom ai/src/kernel/instantiate.cpp:168-198 | how far: the result is that of single head steps, each of which drops metadata, unfolds a let or gives one argument to a lambda, as many as the function alone takes when its arguments are variables |
| BetaZeta.AllStepsIff | therom ai/src/kernel/instantiate.cpp:168-198 | these are all the head steps there are if and only if no argument that could take the next one comes to the head |
| BetaZeta.StopsEarly | therom ai/src/kernel/instantiate.cpp:170-171 | one does in (fun f => f) (fun x => x) a, which becomes (fun x => x) a |
| BetaZeta.ApplyBetaZetaIsIter | therom ai/src/kernel/instantiate.cpp:168-198 | without lets and metadata at the head it is iterated single beta, for the smaller of the number of lambdas and of arguments |
| Telescope.MkBinding | therom ai/src/kernel/local_ctx.cpp:93-117 | the loop closes a term over declared variables, innermost last, and fails on an undeclared one |
| Telescope.DeadLetIsInstantiation | therom ai/src/kernel/local_ctx.cpp:105-107 | removing a dead let equals instantiating it with its value |
| Telescope.DeadLetsConv | therom ai/src/kernel/local_ctx.cpp:93-117 | closing with dead-let removal gives a result convertible to closing without it |
| Telescope.ToTelescope | therom ai/src/library/util.cpp:304-315 | the opened telescope, closed again with `mk_pi` or `mk_lambda`, is the original term with the binder info asked for on the binders that were opened; the original term itself when none is asked for |
| Telescope.OverriddenSame | therom ai/src/library/util.cpp:304-315 | asking for a binder info changes nothing the kernel sees |
| Telescope.TryEtaConv | therom ai/src/library/util.cpp:700-724 | eta reduction stays within conversion |
| Telescope.TryEtaExpanded | therom ai/src/library/util.cpp:700-724 | eta reduction undoes eta expansion by any number of arguments |
| Telescope.InferApp | therom ai/src/kernel/type_checker.cpp:157-184 | batched instantiation of Pis computes the type obtained one Pi at a time |
| Congruence.ConvMap | therom ai/src/kernel/type_checker.cpp:1068-1150 | a pass that carries the generating pairs into a congruence carries the whole congruence, so equality is kept under substitution |
| ConversionFacts.BinderDefEq | therom ai/src/kernel/type_checker.cpp:702-729 | bodies equal at a fresh variable make equal bindings |
| CheckerState.DeclareLet | therom ai/src/kernel/type_checker.cpp:369-377 | declaring a let-variable under a new name keeps every cached reduction, every normal form and every learned equality |
| CheckerState.PairsSound | therom ai/src/kernel/equiv_manager.cpp:117-126 | what the equivalence manager derives from learned pairs is definitional equality |
| TypeChecker.Checker.MkLetDecl | therom ai/src/kernel/local_ctx.cpp:59-63 | let-variables get names never used before, so none is ever rebound |
| Resting.LandsAt | therom ai/src/kernel/type_checker.cpp:422-504 | contractions at the head are determined, so whatever lands lands in the same place, unless a projection that may be reduced comes to the head |
| Resting.FrozenField | therom ai/src/kernel/type_checker.cpp:379-408 | a projection is frozen when its structure comes to rest without the field; then neither mode of reducing structures finds the field |
| TypeChecker.Checker.WhnfCore | therom ai/src/kernel/type_checker.cpp:422-504 | results are reachable by beta, zeta, projection and metadata steps; at the head there is no metadata, let, let-variable or beta redex left, and a projection only if its structure reduces to a head normal form that is no constructor application with that field; unless a projection that may be reduced comes to the head, the result is where the contractions of the term lead; the cache keeps all this; when these contractions end, recursion depth twice their number is enough for an answer |
| TypeChecker.Checker.Whnf | therom ai/src/kernel/type_checker.cpp:653-693 | the same with delta and literal arithmetic: the result is reachable and weak head normal, which includes that no literal arithmetic is left at its head; closed arithmetic is computed, and a term that contractions bring to rest gives where it rests; so is and does every cached result; when contractions end in a term that neither unfolds nor computes, recursion depth twice their number is enough |
| TypeChecker.Checker.UnfoldDefinition | therom ai/src/kernel/type_checker.cpp:518-546 | unfolds exactly when the head is a constant with a value and matching levels; the result is the value at these levels applied to the same arguments |
| TypeChecker.Checker.ReduceProj | therom ai/src/kernel/type_checker.cpp:379-408 | a projection result is reachable by reducing the structure and selecting the field, and there is none for a frozen projection; without a result the structure reduces to a head normal form that is no constructor application with that field |
| TypeChecker.Checker.ReduceNat | therom ai/src/kernel/type_checker.cpp:588-651 | literal arithmetic results are reachable by computation steps, and closed arithmetic has its value as result; without a result some operand reduces to a weak head normal form that is no literal, or the operation is not defined on the literals reached |
| TypeChecker.Checker.IsDefEqBinding | therom ai/src/kernel/type_checker.cpp:702-729 | a positive answer on two telescopes is sound, bindings with parts that are joined get no negative answer, and the local context is restored |
| TypeChecker.Checker.QuickIsDefEq | therom ai/src/kernel/type_checker.cpp:752-777 | early positive answers are sound, equal terms always get one, and terms that are joined, by eta too, never get a negative one |
| TypeChecker.Checker.IsDefEqArgs | therom ai/src/kernel/type_checker.cpp:779-788 | equal heads and positively compared arguments make equal applications |
| TypeChecker.Checker.TryEtaExpansion | therom ai/src/kernel/type_checker.cpp:790-802 | a positive answer after eta expansion is sound; a function and a term at rest whose eta expansion is joined with it get no negative answer |
| TypeChecker.Checker.LazyDeltaStep | therom ai/src/kernel/type_checker.cpp:896-963 | both sides only move by reduction, and an early positive answer is sound, failure cache included; a pair that unfolding joins stays one, and is two spines with joined heads and arguments when nothing unfolds |
| TypeChecker.Checker.IsDefEqOffset | therom ai/src/kernel/type_checker.cpp:953-982 | successors and literals are compared soundly by their predecessors, and successors of terms that are joined are not told apart |
| TypeChecker.Checker.LazyDelta | therom ai/src/kernel/type_checker.cpp:985-1016 | the loop keeps both sides reachable from the originals; pairs that unfolding or arithmetic joins never get a negative answer |
| TypeChecker.Checker.LazyDeltaProj | therom ai/src/kernel/type_checker.cpp:1020-1040 | a positive answer means the two projections are equal; structures that are joined, where neither projection can be reduced, get no negative one |
| TypeChecker.Checker.IsDefEqCore | therom ai/src/kernel/type_checker.cpp:1068-1143 | a positive answer is derivable in the congruence generated by reduction, eta, literals and equal-valued levels; equal terms are always accepted; terms that are joined, or joined by eta, never get a negative answer |
| TypeChecker.Checker.IsDefEq | therom ai/src/kernel/type_checker.cpp:1145-1150 | the same, recording the pair; the equivalence manager stays inside definitional equality for the life of the object |
| Joins.SpinesMeet | therom ai/src/kernel/type_checker.cpp:1120-1128 | terms are joined when head steps (beta, let, let-variable, metadata, or unfolding a definition) lead both sides to the same term, to one rigid head (a variable without a value, a constant without definition, or a frozen projection of joined structures) with arguments that are joined, to bindings with joined parts, to sorts of one normal form, or to numbers with one value |
| Joins.JoinedLands | therom ai/src/kernel/type_checker.cpp:1082-1092 | terms that are joined stay so when both sides are replaced by where `whnf_core` lands, whatever the cache holds |
| Joins.UnfinishedAdvance | therom ai/src/kernel/type_checker.cpp:896-963 | unfolding either side, as the reducibility hints choose, keeps the pair joined |
| Joins.JoinedOpen | therom ai/src/kernel/type_checker.cpp:702-729 | joined bodies stay joined when opened with a variable that has no value |
| Literals.NumbersComputed | therom ai/src/kernel/type_checker.cpp:1003-1013 | of two closed arithmetic terms with one value either side may be replaced by what is computed for it |
| EtaJoins.EtaLands | therom ai/src/kernel/type_checker.cpp:790-811 | a function and a term at rest whose eta expansion is joined with it stay such a pair where both sides land |
| UnionFind.FindDepth | therom ai/src/kernel/equiv_manager.cpp:21-28 | `find` follows at most log2 of the number of nodes links |
| UnionFind.DepthBelowRank | therom ai/src/kernel/equiv_manager.cpp:21-45 | ranks strictly increase towards the roots |
| UnionFind.LinkedHeavy | therom ai/src/kernel/equiv_manager.cpp:30-45 | merging by rank keeps at least 2^r nodes below a root of rank r |
| EquivManagers.EquivManager.Find | therom ai/src/kernel/equiv_manager.cpp:21-28 | returns the root |
| EquivManagers.EquivManager.Merge | therom ai/src/kernel/equiv_manager.cpp:30-45 | exactly the two classes are united, and all classes stay inside the congruence |
| EquivManagers.EquivManager.ToNode | therom ai/src/kernel/equiv_manager.cpp:47-54 | one node per expression, reused when it exists |
| EquivManagers.EquivManager.IsEquivCore | therom ai/src/kernel/equiv_manager.cpp:56-115 | a positive answer is in the congruence of the pairs added, although roots are merged while the comparison runs; terms are accepted when they are equal, in one class already, or of one shape with parts that are accepted, provided that hash codes agree when these are compared |
| EquivManagers.EquivManager.IsEquiv | therom ai/src/kernel/equiv_manager.cpp:117-120 | the same for the entry point |
| EquivManagers.EquivManager.AddEquiv | therom ai/src/kernel/equiv_manager.cpp:122-126 | the pair is learned and its sides share a class |
| EquivManagers.EquivManager.SameClassSound | therom ai/src/kernel/equiv_manager.cpp:56-126 | in every reachable state two expressions of one class are in the congruence generated by the pairs added |
| MVarFacts.LFullMeaning | therom ai/src/kernel/instantiate_mvars.cpp:47-88 | instantiating a level keeps its value under every assignment that respects the context |
| MVarFacts.LFullSame | therom ai/src/kernel/level.cpp:286-300 | the pointer test of the level updates succeeds exactly when no metavariable inside is assigned |
| InstantiateMVars.Instantiator.VisitLevel | therom ai/src/kernel/instantiate_mvars.cpp:34-90 | the level visitor, which rewrites assignments and caches, returns the cache-free instantiation, and its argument itself exactly when nothing changed |
| InstantiateMVars.Instantiator.Normalize | therom ai/src/kernel/instantiate_mvars.cpp:165-188 | marking a variable before its assignment is visited and storing the result keeps every lower assignment instantiated and leaves higher ones alone |
| InstantiateMVars.Instantiator.GetAssignment | therom ai/src/kernel/instantiate_mvars.cpp:165-188 | the value is the full instantiation of the assignment in the original context |
| InstantiateMVars.Instantiator.VisitApp | therom ai/src/kernel/instantiate_mvars.cpp:190-313 | assigned heads are beta reduced, delayed ones substituted exactly when ready, all others rebuilt |
| InstantiateMVars.Instantiator.Visit | therom ai/src/kernel/instantiate_mvars.cpp:327-360 | every result is that of recursion without cache and without updates against the initial context |
| InstantiateMVars.InstantiateExprMVars | therom ai/src/kernel/instantiate_mvars.cpp:365-372 | result and new context: every assignment is the old one or its full instantiation |
| InstantiateMVars.InstantiateLevelMVars | therom ai/src/kernel/instantiate_mvars.cpp:92-99 | the same for levels |
| MVarFacts.FullSettled | therom ai/src/kernel/instantiate_mvars.cpp:327-360 | no assigned metavariable remains, delayed assignments or not |
| MVarSaturation.LiveResolvedIff | therom ai/src/kernel/instantiate_mvars.cpp:293-322 | an application of a live delayed metavariable is resolved if and only if it has at least max(1, number of variables) arguments |
| MVarSaturation.FullQuiet | therom ai/src/kernel/instantiate_mvars.cpp:327-360 | when every live metavariable has the arguments it needs, the result has no assigned and no live metavariable |
| MVarSaturation.FullIdempotent | therom ai/src/kernel/instantiate_mvars.cpp:327-360 | then a second pass changes nothing |
| MVarSaturation.NoDelayedSaturated | therom ai/src/kernel/instantiate_mvars.cpp:281-285 | without delayed assignments there is nothing to ask |
| MVarFacts.RewrittenAcyclic | therom ai/src/kernel/instantiate_mvars.cpp:165-188 | the rewritten context is acyclic again |
| MVarSaturation.FullRewritten | therom ai/src/kernel/instantiate_mvars.cpp:165-188 | when the assignments give every live metavariable the arguments it needs, every expression, hence every metavariable, has the same full value in the rewritten context |
| MVarMeaning.FullMeaning | therom ai/src/kernel/instantiate_mvars.cpp:190-360 | the result is definitionally equal to the input when assigned metavariables stand for their assignments and delayed ones for the functions of their variables that their pending values are |
| MVarMeaning.ReplaceIsAbstractInst | therom ai/src/kernel/instantiate_mvars.cpp:119-138 | on a closed value, replacing variables is abstracting and instantiating |
| MVarMeaning.ReplaceFVarsRun | therom ai/src/kernel/instantiate_mvars.cpp:119-138 | the pruned traversal computes the plain substitution, the last occurrence of a name winning |
| MVarMeaning.DelayedNeedsSecondPass | therom ai/src/kernel/instantiate_mvars.cpp:295-302 | a term with a delayed metavariable that gets its last argument only by beta reduction changes in a second pass, although the assignments are as required |
| MVarMeaning.UnsaturatedAssignment | therom ai/src/kernel/instantiate_mvars.cpp:295-302 | an assignment of that form makes a metavariable change its value once the context has been rewritten |
| NestedTerms.AppendAfterInjective | therom ai/src/kernel/inductive.cpp:895-901 | names made with different indices differ, whatever they were made from |
| NestedTerms.ReplacePrefixMeaning | therom ai/src/util/name.cpp:363-375 | replacing a prefix changes exactly the names that start with it |
| NestedTerms.ReplacePrefixBack | therom ai/src/kernel/inductive.cpp:817-823 | renaming a constructor for the auxiliary type and back is the identity |
| NestedTerms.GetParams | therom ai/src/kernel/inductive.cpp:1032-1040 | opens exactly the parameters or fails, and binding them around any body gives that prefix back |
| NestedTerms.ReopenIsRename | therom ai/src/kernel/inductive.cpp:907-910 | abstracting and instantiating again renames parameters, on closed terms |
| NestedElim.InstantiatePiParams | therom ai/src/kernel/inductive.cpp:951-957 | strips exactly the parameters and instantiates them, or fails |
| NestedSpec.TableGrows | therom ai/src/kernel/inductive.cpp:972-1025 | a term whose nested occurrences are all in the table is rewritten in the same way by every longer table |
| NestedRun.Eliminator.MkUniqueName | therom ai/src/kernel/inductive.cpp:895-901 | the loop ends with a name that no constant has and no earlier call produced |
| NestedRun.Eliminator.IsNestedInductiveApp | therom ai/src/kernel/inductive.cpp:917-949 | exactly the applications of an inductive type whose parameters mention a type being defined, and whether a parameter has a loose index |
| NestedRun.Eliminator.AddAux | therom ai/src/kernel/inductive.cpp:994-1021 | adds the instantiated copy of one type with its constructors, and its table entry |
| NestedRun.Eliminator.AddAll | therom ai/src/kernel/inductive.cpp:990-1024 | adds the whole mutual declaration; the result is the copy of the type asked for, which later searches find |
| NestedRun.Eliminator.ReplaceIfNested | therom ai/src/kernel/inductive.cpp:960-1025 | answers for nested occurrences only, and fails exactly on loose parameters; the answer applies a queued type, at the levels of the declaration, to the parameters and the indices of the occurrence, and at these parameters that type and its constructors have the types that the nested type and its constructors have at theirs |
| NestedTyped.CopyEntry | therom ai/src/kernel/inductive.cpp:994-1021 | the copy made for a table entry has, at the parameters of the declaration, the type of the entry, and so have its constructors |
| NestedTyped.OccurrenceTyped | therom ai/src/kernel/inductive.cpp:972-1010 | whatever occurrence an entry is found for, the type of the entry fits it: instantiated with the arguments the occurrence is rewritten with, the types agree |
| NestedRun.Eliminator.ReplaceAllNested | therom ai/src/kernel/inductive.cpp:1028-1030 | although the table grows during the memoised traversal, the result is the rewriting by the final table |
| NestedRun.Eliminator.ElimCtorType | therom ai/src/kernel/inductive.cpp:1055-1067 | one constructor type over its own copy of the parameters; succeeds exactly when it has them and no nested occurrence has a loose parameter |
| NestedRun.Eliminator.Run | therom ai/src/kernel/inductive.cpp:1042-1073 | when the queue is empty every constructor, of declared and of auxiliary types, is what was queued with each nested occurrence replaced by an application of a queued type that has its type; it fails only for missing parameters or a nested occurrence with a loose parameter, and runs out only when more types than allowed are queued |
| NestedInverse.RestoreEliminated | therom ai/src/kernel/inductive.cpp:825-869 | restoring an eliminated body, with parameters renamed on the way, gives the body with every occurrence replaced by the entry found for it |
| NestedInverse.RestoreUndoesElimination | therom ai/src/kernel/inductive.cpp:825-869 | restoration undoes elimination: the type is the original one for the kernel, and identical to it if and only if each nested occurrence has the binder names of the entry found for it |
| NestedInverse.AuxCtorRestored | therom ai/src/kernel/inductive.cpp:849-864 | a constructor of an auxiliary type is restored to the constructor of the nested type with its parameters |
| NestedRun.RestoreNested | therom ai/src/kernel/inductive.cpp:825-869 | opens the parameters, restores below them and closes again |
| NestedKeys.ExactKeys | therom ai/src/kernel/inductive.cpp:972-985 | a body is restored exactly if and only if each of its nested types is found in the table with its own binder names |
| NestedKeys.GroupAdded | therom ai/src/kernel/inductive.cpp:990-1021 | adding a whole mutual declaration keeps the table free of repetitions and closed under taking another member of a mutual declaration |
| NestedKeys.ExactIffConsistent | therom ai/src/kernel/inductive.cpp:972-1021 | the table finds every nested type exactly if and only if the declaration is consistent about binder names |
| NestedRun.RestoreDeclared | therom ai/src/kernel/inductive.cpp:1144-1169 | the declared types come back identical if and only if every nested type is found exactly in the final table, if and only if the declaration is consistent |
| NestedRun.AddInductive | therom ai/src/kernel/inductive.cpp:1113-1169 | the auxiliary declaration starts with the declared types, goes on with types that at the parameters have the types of nested ones, and has every nested occurrence replaced by one of them with its type; restoration gives every constructor of the declaration back its type: up to binder names always, and identically if and only if nested occurrences of one mutual declaration that agree up to binder names have equal parameters |
| NestedWitness.BinderNamesAreLost | therom ai/src/kernel/inductive.cpp:976-985 | a declaration of the kernel on which the run finishes and does not give the declared binder names back |
| Mpn.Compare | therom ai/src/runtime/mpn.cpp:33-47 | three-way comparison of values, leading zeros and different lengths included |
| Mpn.Add | therom ai/src/runtime/mpn.cpp:49-70 | the sum with its final carry, possibly in place, and the trimmed size |
| Mpn.Sub | therom ai/src/runtime/mpn.cpp:72-87 | the difference modulo the width, the borrow exactly when negative, and nothing else written |
| Mpn.Mul | therom ai/src/runtime/mpn.cpp:89-123 | the product, with no double-digit overflow |
| MpnDivision.Normalize | therom ai/src/runtime/mpn.cpp:151-184 | both operands are multiplied by the same power of two and the divisor gets its top bit |
| MpnDivision.Unnormalize | therom ai/src/runtime/mpn.cpp:186-197 | the remainder is divided by that power again |
| MpnDivision.DivOne | therom ai/src/runtime/mpn.cpp:199-221 | exact quotient and remainder by one digit |
| MpnDivision.Estimate | therom ai/src/runtime/mpn.cpp:240-250 | after at most two corrections the estimate is the true digit or one more |
| MpnKnuth.AtMostOneMore | therom ai/src/runtime/mpn.cpp:240-250 | when the correction test stops firing the estimate exceeds the digit by at most one |
| MpnKnuth.LargeRemainder | therom ai/src/runtime/mpn.cpp:244-249 | once the trial remainder reaches the base the test cannot fire, so the loop may stop there |
| MpnDivision.SubtractMultiple | therom ai/src/runtime/mpn.cpp:251-256 | in-place subtraction of a multiple; the borrow says exactly whether it was too large |
| MpnDivision.AddBack | therom ai/src/runtime/mpn.cpp:257-264 | in-place addition of the divisor, carry discarded |
| MpnDivision.QuotientDigit | therom ai/src/runtime/mpn.cpp:239-265 | one round stores the true digit and leaves the true remainder, with at most one add-back |
| MpnDivision.DivMany | therom ai/src/runtime/mpn.cpp:223-266 | division by two or more digits |
| MpnDivision.Div | therom ai/src/runtime/mpn.cpp:268-319 | numerator = quotient * divisor + remainder, with the remainder below the divisor, also for a numerator one digit shorter than the divisor |
| MpnPrint.ReverseInPlace | therom ai/src/runtime/mpn.cpp:348-353 | the final swap loop reverses the digits |
| MpnPrint.DecimalMeaning | therom ai/src/runtime/mpn.cpp:321-355 | the numeral specified is canonical and parses to its number |
| MpnPrint.DecimalUnique | therom ai/src/runtime/mpn.cpp:321-355 | it is the only canonical numeral of its number |
| MpnPrint.ToString | therom ai/src/runtime/mpn.cpp:321-355 | the buffer ends up with the canonical decimal numeral of the value, terminated by a null character |
| Allocator.Memory.PageListInsert | therom ai/src/runtime/alloc.cpp:174-179 | insertion writes the links of the two pages involved |
| Allocator.Memory.PageListRemove | therom ai/src/runtime/alloc.cpp:181-195 | removal relinks the neighbours and moves the head when needed |
| Allocator.Memory.PushFreeObj | therom ai/src/runtime/alloc.cpp:204-219 | the object returns to its page, which goes to the list of pages kept for reuse exactly when more than a quarter of it is free and objects are not taken from it; no other page changes lists, and the invariant is kept |
| Allocator.Memory.ImportObjs | therom ai/src/runtime/alloc.cpp:221-240 | the import list is taken under the lock; every object on it returns to the free list of its page, and nothing else moves |
| Allocator.Memory.ExportObjs | therom ai/src/runtime/alloc.cpp:242-270 | exported objects are grouped by owner and each group is spliced into the import list of its heap: every object on the export list ends up on the import list of the heap that owns it, nothing else moves, and the export list ends up empty |
| Allocator.Memory.CarvePage | therom ai/src/runtime/alloc.cpp:305-318 | a new page is carved into as many objects of its slot size as fit behind the header, one behind the other, linked from the last to the first |
| Allocator.Memory.AllocPage | therom ai/src/runtime/alloc.cpp:279-322 | a new page becomes the current page of its slot; it consists exactly of the objects cut out of it, all of them free, and objects of other pages stay where they are |
| Allocator.Memory.ReusePage | therom ai/src/runtime/alloc.cpp:369-376 | a page taken from the free-page list is never empty |
| AllocState.ReusedInv | therom ai/src/runtime/alloc.cpp:369-376 | the reason: every page on that list has a free object, in every reachable state |
| Allocator.Memory.AllocCold | therom ai/src/runtime/alloc.cpp:364-382 | afterwards the current page of the slot has a free object; it is the page kept for reuse if there is one, else the same page when something incoming belongs to it, and only else a new one |
| AllocLayout.RefilledByImport | therom ai/src/runtime/alloc.cpp:365-371 | an empty page has a free object after the import if and only if an incoming object belonged to it |
| Allocator.Memory.AllocSmall | therom ai/src/runtime/alloc.cpp:384-395 | returns an object that was not handed out, of the right slot and heap: the first free one of the current page if there is one; else one of the page kept for reuse; else, once everything incoming has returned, one of the current page if that got any back; and one of a new page only when all this fails; nothing else moves |
| Allocator.Memory.Dealloc | therom ai/src/runtime/alloc.cpp:412-434 | the object leaves the set handed out: back to its page when local, to the export list otherwise, and when that list is full everything on it reaches the import lists of its owners; nothing else moves |
| Allocator.Memory.FinalizeHeap | therom ai/src/runtime/alloc.cpp:324-330 | what was to be exported is with its owners, what was to be imported is back on its pages, nothing else moves, and the heap becomes an orphan |
| Allocator.Memory.InitHeap | therom ai/src/runtime/alloc.cpp:332-356 | a thread adopts the heap that became an orphan last, or gets a new one when there is none; no object moves |
| AllocLayout.OnePlace | therom ai/src/runtime/alloc.cpp:174-434 | every object cut out of a page is in exactly one place: handed out, the free list of its page, one export list, or the import list of its owner |
| AllocLayout.ObjectsDisjoint | therom ai/src/runtime/alloc.cpp:279-322 | two different objects never overlap, whatever pages and slots they belong to |
| AllocLayout.FreeBound | therom ai/src/runtime/alloc.cpp:204-219 | a page never has more free objects than it was cut into |
| Allocator.Memory.HeldSeparate | therom ai/src/runtime/alloc.cpp:174-434 | in every reachable state the objects handed out are pairwise disjoint and lie inside their pages, behind the header |
| AllocState.RecycledInv | therom ai/src/runtime/alloc.cpp:209-218 | moving a page between its two lists keeps every page in exactly the list its flag names, with correct links |
| Allocator.Memory.Perform | therom ai/src/runtime/alloc.cpp:324-434 | every step of any thread keeps the invariant and the set of objects handed out; no page and no object is lost, objects appear only with new pages, and the objects handed out are disjoint |
| Allocator.Memory.Run | therom ai/src/runtime/alloc.cpp:324-434 | so does every run of allocations, frees, exports, imports, thread ends and thread starts, from its first state to its last |
| Compactor.ObjectCompactor.Alloc | therom ai/src/runtime/compact.cpp:78-96 | zeroed space at the end of a buffer that doubles when full, content kept |
| Compactor.ObjectCompactor.ToOffset | therom ai/src/runtime/compact.cpp:115-127 | scalars and finished objects get their word, others are pushed |
| Compactor.ObjectCompactor.SaveMaxSharing | therom ai/src/runtime/compact.cpp:98-113 | an object equal to a stored one is dropped and mapped to it, otherwise stored |
| Compactor.ObjectCompactor.Insert | therom ai/src/runtime/compact.cpp:142-226 | an object is written when its children are, otherwise a missing child goes on the stack |
| Compactor.ObjectCompactor.Step | therom ai/src/runtime/compact.cpp:345-372 | one round of the worklist makes progress in a well-founded order |
| Compactor.ObjectCompactor.Drain | therom ai/src/runtime/compact.cpp:339-375 | the worklist terminates on every acyclic graph with the root stored; everything stored was stored for an object below the root |
| Compactor.ObjectCompactor.Compact | therom ai/src/runtime/compact.cpp:339-379 | the region holds only backward references, stores each value once and only values of objects below the root, is no larger than the source, and its first word refers to the value of the root; read from the first object on, it is a sequence of objects with reference count zero, known tags, zero padding and a capacity equal to the size |
| CompactHeaders.StoredHeader | therom ai/src/runtime/compact.cpp:129-226 | in memory: the low half of every header is zero, and the capacity word of an array, scalar array or string equals its size word |
| CompactSharing.ValuesDistinct | therom ai/src/runtime/compact.cpp:103-113 | equal stored values are the same object |
| CompactSharing.MappedValue | therom ai/src/runtime/compact.cpp:169-226 | the stored copy unfolds to the same value as the original |
| CompactFormat.EncodeInjective | therom ai/src/runtime/compact.cpp:142-226 | different objects have different encodings |
| CompactFormat.UnfoldStored | therom ai/src/runtime/compact.cpp:142-226 | reading a stored object back by following its words gives its value |
| CompactReader.Region.FixObject | therom ai/src/runtime/compact.cpp:402-432 | one object is relocated in place |
| CompactReader.Region.Read | therom ai/src/runtime/compact.cpp:465-500 | for any load address the result unfolds to the value compacted; a region that has been read gives no further root |
| CompactRoundTrip.CompactAndRead | therom ai/src/runtime/compact.cpp:339-500 | compacting for one address and reading at another gives the value of the root, from a region no larger than the source, whose objects still have reference count zero and capacities equal to their sizes |

## Left out

Type checker:

- TypeChecker.Checker.IsDefEqCore: that it finds every equality is not claimed, as reduction need not terminate on untyped terms: on terms that are joined it may raise, since outcomes of pointer tests are arbitrary and one of them decides whether a comparison starts over. Not among the joined terms are those that are brought together by a projection that can be reduced, by unfolding inside arithmetic, or by eta below a binder or an argument; for these only soundness is proved. An unfolding counts when its result does not depend on pointer tests inside levels. Proof irrelevance, recursors, quotients, structure eta, unit-like types, string literals and `reduce_native` are not modelled; each would add further generating equations.
- TypeChecker.Checker.WhnfCore: recursor reduction is not modelled. A projection counts as stuck by the normal form that `whnf` finds for its structure; of `Nat.succ` applied to a literal that is a literal, so such a projection stays although a projection step exists.
- TypeChecker.Checker.Whnf: recursion depth is bounded by a fuel argument in place of the stack and heartbeat checks; running out is the `Raised` outcome, like any exception. How much is enough is said for contractions only. A comparison by literal arithmetic may answer with a Boolean constant that is itself defined.
- Type inference: it is a parameter of the type checker that is assumed only to return well-scoped types; `ensure_pi` is a parameter of `InferApp`.
- TypeChecker.Checker.UnfoldAndWhnf: a constant with a value but the wrong number of levels is the `Raised` outcome; the code would read an empty optional there. Type inference rejects such constants (kernel/type_checker.cpp, lines 93-97).
- Nat primitives: which constants compute on literals is part of the environment, with the functions they compute.
- Closedness of the types `infer_let` returns: its dead-let pass follows values only.
- Levels on the constant `Bool.true` are ignored by one comparison; the relation says so.
- The caches of the type checker are keyed modulo binder names and infos, as kernel equality is, so reductions are stated modulo them.
- Unsigned overflow checks on binder indices: indices are natural numbers.

Levels and terms:

- LevelNormalizer.IsGeqSound: with imax only soundness is claimed.
- LevelNormalizer.Normalize: `std::sort` is modelled by its contract; by `SortUnique` any correct sort gives the same buffer.
- ExprEq.EqFn.Apply: the stack-depth check is an outcome of its own, about which nothing is claimed.
- ReplaceFn.ReplaceRec.Apply: inputs are nodes of a graph, results are values, so sharing in the output is not modelled.
- Hash functions are arbitrary functions that respect equality.
- The order `is_lt` on levels and on terms, `infer_implicit`, printing.

Metavariables:

- InstantiateMVars.Instantiator.Visit: the caches are keyed by the visited term instead of its address, and a lookup may miss; the vectors that keep saved assignments alive, so that addresses are not reused, are therefore not modelled.
- InstantiateMVars.InstantiateExprMVars: the context is assumed acyclic (a ranking of the metavariables exists), which the elaborator guarantees; on a cyclic one the code does not terminate.
- MVarMeaning.FullMeaning: local contexts and types of metavariables are not part of the model; a delayed metavariable stands for the function of its variables that its pending value is.

Nested inductive types:

- NestedRun.Eliminator.Run: the queue is bounded by a fuel argument, since it need not become empty on arbitrary declarations; running out is an outcome of its own.
- NestedRun.AddInductive: the declared types are closed, mention no generated name, and so are the types of the environment, where types declared together have the same list of members. Checking the auxiliary declaration, recursors and their rules are not modelled; of the auxiliary environment only the constructors with their types are used.
- NestedRun.RestoreNested: modelled for Pi types, as constructor types are; recursor rules use the same traversal below lambdas.
- NestedRun.Eliminator.ReplaceAllNested: the traversal cache is keyed by term and offset instead of address and offset.
- The name generators do not overflow into a longer prefix.

Multi-precision arithmetic:

- MpnDivision.Div: the numerator may have one digit fewer than the divisor and no less: with two or more fewer the bound of the loop that clears the quotient is an unsigned difference that wraps around. The callers in runtime/mpz.cpp call it with at least as many digits as the divisor has.
- MpnDivision.DivMany: resizable buffers are new arrays of the final size; a pointer into a buffer is an array with an offset.
- MpnPrint.ToString: the one-digit case calls `snprintf`, modelled by what it prints.

Page allocator:

- Allocator.Memory.AllocPage: segments are not modelled; page addresses are fresh numbers, a page holds 8192 bytes, and slot sizes and the page header size are parameters.
- Allocator.Memory.Run: each critical section is one atomic step, and so is each sequence of steps on data private to a thread; weak memory is not modelled.
- Allocator.Memory.ExportObjs: the local variables of export and import are fields of the heap, so that intermediate states are states of the model; the private export list is cleared before its objects are grouped instead of after.
- Large objects, heartbeats and statistics.

Compactor:

- Compactor.ObjectCompactor.Compact: the region is a sequence of 64-bit words with bytes packed into them; closures, big numbers, thunks, tasks, promises, references and external objects are left out: they add cases. There must be address space for the region, and the base address is a multiple of eight.
- CompactReader.Region.Read: regions that hold more than one root and memory-mapped regions are left out.

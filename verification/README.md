# A verified model of the Nix evaluator's core

This project models the parts of the Nix evaluator where a small mistake gives
wrong values rather than crashes, and proves what each of them promises. Check
everything with `dafny verify dfyconfig.toml`.

| file | what it models |
|---|---|
| `NixSyntax`, `StaticScope`, `BindVars` | expressions, and the `bindVars` pass that turns names into (level, displacement) pairs and `with` chains |
| `NamedEval`, `DisplEval` | the evaluator twice: by name (the reference) and by level and displacement (the code) |
| `NamedLaws`, `BindingLaws`, `CallLaws`, `FreeNames` | what the reference semantics computes, as rules without fuel for every construct, and which programs are rejected |
| `ScopeSimulation`, `ScopeSafety`, `FuelStability` | the pass preserves meaning, bound programs never leave their environments, and meaning does not depend on fuel |
| `FrameFill` | filling a recursive frame with `maybeThunk`, and the `__overrides` loop, on a heap |
| `EvalCache` | the evaluation cache: rows keyed by (parent row, name) and cursors with stale row ids |
| `Calls`, `Formals` | curried calls, partial applications of primops, functors; matching formals by counting |
| `Bindings`, `UpdateOperator` | layered attribute sets, their k-way iterator, `//` by layering or merging, trees of `//` through a queue |
| `Equality`, `EqualityLaws`, `Ordering` | `eqValues`, `assertEqValues`, `CompareValues` and what they answer |
| `KeyMap`, `GenericClosure` | `genericClosure` and its map of keys, whose comparison may throw |
| `ForceDeep`, `ListToAttrs`, `ReplaceStrings` | deep forcing and the in-place builtins |
| `Json` | the JSON SAX machine and the JSON printer |
| `Repl` | the REPL's growing environment over whole sessions |

The main theorems are:

* `ScopeSimulation.SimEval`: for every expression, every environment and every
  amount of fuel, the bound expression evaluated by displacement gives the image
  of what the original gives by name, errors included. With
  `FuelStability.MeaningIsPreserved` and `FuelStability.DivergenceIsPreserved`
  this is a statement about meaning without fuel. What the meaning is, the rules
  of `NamedLaws`, `BindingLaws` and `CallLaws` say construct by construct.
* `EvalCache.AttrCache.Run`: over any interleaving of operations on any number of
  cursors, exactly the operations on existing cursors are answered, and every
  answer agrees with plain evaluation.
* `Calls.CallFunction` and `Calls.CallSplit`: batched calls are one-at-a-time
  application, so calling on `xs ++ ys` is calling on `xs` and then on `ys`.
* `UpdateOperator.EvalUpdate`: in the value of a tree of `//` every name has its
  value from the rightmost operand that has it, for any layering threshold and
  any limit on layers.
* `Equality.AssertMatchesEq`, `Ordering.CompareIsStrictOrder`,
  `GenericClosure.Closure`, `ForceDeep.ForceValueDeep`, `Json.RoundTrip`,
  `Repl.NixRepl.Session`, `ReplaceStrings.Run`, `ListToAttrs.ListToAttrs`.

There are two places where the cache does not agree with evaluation. They are
kept as the code has them, and what the code answers is proved for every
database state. An integer is stored through a C `int`: after evaluating it,
opening the database again and asking again, the answer is the integer as a C
`int`, so it is right if and only if the integer fits
(`EvalCache.AttrCache.AskIntTwice`); 2^31 comes back as -2^31
(`EvalCache.WideInteger`). A path is stored as its absolute path but shown
differently when it is evaluated, so the second answer is right if and only if
the two renderings are the same (`EvalCache.AttrCache.AskStringTwice`,
`EvalCache.TwoRenderings`).

## Model

| member | source | states |
|---|---|---|
| `StaticScope.Find` | src/libexpr/include/nix/expr/nixexpr.hh:925-932 | finds a name exactly when the frame binds it, and then at the first position that holds it |
| `BindVars.ExprVar.BindVars` | src/libexpr/nixexpr.cc:315-349 | the loop over the scope chain succeeds exactly when the name is bound lexically or has an enclosing `with`; the fields it leaves are those of the innermost lexical binding, else of the innermost `with` |
| `BindVars.ExprWith.BindWith` | src/libexpr/nixexpr.cc:529-554 | `prevWith` is the distance to, and `parentWith` is, the innermost enclosing `with` (0 and none without one) |
| `BindVars.BindExpr` | src/libexpr/nixexpr.cc:315-581 | for the expression forms of the model, the whole pass fails exactly on expressions that are not well scoped and otherwise yields the annotated expression `Bound` |
| `BindVars.BindDefs` | src/libexpr/nixexpr.cc:412-450 | plain definitions are bound in the inner scope, inherited names in the outer one, sources by index |
| `ScopeSimulation.LetFrame` | src/libexpr/eval.cc:1367-1382 | the frame of `let` and `rec` is laid out as the static chain assumed: same names, same displacements, sources in the inner frame |
| `ScopeSimulation.MatchParamLayout` | src/libexpr/eval.cc:1572-1643 | a call frame holds the named argument first and then the formals in order, exactly the names the pass assumed; both semantics fail alike |
| `ScopeSimulation.FindSlotImage` | src/libexpr/eval.cc:922-934 | a name's displacement selects the slot that the frame gives to that name |
| `ScopeSimulation.LexicalLookup` | src/libexpr/eval.cc:922-934 | the static search finds a name exactly when the search by name does, and going `level` frames up to slot `displ` reaches that innermost binding |
| `ScopeSimulation.SimWith` | src/libexpr/eval.cc:936-953 | walking `prevWith` and `parentWith` visits exactly the enclosing `with` frames from inner to outer, with the same value or error as the search by name |
| `ScopeSimulation.SimAttrs` | src/libexpr/eval.cc:1270-1365 | plain and recursive sets (without `__overrides`), with `inherit`, `inherit (from)` and dynamic attributes, have the same attributes in both semantics |
| `ScopeSimulation.SimSelectPath` | src/libexpr/eval.cc:1435-1513 | selection along a path with default agrees in both semantics |
| `ScopeSimulation.SimHasPath` | src/libexpr/eval.cc:1515-1535 | the `?` operator agrees in both semantics |
| `ScopeSimulation.SimApply` | src/libexpr/eval.cc:1570-1660 | applying a lambda or a functor agrees in both semantics |
| `ScopeSimulation.SimEval` | src/libexpr/nixexpr.cc:315-554 | the main theorem: evaluation after `bindVars` equals evaluation by name, for all expressions, environments and fuel |
| `ScopeSafety.SafeEval` | src/libexpr/nixexpr.cc:315-349 | evaluation keeps the invariant that every expression inside a value passed `bindVars` in its own scope |
| `ScopeSafety.BoundProgramsAreSafe` | src/libexpr/eval.cc:922-953 | a program that passed `bindVars` never leaves the Env chain or a frame and never meets an unbound variable |
| `ScopeSafety.WithFreeNeverUndefined` | src/libexpr/eval.cc:936-953 | a whole program without `with`, in an environment without `with`, never ends in an undefined variable |
| `ScopeSafety.LexicalNeverUndefined` | src/libexpr/eval.cc:922-953 | looking up a lexically bound variable always succeeds, so only names that fell through to a `with` can be undefined |
| `NamedLaws.IfRule` | src/libexpr/eval.cc:1874-1878 | a conditional means exactly what the branch means that its condition chooses |
| `NamedLaws.AssertRule` | src/libexpr/eval.cc:1880-1903 | an assertion means its body if the condition is true and fails if it is false |
| `NamedLaws.NotRule` | src/libexpr/eval.cc:1905-1908 | negation |
| `NamedLaws.BoolRule` | src/libexpr/eval.cc:1928-1947 | the truth tables of conjunction, disjunction and implication |
| `NamedLaws.ShortCircuit` | src/libexpr/eval.cc:1928-1947 | where the left operand decides, the right one is not evaluated |
| `NamedLaws.UpdateRule` | src/libexpr/eval.cc:1949-2022 | in `e1 // e2` every name has its value from the right operand, or else from the left one |
| `NamedLaws.DisplUpdateRule` | src/libexpr/eval.cc:1949-2022 | the same of the evaluator by level and displacement, on the bound expression |
| `NamedLaws.ConcatRule` | src/libexpr/eval.cc:2060-2068 | `e1 ++ e2` has the elements of the left operand and then those of the right one |
| `NamedLaws.ListRule` | src/libexpr/eval.cc:1391-1397 | a list holds its elements in order, delayed in its scope |
| `NamedLaws.InnermostWins` | src/libexpr/nixexpr.cc:322-343 | a name stands for its binding in the innermost frame that binds it, whatever `with`s are in between |
| `NamedLaws.VarRule` | src/libexpr/eval.cc:922-928 | a lexically bound variable means what its value is forced to: it beats every `with` |
| `NamedLaws.WithRule` | src/libexpr/eval.cc:1865-1872 | the body of a `with` sees its set behind every lexical binding |
| `NamedLaws.WithFoundRule` | src/libexpr/eval.cc:936-943 | a name that the innermost `with` has is taken from there: inner beats outer |
| `NamedLaws.WithMissedRule` | src/libexpr/eval.cc:944-952 | otherwise the enclosing `with`s are tried; without any the variable is undefined |
| `NamedLaws.FrameMissedRule` | src/libexpr/nixexpr.cc:322-343 | a frame that does not bind a name does not change what it means |
| `NamedLaws.FirstErrorRule` | src/libexpr/eval.cc:1435-2068 | an error in the part evaluated first is the error of the whole; of `//` that is the right operand |
| `NamedLaws.TypeErrorRule` | src/libexpr/eval.cc:1874-2058 | so is a value of the wrong type there |
| `BindingLaws.RecNames` | src/libexpr/eval.cc:1367-1382 | inside a `let` or `rec` a name it defines stands for its definition, other names for what they are outside |
| `BindingLaws.LetVarRule` | src/libexpr/eval.cc:1367-1389 | `let x = e; … in x` means `e` inside the `let`, `let inherit x; … in x` means `x` outside |
| `BindingLaws.FromRule` | src/libexpr/eval.cc:1258-1268 | `inherit (from) x` selects `x` from the source |
| `BindingLaws.SetRule` | src/libexpr/eval.cc:1270-1365 | a set has exactly the names it defines, `rec` sets in their own scope, and then its dynamic names |
| `BindingLaws.DynamicNullRule` | src/libexpr/eval.cc:1336-1344 | a dynamic definition whose name is null is left out |
| `BindingLaws.DynamicNameRule` | src/libexpr/eval.cc:1336-1360 | otherwise it adds its name, which must be new, delayed in the scope of the set |
| `BindingLaws.SelectFoundRule` | src/libexpr/eval.cc:1435-1513 | an attribute that is there is selected, whatever the default |
| `BindingLaws.SelectAbsentRule` | src/libexpr/eval.cc:1435-1513 | the default is used exactly where the attribute is not there; without one that is an error |
| `BindingLaws.SelectDynamicRule` | src/libexpr/eval.cc:1435-1513 | a computed name selects like the name it computes |
| `BindingLaws.HasNameRule` | src/libexpr/eval.cc:1515-1535 | `?` is true at the end of the path and false where an attribute is not there |
| `BindingLaws.SelectNameError` | src/libexpr/eval.cc:1435-1513 | in a selection a computed name is evaluated before the set is forced |
| `BindingLaws.SelectForceError` | src/libexpr/eval.cc:1435-1513 | a default does not catch an error of forcing the set |
| `BindingLaws.HasForceError` | src/libexpr/eval.cc:1515-1535 | with `?` the set is forced before the name is computed |
| `CallLaws.ManyArgsRule` | src/libexpr/eval.cc:1570-1780 | the result of the first argument is applied to the others; an error ends the call |
| `CallLaws.SimpleCallRule` | src/libexpr/eval.cc:1641-1643 | the body runs in the scope of the function, where the parameter is the argument |
| `CallLaws.ParamRule` | src/libexpr/eval.cc:1591-1640 | matching succeeds exactly if nothing demanded is missing and, without an ellipsis, nothing is unexpected; a given argument beats the default |
| `CallLaws.PatternCallRule` | src/libexpr/eval.cc:1582-1660 | the body runs in the frame that matching gives |
| `CallLaws.FunctorCallRule` | src/libexpr/eval.cc:1756-1768 | a set with a `__functor` is called as the functor on the set itself and then on the argument |
| `CallLaws.PatternErrorRule` | src/libexpr/eval.cc:1582-1589 | a function with a pattern forces its argument, which must be a set |
| `CallLaws.FunctorErrorRule` | src/libexpr/eval.cc:1756-1768 | an error of the functor, or of applying it to the set, is the error of the call |
| `CallLaws.NotAFunctionRule` | src/libexpr/eval.cc:1770-1780 | nothing else can be called |
| `FreeNames.ScopedIsResolved` | src/libexpr/nixexpr.cc:315-581 | an expression is accepted exactly if its sources exist and the surrounding scope resolves its free names, none being free inside a `with` |
| `FreeNames.ClosedPrograms` | src/libexpr/nixexpr.cc:345-347 | a whole program is rejected exactly if some name is free in it |
| `FuelStability.MoreEval` | src/libexpr/eval.cc:1233-2100 | an evaluation that ended stays as it is with more fuel |
| `FuelStability.MeaningIsUnique` | src/libexpr/eval.cc:1233-2100 | an expression has at most one value or error, whatever the fuel |
| `FuelStability.MeaningIsPreserved` | src/libexpr/nixexpr.cc:315-554 | if an expression has a value or error by name, the bound expression has exactly its image by level and displacement |
| `FuelStability.DivergenceIsPreserved` | src/libexpr/nixexpr.cc:315-554 | an expression diverges by name if and only if the bound expression diverges |
| `FrameFill.DenotesMeans` | src/libexpr/eval.cc:1059-1076 | forcing a shared value, a constant or a thunk yields what evaluating the expression yields; one settles exactly when the other does |
| `FrameFill.DenotesKept` | src/libexpr/eval.cc:1066-1076 | what a value denotes it keeps denoting while the heap grows and frames are completed |
| `FrameFill.SlotMeansDefinition` | src/libexpr/eval.cc:1270-1300 | every slot of a completed frame is forced to the value of its definition in the completed frame |
| `FrameFill.Heap.MaybeThunk` | src/libexpr/eval.cc:1059-1100 | the value returned denotes the expression in its environment, filled slots being shared |
| `FrameFill.Heap.FillFrame` | src/libexpr/eval.cc:1287-1300 | filling slot by slot ends with every slot denoting its expression, sharing inside the frame going only to earlier slots |
| `FrameFill.Heap.FillRec` | src/libexpr/eval.cc:1367-1382 | the frame and the frame of `inherit` sources are completed: plain definitions denote their expressions in the new frame, inherited names in the outer one, names from a source in the frame of sources |
| `FrameFill.Heap.FillCall` | src/libexpr/eval.cc:1576-1616 | the frame of a call is completed: the given arguments themselves, and defaults denoting their expressions in the call frame |
| `FrameFill.LookupRule` | src/libexpr/eval.cc:922-928 | a variable's value is in the slot of its displacement, as many frames up as its level |
| `FrameFill.OwnVariable` | src/libexpr/eval.cc:1066-1076 | a plain definition that is a variable of its own frame is forced to what that variable's slot is forced to |
| `FrameFill.OverriddenRule` | src/libexpr/eval.cc:1316-1324 | an override set gives a name the value of its attribute of that name |
| `FrameFill.KeptDefinition` | src/libexpr/eval.cc:1292-1297 | because definitions are delayed when there is an `__overrides`, rewriting slots leaves every definition denoted in the rewritten frame |
| `FrameFill.Heap.EvalRec` | src/libexpr/eval.cc:1270-1327 | in the end every slot equals the binding at its displacement and holds the overriding value or denotes its definition in the environment of its kind, in the overridden heap, shared only from an earlier slot; the `inherit` sources denote their expressions there too; other overriding attributes are appended |
| `FrameFill.ApplyOverrides` | src/libexpr/eval.cc:1310-1326 | after the loop every slot equals the binding at its displacement and holds the overriding value if there is one; other attributes are appended |
| `EvalCache.InsertOk` | src/libexpr/eval-cache.cc:124-149 | an inserted or replaced row gets a fresh id and keeps all rows faithful and all full sets complete |
| `EvalCache.CIntExact` | src/libexpr/eval-cache.cc:201-215 | the conversion to a C `int` fits and differs by a multiple of 2^32; an integer survives it if and only if it fits, and 2^31 does not |
| `EvalCache.WalkRule` | src/libexpr/eval-cache.cc:568-580 | without a cache a path is found exactly if every name on it is an attribute of the set before it |
| `EvalCache.WalkStops` | src/libexpr/eval-cache.cc:568-580 | otherwise the first name that is not decides: a failure, a value that is not a set, or a set without it |
| `EvalCache.AttrCache.constructor` | src/libexpr/eval-cache.cc:343-384 | an empty cache is consistent |
| `EvalCache.AttrCache.Reopen` | src/libexpr/eval-cache.cc:60-96 | a database reopened by a later process is consistent |
| `EvalCache.AttrCache.GetAttrOk` | src/libexpr/eval-cache.cc:297-341 | what is read for a key matches what its row was allocated for; a full row reads back exactly the set's names |
| `EvalCache.AttrCache.Insert` | src/libexpr/eval-cache.cc:124-149 | the id counter grows, the row is replaced, and nothing recorded under an older id changes |
| `EvalCache.AttrCache.SetAttrs` | src/libexpr/eval-cache.cc:124-149 | afterwards the children of the new row are exactly the attribute names |
| `EvalCache.AttrCache.GetRoot` | src/libexpr/eval-cache.cc:371-384 | one new root cursor at the end, all other cursors exactly as they were |
| `EvalCache.AttrCache.GetKey` | src/libexpr/eval-cache.cc:386-395 | the key always stands for the cursor's path: the assertion never fires |
| `EvalCache.AttrCache.GetValue` | src/libexpr/eval-cache.cc:397-411 | evaluates to the outcome at the cursor's path, never "unexpectedly missing" |
| `EvalCache.AttrCache.FetchCachedValue` | src/libexpr/eval-cache.cc:413-419 | the cursor remembers its row if there is one, other cursors are unchanged; raises a cached failure exactly if that row is one, and only where evaluation fails |
| `EvalCache.AttrCache.ForceValue` | src/libexpr/eval-cache.cc:448-481 | evaluates; a value that is not a set and was not known, or a failure, is written to the cursor's row, an integer as a C `int`; otherwise nothing changes |
| `EvalCache.AttrCache.MaybeGetAttr` | src/libexpr/eval-cache.cc:492-548 | the child cursor exists exactly when the attribute does, except that a cached failure of the child may be raised here; it is one new cursor tied to its parent's row, and on a set rows are only added |
| `EvalCache.AttrCache.FindAlongAttrPath` | src/libexpr/eval-cache.cc:568-580 | agrees with walking the path without a cache, up to an earlier cached failure on the path |
| `EvalCache.AttrCache.GetString` | src/libexpr/eval-cache.cc:582-601 | agrees with the uncached run; a path value is answered by its absolute path exactly if it was known |
| `EvalCache.AttrCache.GetBool` | src/libexpr/eval-cache.cc:647-665 | agrees with the uncached run |
| `EvalCache.AttrCache.GetInt` | src/libexpr/eval-cache.cc:668-687 | agrees with the uncached run up to the C `int` conversion: what was loaded if it was known, else the integer, whose row is then written |
| `EvalCache.AttrCache.GetAttrs` | src/libexpr/eval-cache.cc:722-752 | the names of the set, as in the uncached run |
| `EvalCache.AttrCache.Step` | src/libexpr/eval-cache.cc:386-752 | one operation by any cursor keeps every row and every cursor's remembered (id, value) pair valid, adds exactly the cursors it found, is ignored exactly for an unknown cursor, and answers correctly |
| `EvalCache.AttrCache.Run` | src/libexpr/eval-cache.cc:386-752 | over any interleaving, with the number of cursors before each operation: exactly operations on cursors that exist by then are answered, for that cursor's path and in agreement with evaluation, and every new cursor, those made on the way along a path included, has the path it stands for |
| `EvalCache.RowAtAdded` | src/libexpr/eval-cache.cc:492-548 | when rows are only added, a path leads to the same row as before |
| `EvalCache.RowAtWritten` | src/libexpr/eval-cache.cc:297-341 | after the row of a path is replaced, the path leads to the new row |
| `EvalCache.AttrCache.Visit` | src/libexpr/eval-cache.cc:492-580 | going down from a new root to any path that does not fail gives a cursor tied to the row the path leads to, whatever was in the database |
| `EvalCache.AttrCache.AskIntAt` | src/libexpr/eval-cache.cc:668-687 | from any state, the answer is the integer as a C `int` if the path leads to its row and the integer itself otherwise; afterwards the path leads to its row |
| `EvalCache.AttrCache.AskStringAt` | src/libexpr/eval-cache.cc:582-601 | the same for a path value, with its absolute path and its other rendering |
| `EvalCache.AttrCache.AskIntTwice` | src/libexpr/eval-cache.cc:201-215 | evaluate, reopen, ask again: the second answer is the integer as a C `int`, so right if and only if the integer fits |
| `EvalCache.AttrCache.AskStringTwice` | src/libexpr/eval-cache.cc:466-468 | evaluate, reopen, ask again: the second answer is the absolute path, so right if and only if both renderings agree |
| `EvalCache.WideInteger` | src/libexpr/eval-cache.cc:201-215 | the failing input: 2^31 is answered first as itself and then as -2^31 |
| `EvalCache.TwoRenderings` | src/libexpr/eval-cache.cc:466-468 | the failing input for path values: shown one way at first and as the absolute path afterwards |
| `Calls.ApplyAllKeepsWhnf` | src/libexpr/eval.cc:1559-1566 | every partial-application chain that calls build hangs off a primop and is shorter than its arity |
| `Calls.CallSplit` | src/libexpr/eval.cc:1542-1780 | calling on `xs ++ ys` equals calling on `xs` and then the result on `ys`, errors included |
| `Calls.CallRules` | src/libexpr/eval.cc:1542-1780 | a call without arguments forces the function, a lambda runs its body on the argument, and what is neither function nor functor cannot be called |
| `Calls.FunctorRule` | src/libexpr/eval.cc:1756-1768 | a functor is called on the set itself, and the result of that on the argument, errors included |
| `Calls.ApplyPartial` | src/libexpr/eval.cc:1678-1690 | too few arguments give the extended chain |
| `Calls.ApplyExact` | src/libexpr/eval.cc:1706-1754 | the missing arguments run the primop on exactly its arity of arguments, in their original order |
| `Calls.CollectArgs` | src/libexpr/eval.cc:1706-1740 | the array filled from the back holds the chain's arguments, oldest first, then the new ones |
| `Calls.MakeAppChain` | src/libexpr/eval.cc:1559-1566 | builds the chain with the arguments in order |
| `Calls.CallFunction` | src/libexpr/eval.cc:1542-1780 | the batching loop equals application of one argument at a time |
| `Formals.CountingIsExact` | src/libexpr/eval.cc:1597-1640 | the number of used attributes equals the set's size if and only if every attribute is a formal |
| `Formals.FillSlots` | src/libexpr/eval.cc:1597-1616 | every formal gets its attribute or its default, and the count is the overlap of the names |
| `Formals.FirstUnexpected` | src/libexpr/eval.cc:1620-1640 | if some attribute is not a formal the search finds the first one: `unreachable()` is never reached |
| `Formals.MatchFormals` | src/libexpr/eval.cc:1597-1640 | succeeds exactly when the arguments fit; otherwise names a missing or an unexpected argument |
| `Formals.AutoArgs` | src/libexpr/eval.cc:1831-1860 | passes on exactly the arguments that are formals (all with an ellipsis), or names a required one that is missing |
| `Formals.AutoCall` | src/libexpr/eval.cc:1831-1862 | once a function without an ellipsis is called, both argument checks succeed |
| `Formals.TargetRule` | src/libexpr/eval.cc:1817-1825 | following functors never stops at a functor and goes on with what applying each one yields |
| `Formals.TargetIsStable` | src/libexpr/eval.cc:1817-1825 | a chain of functors that ends has one target, whatever the fuel |
| `Formals.AutoCallFunction` | src/libexpr/eval.cc:1811-1863 | functors are applied until something else is left, or without end; what is not a function with formals is returned; a function is called unless, without an ellipsis, a required argument is missing, and then both checks succeed |
| `Bindings.Get` | src/libexpr/include/nix/expr/attr-set.hh:353-372 | binary search in each layer from the top is lookup in the denoted map |
| `Bindings.MergeSorted` | src/libexpr/eval.cc:1990-2017 | the three loops compute the merge function |
| `Bindings.MergeSortedness` | src/libexpr/eval.cc:1990-2017 | the merge has strictly increasing names |
| `Bindings.MergeMap` | src/libexpr/eval.cc:1990-2017 | the merge denotes the right-biased union |
| `Bindings.ConsumeAll` | src/libexpr/include/nix/expr/attr-set.hh:241-256 | all cursors end up past the current name, nothing larger is skipped |
| `Bindings.Iterate` | src/libexpr/include/nix/expr/attr-set.hh:130-340 | iterating over layers yields the denoted map in strictly increasing order, each name once, as many as the recorded size |
| `UpdateOperator.Intersect` | src/libexpr/include/nix/expr/attr-set.hh:496-502 | the two-pointer walk counts the attributes that the base already has |
| `UpdateOperator.Layer` | src/libexpr/include/nix/expr/attr-set.hh:478-510 | the new chain denotes the union and its recorded size is the number of distinct names |
| `UpdateOperator.UpdateSets` | src/libexpr/eval.cc:1949-2022 | layering or copying, the result is valid and denotes the right-biased union |
| `UpdateOperator.EvalForUpdate` | src/libexpr/eval.cc:2040-2058 | the queue is extended by exactly the operands from right to left; the error is that of the rightmost operand that fails |
| `UpdateOperator.DenoteRule` | src/libexpr/eval.cc:2024-2058 | the reference gives every name its value from the rightmost operand that has it, and fails with the rightmost error |
| `UpdateOperator.EvalUpdate` | src/libexpr/eval.cc:2024-2038 | succeeds exactly if all operands are sets; then a name is in the result exactly if some operand has it, with the value of the rightmost one; else the rightmost error; for any threshold and layer limit |
| `Equality.MismatchIsMissing` | src/libexpr/eval.cc:2850-2872 | at the first name mismatch of sorted sets one name is missing on the other side: `assert(false)` is unreachable |
| `Equality.AssertMatchesEq` | src/libexpr/eval.cc:2719-3022 | `assertEqValues` returns, reports or throws exactly as `eqValues` returns true, returns false or throws |
| `EqualityLaws.SameObjectRule` | src/libexpr/eval.cc:2934-2941 | errors of forcing come first, the left one before the right one; a value equals itself, also a function |
| `EqualityLaws.KindRule` | src/libexpr/eval.cc:2949-3003 | values of different kinds differ, and so do two functions |
| `EqualityLaws.SimpleRule` | src/libexpr/eval.cc:2953-2969 | integers, booleans, strings, paths and null are equal exactly if their contents are |
| `EqualityLaws.NumberRule` | src/libexpr/eval.cc:2943-2947 | integers and floats are compared as numbers, in either order |
| `EqualityLaws.ListRule` | src/libexpr/eval.cc:2971-2977 | lists of different lengths differ; others are equal exactly if all elements are |
| `EqualityLaws.IsDerivationRule` | src/libexpr/eval.cc:2465-2476 | a set is a derivation exactly if its `type` is the string "derivation" |
| `EqualityLaws.DerivationRule` | src/libexpr/eval.cc:2979-2987 | two derivations are compared by their `outPath`s alone |
| `EqualityLaws.SetRule` | src/libexpr/eval.cc:2989-2998 | other sets are equal exactly if they have the same names with equal values |
| `Ordering.StrLtRule` | src/libexpr/primops.cc:725-777 | at the first difference the smaller byte comes first; a proper prefix comes first |
| `Ordering.LtRules` | src/libexpr/primops.cc:725-777 | integers are compared as integers, strings and paths by their text; an integer and a string cannot be compared |
| `Ordering.LtListRule` | src/libexpr/primops.cc:757-770 | lists are compared by the first elements that are not equal; a proper prefix comes first |
| `Ordering.EqIsSameContents` | src/libexpr/eval.cc:2930-2977 | on integers, strings and nested lists `eqValues` is equality of contents, pointer shortcut included |
| `Ordering.PlainTrichotomy` | src/libexpr/primops.cc:725-777 | comparison is defined in both directions or neither; if defined, exactly one of `<`, `>`, `==` holds |
| `Ordering.PlainTransitive` | src/libexpr/primops.cc:725-777 | the comparison is transitive |
| `Ordering.CompareIsStrictOrder` | src/libexpr/primops.cc:709-782 | on evaluator values: irreflexive, transitive, and trichotomous with `eqValues` |
| `KeyMap.InsertIsExact` | src/libexpr/primops.cc:843-846 | although only the keys on one way down are compared, inserting into a map of any shape throws if and only if some key in it cannot be compared with the new one; otherwise it finds exactly an equal key or adds the new one |
| `GenericClosure.FirstByKeyRule` | src/libexpr/primops.cc:820-846 | what is kept are the first occurrences of keys, in their order |
| `GenericClosure.OutputsInOrder` | src/libexpr/primops.cc:876-884 | outputs are queued source by source, and for one source in the order the operator returned them |
| `GenericClosure.ClosureFacts` | src/libexpr/primops.cc:788-901 | the fixed point has distinct keys, contains the start keys and is closed under the operator |
| `GenericClosure.Closure` | src/libexpr/primops.cc:788-901 | the result is the breadth-first, first-seen fixed point, each element from the start set or an earlier element, with one operator call per element; it terminates; on failure the error is that of the first element of the work list whose key fails, whose key cannot be compared with that of an earlier result, or whose key is new and whose operator call fails |
| `ForceDeep.Forcer.Recurse` | src/libexpr/eval.cc:2286-2330 | forces no node twice, only reachable nodes, and on success closes the seen set under children |
| `ForceDeep.ForceValueDeep` | src/libexpr/eval.cc:2286-2330 | on cyclic graphs too: succeeds exactly when no reachable node fails, and then has forced exactly the reachable nodes, once each |
| `ListToAttrs.SortFacts` | src/libexpr/primops.cc:3336-3339 | sorting by name and position keeps the cells and orders them strictly |
| `ListToAttrs.Compact` | src/libexpr/primops.cc:3341-3354 | the in-place pass keeps exactly the first cell of each run, never overwriting a cell before it is read |
| `ListToAttrs.ListToAttrs` | src/libexpr/primops.cc:3311-3360 | strictly increasing names, exactly those of the list, each bound to its first occurrence; or the error of the first bad name, or of the least name whose first occurrence has no value |
| `ReplaceStrings.FirstMatch` | src/libexpr/primops.cc:5089-5095 | the first pattern in list order that matches at the position |
| `ReplaceStrings.ForceOnce` | src/libexpr/primops.cc:5096-5108 | a replacement is forced only at its first use, also if it throws |
| `ReplaceStrings.Run` | src/libexpr/primops.cc:5064-5126 | the loop equals leftmost, first-pattern-wins replacement, empty patterns and the end included; on every run, failing or not, the replacements forced are exactly those used, each once and in the order of first use; the context is the subject's plus that of the replacements used |
| `ReplaceStrings.UsesAreMatched` | src/libexpr/primops.cc:5087-5118 | every replacement used belongs to the first pattern that matches at a position the loop looks at |
| `ReplaceStrings.FailsAtLast` | src/libexpr/primops.cc:5087-5118 | the run fails exactly if the last replacement used throws, with its error; none used before it does |
| `ReplaceStrings.FirstsFacts` | src/libexpr/primops.cc:5096-5108 | first uses are distinct and exactly the uses |
| `ReplaceStrings.NothingMatches` | src/libexpr/primops.cc:5119-5123 | where no pattern matches, nothing changes and no replacement is used |
| `ReplaceStrings.EmptyPattern` | src/libexpr/primops.cc:5110-5113 | an empty pattern puts its replacement before every character and at the end |
| `ReplaceStrings.InterleavedAt` | src/libexpr/primops.cc:5110-5113 | character by character: replacement and text alternate |
| `ReplaceStrings.MatchIsReplaced` | src/libexpr/primops.cc:5109-5116 | a match of a pattern that is not empty is replaced, and the rest goes on behind it |
| `ReplaceStrings.ContextOfUses` | src/libexpr/primops.cc:5098-5108 | the context added is exactly that of the replacements used |
| `ReplaceStrings.ReplaceBySelf` | src/libexpr/primops.cc:5064-5126 | replacing every pattern by itself returns the input |
| `Json.JSONSax.OnEvent` | src/libexpr/json-to-value.cc:113-197 | each callback takes the machine step |
| `Json.JSONSax.SaxParse` | src/libexpr/json-to-value.cc:105-197 | a stream of events runs the machine, up to the first error |
| `Json.FeedTree` | src/libexpr/json-to-value.cc:18-197 | from any state, the events of one text fill the current slot and leave the rest of the stack alone, or fail with the text's first error |
| `Json.FeedMembers` | src/libexpr/json-to-value.cc:53-77 | the members of an object accumulate with the last duplicate winning |
| `Json.MachineRules` | src/libexpr/json-to-value.cc:53-103 | a value event is appended to a list, fills the last key of an object or is the result; closing the top level is an error |
| `Json.ItemsInOrder` | src/libexpr/json-to-value.cc:79-103 | the elements of a list are those of the array, in order |
| `Json.LastMemberWins` | src/libexpr/json-to-value.cc:72-76 | in the value of an object the last member of a name gives the name its value |
| `Json.RejectRules` | src/libexpr/json-to-value.cc:134-158 | strings and names with a NUL byte and integers beyond 64 bits are rejected |
| `Json.PrintSetRule` | src/libexpr/value-to-json.cc:51-74 | a set with `__toString` prints as the string that yields, else one with `outPath` as that, else as an object |
| `Json.PrintDenotes` | src/libexpr/value-to-json.cc:13-105 | the printed text of a portable value denotes that value |
| `Json.RoundTrip` | src/libexpr/value-to-json.cc:13-105 | feeding the events of a printed value to the machine rebuilds the value |
| `Repl.Deduplicate` | src/libexpr/include/nix/expr/nixexpr.hh:913-923 | the in-place loop keeps the last entry of every run |
| `Repl.Find` | src/libexpr/include/nix/expr/nixexpr.hh:925-932 | binary search finds the entry of a name if there is one |
| `Repl.AddedScope` | src/libcmd/repl.cc:831-869 | appending, sorting and deduplicating yields exactly the latest entry of every name |
| `Repl.AddedRule` | src/libcmd/repl.cc:831-869 | a newly added set gives its names their values |
| `Repl.NotAddedRule` | src/libcmd/repl.cc:831-869 | and it leaves the others |
| `Repl.DefineRule` | src/libcmd/repl.cc:871-881 | a definition gives the name its value and leaves the others |
| `Repl.ReloadForgets` | src/libcmd/repl.cc:780-786 | a reload forgets earlier additions: a name in none of the sets resolves to nothing |
| `Repl.NixRepl.InitEnv` | src/libcmd/repl.cc:750-760 | a fresh environment with nothing added; the old one is untouched |
| `Repl.NixRepl.Lookup` | src/libcmd/repl.cc:750-881 | a name resolves to its most recent addition since the last reset |
| `Repl.NixRepl.AddVarToScope` | src/libcmd/repl.cc:871-881 | adds one variable unless the environment is full; no filled slot changes |
| `Repl.NixRepl.AddAttrsToScope` | src/libcmd/repl.cc:831-869 | adds a whole set or nothing; no filled slot changes |
| `Repl.NixRepl.Execute` | src/libcmd/repl.cc:682-688 | one command, reload included, keeps the invariants and every slot filled before |
| `Repl.NixRepl.BindThenRun` | src/libcmd/repl.cc:682-881 | an expression bound now keeps its meaning: after any commands, redefinitions and reloads included, the slot a name resolved to still holds what the name meant then |
| `Repl.NixRepl.Session` | src/libcmd/repl.cc:682-881 | over any session the counter stays within the environment, the scope is that of the additions since the last reset, and no filled slot is rewritten |

## Left out

- BindVars.BindExpr: has no float, path, string interpolation and position expressions, which bind their parts in the same scope; rebuilds the expression with its fields instead of writing them into the syntax tree; only the objects of variables and `with` are updated in place. An `inherit (from)` index outside the sources, which the parser never produces, counts as failure.
- StaticScope.Find: takes the first position in declaration order; that the vector is kept sorted and searched by bisection is modelled in `Repl.Find`.
- ScopeSimulation.SimEval: is for sets without `__overrides`; run-time recursion is bounded by fuel, so divergence is running out of every fuel, as `FuelStability` states. Definitions are always delayed there; the shortcut of `maybeThunk` is proved separately on the heap of `FrameFill`, whose evaluator takes all other expressions as a parameter; the two evaluators are not connected by a simulation. Formals are matched by direct search there; counting is proved exact in `Formals`. Floats, paths, string interpolation, arithmetic, comparisons and builtins do not touch scopes and are not in these evaluators.
- ScopeSimulation.SimAttrs: leaves out the `__overrides` branch, which is modelled in `FrameFill.Heap.EvalRec`.
- FrameFill.Heap.EvalRec: the attributes of `__overrides` are a parameter; values observed while it is itself being forced depend on the order of forcing and are not modelled, nor is the overwriting of forced thunks by their values. Evaluation of other expressions is a parameter that may depend on the heap.
- EvalCache.AttrCache.Run: assumes deterministic evaluation and a root that is a set. SQLite is a map with increasing ids: its errors and the `failed` flag are not modelled. String contexts, `getListOfStrings`, `getStringWithContext`, the memo of the value in a cursor and the order in which names are read back (a set here) are not modelled.
- EvalCache.AttrCache.GetInt: agrees only for integers that fit a C `int`, as `EvalCache.AttrCache.AskIntTwice` states exactly.
- EvalCache.AttrCache.GetString: for path values agrees only where both renderings are the same, as `EvalCache.AttrCache.AskStringTwice` states exactly.
- Calls.CallFunction: function bodies, primops and forcing are parameters; a functor call uses one unit of fuel; the frame of a lambda call is modelled in `Formals` and `DisplEval`.
- Formals.AutoCallFunction: what applying a `__functor` yields is a parameter; an endless chain of functors is running out of every fuel.
- Bindings.Iterate: the heap of cursors is modelled by its specification, the least name and then the uppermost layer.
- Equality.AssertMatchesEq: floating point and external comparisons are parameters; values are finite trees; the texts of the errors are not modelled.
- Ordering.CompareIsStrictOrder: floats (NaN breaks the order) and paths (compared without their accessor) are outside the domain; on those `CompareValues` is modelled but no order is claimed.
- GenericClosure.Closure: keys are integers, strings and nested lists, of which finitely many are reachable. The map is a search tree without rebalancing; `KeyMap.InsertIsExact` holds for any shape.
- ForceDeep.ForceValueDeep: derivation handling of error traces and the extension of the error message are not modelled.
- ListToAttrs.ListToAttrs: `std::sort` is an insertion sort with the same order.
- ReplaceStrings.Run: forcing of the pattern list and of the subject before the loop is not modelled.
- Json.RoundTrip: floats, paths, `outPath` and `__toString` sets, string contexts and the copying of paths to the store are outside the round trip; lexing of JSON text into events (and of integers beyond 64 bits into floats) is the JSON library's.
- Repl.NixRepl.Session: expressions are evaluated before they are added; parsing, loading files and flakes, and completion are not modelled. A set that does not fit is skipped where the code throws and goes on with the next command.
- Garbage collection, call-depth limits, black holes, positions, error traces, profiling, statistics and the debugger.
- The store, fetchers, derivations and their hashes, import from derivation, search paths and file system accessors.
- Regular expressions, version comparison, hash formats, the C API, command-line flags and rendering of documentation.

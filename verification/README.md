# Lix: the evaluator core and its stateful protocols

A Dafny model of the hardest parts of the Lix package manager, with proofs. Check
everything with `dafny verify dfyconfig.toml`.

**Evaluator.** `Syntax` is the core language: literals, variables, `let`, plain and `rec`
sets, `inherit`, `inherit (from)`, dynamic attributes, `with`, both lambda patterns,
calls, selection and `?` along static and dynamic attribute paths, `//`, `if`. `Binder`
is `VarBinder`. `Semantics` is a call-by-name interpreter in two modes: looking variables
up by name, or by the level, displacement and `with` chain that binding wrote.
`Laws` states what every construct means, on expressions: which definition counts, in which
scope it is evaluated, what shadows what, what a function sees of its argument.
`BindingTheorem` proves the modes equal for every program, environment and fuel.
`Denotation`, `Equations` and `Failures` turn the fuel-indexed interpreter into fuel-free
rules for values and for errors. `HeapRelation` and `Machine` are the call-by-need
evaluator: environments and thunks in a heap updated in place, black holes, restore on
error, slot copying, write-back. Every method of `Machine.Evaluator` is proved to give
what call by name gives, value or error: whatever it reports, other than a black hole or
running out of fuel, call by name reports too. `Programs` and `DeepResults` put both
theorems together: a bound program, run by need, yields exactly the first-order data that
the by-name interpreter of the unbound program yields. `DeepForcing` does the same for
`forceValueDeep`, whose memory of visited values makes it end on cyclic values.

**Evaluator parts.** `AttributeSets` (sorted arrays, binary search, merge),
`SetConstruction` (`__overrides` and dynamic attributes), `Patterns` (argument
matching), `Equality` (`eqValues`) and `Calls` (`callFunction` with primops, partial
applications and functors).

**Protocols and services.** `Contexts`, `AttrDatabase` and `EvalCaching` (evaluation
cache), `Names` (byte order of strings), `ProfileProtocol` (optimistic profile update by
any number of processes), `Upgrade` (choice of derivations), `BuildHook` and
`MachineSelection` (remote builds), `SourcePaths` (path checks), `JsonValues` (JSON in
and out).

Six intended properties turned out false of the code. Each has a concrete witness and
an exact condition:

* `callFunction` asserts that a partial application is never an application of an
  application. `builtins.map` over a partially applied primop that is still short of
  arguments builds such a value, forcing leaves it alone, and calling it fails the
  assertion (`Calls.MappedPartialApplication`, `Calls.AssertionExact`, `Calls.CallBlame`).
* A machine with speed factor 0, which validation admits, has quotient 0/0 when idle. If
  it is the first machine with a free slot, no later machine replaces it
  (`MachineSelection.UselessMachineTaken`, `MachineSelection.PickedExact`).
* A scan counts taken slots as load. If a machine is listed twice, it also counts the slot
  it holds itself (`BuildHook.OwnLockCounted`, `BuildHook.ProbeFails`).
* The cache stores integers in a 32-bit column, so a second session can answer
  differently from the first (`EvalCaching.TruncatedNextTime`).
* The cache joins the elements of a string context by blanks and splits them at
  semicolons. A string with two elements is answered once; every later session fails to
  read its row (`Contexts.TwoElementsUnreadable`, `Contexts.ContextReadBack`,
  `EvalCaching.UnreadableNextTime`).
* A cursor that has evaluated a string remembers it without its context, so asking the
  same cursor again loses the context (`EvalCaching.ContextForgotten`).

## Model

| member | source | states |
|---|---|---|
| Binder.VisitVar | lix/libexpr/nixexpr.cc:492-536 | the scope-chain loops find the innermost lexical frame that binds the name, else the nearest `with` and its distance, else nothing |
| Binder.VisitWith | lix/libexpr/nixexpr.cc:650-669 | `parentWith` is the nearest enclosing `with` and `prevWith` the number of frames to it |
| BindingTheorem.SlotAgrees | lix/libexpr/nixexpr.cc:559-590 | every frame that evaluation builds has, slot by slot, the contents the binder laid out |
| BindingTheorem.LexicalAgrees | lix/libexpr/nixexpr.cc:498-523 | level and displacement lead to the innermost binding by name, and exist exactly when there is one |
| BindingTheorem.WithsAgree | lix/libexpr/eval-inline.hh:269-290 | the `prevWith`/`parentWith` walk visits the enclosing `with` frames in order and gives the innermost that has the name |
| BindingTheorem.LookupAgrees | lix/libexpr/eval-inline.hh:253-291 | lookup by displacement or `with` chain gives what lookup by name gives, errors included |
| BindingTheorem.MatchAgrees | lix/libexpr/eval.cc:1048-1117 | argument frames are laid out as the binder numbered them, and matching succeeds or fails alike in both modes |
| BindingTheorem.DynsAgree | lix/libexpr/eval-expr.cc:157-214 | dynamic attributes give the same set or the same error before and after binding |
| BindingTheorem.PathAgrees | lix/libexpr/nixexpr.cc:538-557 | an attribute path, dynamic names included, leads to the same place or error before and after binding |
| BindingTheorem.ApplyAgrees | lix/libexpr/eval.cc:1145-1290 | calls of lambdas and functors give the same result before and after binding |
| BindingTheorem.EvalAgrees | lix/libexpr/nixexpr.cc:492-735 | binding preserves meaning: for every expression, environment and fuel the two modes give the same value or error |
| Laws.DefinedName | lix/libexpr/nixexpr.hh:374-386 | a name of a `let` or recursive set means its last definition: a plain one evaluated inside the scope, an inherited one outside it, one of `inherit (from)` under a frame of the sources |
| Laws.LetBody | lix/libexpr/eval-expr.cc:220-238 | the body of a `let` sees these definitions |
| Laws.Source | lix/libexpr/eval-expr.cc:65-83 | a source of `inherit (from)` is evaluated in the scope of the set |
| Laws.SetEntries | lix/libexpr/eval-expr.cc:85-153 | a set has exactly the attributes it defines, each meaning its last definition; a recursive set is their scope, a plain one is not |
| Laws.NameLetThrough | lix/libexpr/eval-inline.hh:253-262 | a frame that does not bind a name lets it through |
| Laws.WithScope | lix/libexpr/eval-inline.hh:264-290 | a `with` never shadows a name bound further out; any other name it looks up in its set, and beyond it further out |
| Laws.Parameter | lix/libexpr/eval.cc:1038-1046 | a function sees its argument, suspended where the call stands |
| Laws.ArgumentName | lix/libexpr/eval.cc:994-1022 | a name of an argument frame means what was passed, or its default evaluated beside the other arguments |
| Laws.PatternMatches | lix/libexpr/eval.cc:994-1117 | exactly when an argument set fits a pattern, with which error it fails otherwise, and what the function then sees |
| Laws.Functor | lix/libexpr/eval.cc:1263-1278 | a set is called through `__functor`, which gets the set and then the argument |
| Laws.ListElements | lix/libexpr/eval-expr.cc:240-248 | element i of a list is its i-th expression, suspended where the list stands |
| Laws.SelectOne | lix/libexpr/eval-expr.cc:535-600 | selecting an attribute gives it, the default, or the error for a missing attribute or a non-set; `?` tells which |
| Laws.DynamicSelection | lix/libexpr/eval.cc:168-177 | a dynamic name selects what the string it evaluates to selects |
| Laws.PathGoesOn | lix/libexpr/eval-expr.cc:627-657 | a longer path goes on from where its beginning ends |
| Laws.UpdateWins | lix/libexpr/eval-expr.cc:345-352 | `//` has the attributes of both sides, the right one winning |
| Denotation.EvalMono | lix/libexpr/eval-expr.cc:60-279 | a result of the interpreter does not change with more fuel |
| Machine.Evaluator.MaybeThunk | lix/libexpr/eval-expr.cc:24-53 | a literal, an empty list or a copied slot stands for the same computation as the thunk it replaces; an unfilled slot is never copied |
| Machine.Evaluator.UpEnv | lix/libexpr/eval-inline.hh:255-256 | walking `level` frames up the heap reaches the frame that the interpreter's environment has there |
| Machine.Evaluator.CopiedSlot | lix/libexpr/eval-expr.cc:29-39 | sharing the content of a variable's slot preserves value, error and fuel |
| Machine.Evaluator.Force | lix/libexpr/eval-inline.hh:193-212 | a result is the call-by-name value, an error a call-by-name error, and what call by name gives is found with enough fuel; black-holed thunks are exactly the force stack before and after; a failed thunk gets its environment and expression back, a resolved one keeps its result, a black hole fails with infinite recursion |
| Machine.Evaluator.ForceSlot | lix/libexpr/eval-expr.cc:250-263 | forcing a slot writes back a value that stands for the same computation |
| Machine.Evaluator.LookupWith | lix/libexpr/eval-inline.hh:269-290 | the memoising walk over `with` scopes finds what the by-name walk finds; each of its errors is an error of that walk |
| Machine.Evaluator.Evaluate | lix/libexpr/eval-expr.cc:60-279 | evaluation by need agrees with evaluation by name in value and error, in both directions, leaves no new black hole and never reads an unfilled slot |
| Machine.Evaluator.EvalSelect | lix/libexpr/eval-expr.cc:602-671 | selection along a path of static and dynamic names, its default and its errors agree with call by name |
| Machine.Evaluator.EvalHasAttr | lix/libexpr/eval-expr.cc:673-690 | the test along a path agrees with call by name, a component missing or in no set giving false |
| Machine.Evaluator.WalkPath | lix/libexpr/eval-expr.cc:627-657 | the walk along a path ends where the by-name walk ends or with its error, whichever of name and value is evaluated first |
| Equations.PathFuel | lix/libexpr/eval-expr.cc:535-600 | where a path leads does not depend on the order in which names and values are evaluated; only errors can differ |
| Machine.Evaluator.EvalUpdate | lix/libexpr/eval-expr.cc:345-352 | `//` agrees with call by name, the right set winning |
| Machine.Evaluator.EvalLet | lix/libexpr/eval-expr.cc:220-238 | the recursive frame of a `let` has every slot filled and standing for its definition |
| Machine.Evaluator.EvalWith | lix/libexpr/eval-expr.cc:265-272 | the body sees the suspended scope in slot 0 of a new frame |
| Machine.Evaluator.EvalSet | lix/libexpr/eval-expr.cc:85-218 | plain and recursive sets agree with call by name, dynamic attributes and duplicates included |
| Machine.Evaluator.BuildInheritFromEnv | lix/libexpr/eval-expr.cc:72-83 | each source of `inherit (from)` is suspended in the inner environment, in a frame of its own |
| Machine.Evaluator.CallFunction | lix/libexpr/eval.cc:1145-1290 | the call loop agrees with call by name for any number of arguments |
| Machine.Evaluator.MatchPattern | lix/libexpr/eval.cc:1038-1117 | matching builds the frame of the interpreter; each of its errors is one of the interpreter; defaults are suspended in the new frame |
| Programs.ProgramAgrees | lix/libexpr/nixexpr.cc:492-735 | binding preserves the result of every closed program |
| Programs.Run | lix/libexpr/eval-inline.hh:193-226 | for whole programs: a result is the by-name result, every error other than infinite recursion is the by-name error, a by-name value or error is found with enough fuel, infinite recursion is reported only of programs with no by-name result, and no black hole remains |
| Programs.ErrorIsByName | lix/libexpr/eval-inline.hh:193-226 | an error of the bound program by displacement is an error of the unbound program by name |
| DeepResults.DeepAgrees | lix/libexpr/nixexpr.cc:492-735 | binding preserves first-order data exactly, at every fuel |
| DeepResults.ForceDeep | lix/libexpr/eval.cc:1446-1487 | reading a value out completely gives exactly the data that re-evaluation gives, and gives it whenever the fuel allows |
| DeepResults.RunDeep | lix/libexpr/eval-expr.cc:24-53 | call by need with displacements and thunk shortcuts yields the same first-order data as by-name re-evaluation of the unbound program, in both directions |
| DeepForcing.ForceValueDeep | lix/libexpr/eval.cc:1446-1487 | each thunk is visited once; at the end every thunk reachable from the value has a result; an error is one of a part of the value; the descent is bounded by the number of distinct thunks met |
| DeepForcing.SettledHasParts | lix/libexpr/eval.cc:1453-1456 | when the traversal has ended, everything inside the value has a value at every depth, on cyclic values too |
| DeepForcing.PartsAgree | lix/libexpr/nixexpr.cc:492-735 | binding preserves which parts a value has, to any depth |
| DeepForcing.RunForced | lix/libexpr/eval.cc:1446-1487 | for whole programs: if deep forcing ends well, the by-name interpreter of the unbound program finds a value at every depth; if it fails, something inside the by-name value has that error or no result |
| AttributeSets.Bindings.Get | lix/libexpr/attr-set.hh:74-81 | binary search returns the map's value of the name, or nothing if there is none |
| AttributeSets.Bindings.PushBack | lix/libexpr/attr-set.hh:152-156 | appends within the capacity |
| AttributeSets.Bindings.Sort | lix/libexpr/attr-set.cc:31-34 | sorts strictly and keeps the map |
| AttributeSets.SortKeepsMap | lix/libexpr/attr-set.cc:31-34 | sorting distinct names gives a strictly sorted array of the same map |
| AttributeSets.UpdateAttrs | lix/libexpr/eval.cc:1356-1396 | merging strictly sorted arrays gives a strictly sorted array within the allocated size, equal to the left map overridden by the right; an empty side returns the other set itself |
| SetConstruction.BuildSet | lix/libexpr/eval-expr.cc:85-218 | the array is strictly sorted, within capacity and equal to static attributes overridden by `__overrides` plus the dynamic ones, or the same error; each environment slot and the entry of its name come from one word by forcing, whatever evaluation writes back in between |
| SetConstruction.ApplyOverrides | lix/libexpr/eval-expr.cc:124-142 | known names are replaced in array and environment alike, new ones appended, and the result sorted |
| SetConstruction.AddDynamicAttrs | lix/libexpr/eval-expr.cc:157-214 | null names are skipped, a taken name is an error, and the array stays sorted so that the search for duplicates is right |
| SetConstruction.DynamicsExact | lix/libexpr/eval-expr.cc:157-214 | dynamic attributes are accepted exactly when every name is null or a string and the names are new and pairwise different; then all are added |
| SetConstruction.DynamicsFailure | lix/libexpr/eval-expr.cc:157-190 | otherwise adding stops at the first name that does not evaluate or is taken, and reports that one |
| SetConstruction.SlotsKept | lix/libexpr/eval-expr.cc:106-143 | dynamic attributes and the forcing of slots while their names are evaluated keep slots and entries in agreement |
| SetConstruction.BaseSlotsAgree | lix/libexpr/eval-expr.cc:106-143 | after overriding, every slot agrees with its entry up to forcing |
| SetConstruction.PlainEntries | lix/libexpr/eval-expr.cc:106-117 | without `__overrides` a set has its definitions and nothing else, each starting with the word `maybeThunk` gives |
| SetConstruction.OverriddenEntries | lix/libexpr/eval-expr.cc:110-142 | with `__overrides`, all but inherited definitions are suspended; its attributes win over definitions of the same name, others are added, every other definition stays, and the slots follow |
| SetConstruction.DynamicMapAt | lix/libexpr/eval-expr.cc:157-214 | each dynamic attribute has the thunk that stands with its name |
| Patterns.UsedCountExact | lix/libexpr/eval.cc:1025-1033 | as many names used as given exactly when every given name is a formal |
| Patterns.MatchupLambdaAttrs | lix/libexpr/eval.cc:994-1036 | reports exactly the missing and the unexpected names, in order, and fills the slots when none is missing |
| Patterns.MissingExact | lix/libexpr/eval.cc:1000-1022 | the missing names are those of formals neither given nor defaulted |
| Patterns.MissingAscending | lix/libexpr/eval.cc:1000-1022 | and come in ascending order |
| Patterns.UnexpectedExact | lix/libexpr/eval.cc:1025-1033 | the unexpected names are the given ones that are not formals |
| Patterns.Has | lix/libexpr/nixexpr.hh:489-494 | binary search over the formals decides membership |
| Patterns.BuildEnv | lix/libexpr/nixexpr.cc:711-729 | the whole argument gets displacement 0 and the formals the following ones, in order |
| Patterns.MatchPattern | lix/libexpr/eval.cc:1048-1117 | succeeds exactly when every formal without default is given and, without ellipsis, every given name is a formal; then the whole argument and every formal, given or defaulted, are at the binder's displacements |
| Equality.EntryByEntry | lix/libexpr/eval.cc:1913-1924 | two sorted arrays stand for the same map exactly when they agree entry by entry |
| Equality.PlainSets | lix/libexpr/eval.cc:1901-1925 | unless both sets are derivations with an `outPath`, comparing arrays decides equality of canonical forms |
| Equality.EqValues | lix/libexpr/eval.cc:1854-1942 | comparison decides sameness of values, stated on the values themselves, and equality of a canonical form; hence it is an equivalence relation and the pointer shortcut is harmless |
| Equality.CanonMeans | lix/libexpr/eval.cc:1854-1942 | canonical forms are equal exactly when ints, booleans, paths and texts of strings are equal, lists and sets hold the same, and two sets whose `type` is the string `derivation` and that have an `outPath` have the same `outPath` |
| Equality.DerivationMeans | lix/libexpr/eval.cc:1600-1612 | a set is a derivation exactly if its attribute `type` is the string `derivation` |
| Calls.CallFunction | lix/libexpr/eval.cc:1119-1291 | the loop computes the step-by-step meaning of a call |
| Calls.LambdaCall | lix/libexpr/eval.cc:1147-1170 | a lambda takes one argument |
| Calls.FunctorCall | lix/libexpr/eval.cc:1263-1278 | calling a set with an argument is calling its functor with the set and the argument |
| Calls.PrimOpCall | lix/libexpr/eval.cc:1173-1261 | a primop waits until it has all its arguments and gets them in the order in which they came |
| Calls.ForceNested | lix/libexpr/eval-inline.hh:213-224 | a primop applied in portions is left alone exactly as long as all portions together are too few |
| Calls.ForceForced | lix/libexpr/eval-inline.hh:213-224 | forcing ends in a value that is forced: no saturated application remains at its head, and forcing it again changes nothing |
| Calls.CallsCompose | lix/libexpr/eval.cc:1145-1290 | calling with `a + b` is calling with `a` and then the result with `b`, for lambdas, primops, partial applications and functors, errors and divergence included |
| Calls.CallSound | lix/libexpr/eval.cc:1134-1141 | on sound values the assertion never fails and the result is sound |
| Calls.StepBuildsFlat | lix/libexpr/eval.cc:1173-1229 | whatever lambdas and primops do, a partial application that a step builds is a primop with more than zero and fewer than arity arguments |
| Calls.CallBuildsFlat | lix/libexpr/eval.cc:1134-1141 | so the result of every call is such an application or the answer of a lambda or primop |
| Calls.HitsFails | lix/libexpr/eval.cc:1217-1221 | a call that reaches an unsaturated application of an application fails the assertion, in any evaluator |
| Calls.MappedPartialApplication | lix/libexpr/eval.cc:1217-1221 | the lazy application that `map` builds over a short partial application is left by forcing and fails the assertion, where the flat form calls the primop |
| Calls.AssertionExact | lix/libexpr/eval.cc:1217-1221 | where lambdas and primops answer sound values, the assertion fails exactly when the called value, followed through saturated applications and functors, leads to an unsaturated application of an application |
| Calls.CallBlame | lix/libexpr/eval.cc:1145-1290 | in any evaluator, a call fails the assertion or returns a value that will exactly when the called value already would or something it evaluates answers so: the loop neither adds nor loses a nested application |
| AttrDatabase.AttrDb.Insert | lix/libexpr/eval-cache.cc:206-220 | a replaced row gets an unused id; every id ever given out keeps its attribute path and meaning |
| AttrDatabase.AttrDb.SetAttrs | lix/libexpr/eval-cache.cc:91-117 | the rows under the new id are exactly the set's attributes |
| AttrDatabase.AttrDb.GetAttr | lix/libexpr/eval-cache.cc:270-313 | what a row says is true of the tree at its path; reading fails exactly at a string whose context cannot be read |
| AttrDatabase.InsertOk | lix/libexpr/eval-cache.cc:91-252 | inserting or replacing a row keeps the table true of the tree, stale ids included |
| AttrDatabase.AdditiveRows | lix/libexpr/eval-cache.cc:467-525 | opening cursors adds placeholders only: what a new session finds at a path that had a row is unchanged |
| AttrDatabase.TruncateIs | lix/libexpr/eval-cache.cc:170-186 | the stored integer is the 32-bit one with the same last 32 bits |
| Contexts.ContextReadBack | lix/libexpr/eval-cache.cc:290-297 | a context is read back as it was written exactly when it has at most one element, without a semicolon; any other context cannot be read at all |
| Contexts.ElementThenBlank | lix/libstore/path.cc:37-48 | no store path, and so no context element, parses with a blank and anything after it |
| Contexts.ElementCut | lix/libexpr/value/context.cc:5-50 | nor does a context element cut at a semicolon |
| Contexts.TwoElementsUnreadable | lix/libexpr/eval-cache.cc:130-133 | a context of two elements cannot be read back |
| EvalCaching.AttrCursor.GetKey | lix/libexpr/eval-cache.cc:370-379 | the assertion never fails: the parent always has a row id, and the key names this cursor's path |
| EvalCaching.AttrCursor.ForceValue | lix/libexpr/eval-cache.cc:424-459 | gives the tree's value and records a row that is true of it |
| EvalCaching.AttrCursor.MaybeGetAttr | lix/libexpr/eval-cache.cc:467-525 | returns a cursor exactly if direct evaluation finds the attribute, whatever is cached; fails only at a row whose context cannot be read |
| EvalCaching.AttrCursor.GetString | lix/libexpr/eval-cache.cc:549-570 | the string or path of direct evaluation, or its type error; fails exactly at a row whose context cannot be read |
| EvalCaching.AttrCursor.GetStringWithContext | lix/libexpr/eval-cache.cc:572-617 | the string and context of direct evaluation, or no context if this cursor remembered the string before; stored contexts count only while their paths are valid |
| EvalCaching.AttrCursor.GetBool | lix/libexpr/eval-cache.cc:619-639 | the boolean of direct evaluation, or its type error; fails only at a row whose context cannot be read |
| EvalCaching.AttrCursor.GetInt | lix/libexpr/eval-cache.cc:641-661 | the integer of direct evaluation, or that integer cut to 32 bits exactly if a row for it was there, or its type error |
| EvalCaching.AttrCursor.GetAttrs | lix/libexpr/eval-cache.cc:700-728 | the attribute names of direct evaluation, or its type error |
| EvalCaching.Session | lix/libexpr/eval-cache.cc:353-728 | any sequence of requests over any number of cursors, opened anywhere and at any time, on any table left by earlier sessions, is answered as by direct evaluation except at strings whose rows cannot be read, and leaves a valid table; equal to direct evaluation without a table, or if there is no such string and nothing that storage cuts |
| EvalCaching.DirectReplyMeans | lix/libexpr/eval-cache.cc:467-728 | what direct evaluation answers to each request, per kind of value |
| EvalCaching.TruncatedNextTime | lix/libexpr/eval-cache.cc:170-186 | anywhere in any tree, on any table, an integer without a row is answered exactly and then cut to 32 bits; the two sessions agree exactly when it fits or had a row |
| EvalCaching.AskIntAt | lix/libexpr/eval-cache.cc:641-661 | what a session answers for an integer anywhere in a tree depends only on whether its path has an integer row |
| EvalCaching.AskStringAt | lix/libexpr/eval-cache.cc:549-570 | what a session answers for a string anywhere in a tree depends only on whether its path has an unreadable row; afterwards it has one exactly if its context is unreadable |
| EvalCaching.UnreadableNextTime | lix/libexpr/eval-cache.cc:119-143 | anywhere in any tree, on any table, a string without an unreadable row is answered; the next session answers it exactly when its context has at most one element, without a semicolon |
| EvalCaching.ContextForgotten | lix/libexpr/eval-cache.cc:439-447 | asked twice, one cursor gives the context and then none; anywhere in any tree, on any table, the answers agree exactly when there is no context or the string has a row |
| EvalCaching.ReadableAnswers | lix/libexpr/eval-cache.cc:353-728 | on trees without unreadable strings every request is answered as by direct evaluation |
| ProfileProtocol.StepInv | lix/legacy/user-env.cc:138-155 | every step of every process keeps the lock, token and history invariant |
| ProfileProtocol.NoLostUpdates | lix/legacy/nix-env.cc:549-579 | in every run each commit stores its operation applied to what the commit before it stored, and the profile shows the last one |
| ProfileProtocol.RestartsOnlyWhenOvertaken | lix/legacy/user-env.cc:144-148 | a process restarts only if others have committed since it read its token; it gives the lock back and begins again with the same operation |
| ProfileProtocol.OperationKept | lix/legacy/nix-env.cc:549-579 | no step of any process drops an operation that is under way: it stays under way, is committed, or its own process stops |
| ProfileProtocol.BegunIsServed | lix/legacy/nix-env.cc:549-579 | in every run, an operation begun by a process that is never stopped is under way or in the log, however often it was overtaken |
| ProfileProtocol.UndisturbedCommits | lix/legacy/user-env.cc:138-155 | a process that nobody disturbs commits its operation, applied to what is installed |
| ProfileProtocol.GenerationsKept | lix/libstore/profiles.cc:76-113 | generations are never changed or removed, and a new one is made exactly when its elements differ from the last |
| ProfileProtocol.NotOvertakenGoesThrough | lix/legacy/user-env.cc:144-152 | the recheck passes exactly when the token still stands, and then nothing computed is stale |
| ProfileProtocol.MutualExclusion | lix/legacy/user-env.cc:142-153 | at most one process is between locking and switching the link |
| Upgrade.ChooseUpgrade | lix/legacy/nix-env.cc:650-674 | picks the first best candidate by priority, then version, among those of the same name that meet the mode, do not lower the priority and are prebuilt if required |
| Upgrade.ChoiceSpelledOut | lix/legacy/nix-env.cc:643-674 | the choice on names, priorities, versions and modes: same package, no lower priority, prebuilt if asked for, version newer, no older, the same or any; highest priority, then newest version, then first |
| Upgrade.UpgradedIs | lix/legacy/nix-env.cc:676-690 | an element stays if it is kept, nothing may replace it, or the choice has the same output; otherwise the choice takes its place |
| Upgrade.FirstBestUnique | lix/legacy/nix-env.cc:643-649 | there is only one such candidate |
| Upgrade.UpgradeElems | lix/legacy/nix-env.cc:631-695 | one new element per installed one, in order: kept, unchanged, or replaced by the best candidate when its output differs |
| Upgrade.UpgradeKeepsPackage | lix/legacy/nix-env.cc:643-649 | an upgrade keeps the package name, never lowers priority, and changes version only as the mode allows |
| Upgrade.UpgradeDetermined | lix/legacy/nix-env.cc:631-695 | the installed and available elements determine the outcome |
| Upgrade.MatchesPreordered | lix/legacy/nix-env.cc:295-303 | comparison by system, priority and version is a total preorder |
| Upgrade.PickNewestOnly | lix/legacy/nix-env.cc:279-324 | exactly one match per name, the first greatest by this system, priority and version, in byte order of the names |
| Upgrade.PickSpelledOut | lix/legacy/nix-env.cc:295-303 | the pick is for this system if any match is, then of highest priority, then newest, then first |
| Names.AscendingUnique | lix/legacy/nix-env.cc:312-319 | a set of names has only one ascending listing, so the order of the result is determined |
| Names.BeforeMeans | lix/legacy/nix-env.cc:312-319 | in byte order the first difference decides and a beginning comes first |
| BuildHook.StepInv | lix/legacy/build-remote.cc:92-145 | every probe, release and hand-over keeps each slot lock with the one process that has it open |
| BuildHook.SlotExclusion | lix/legacy/build-remote.cc:241-288 | in every run no two processes hold the same slot |
| BuildHook.BuildsBounded | lix/legacy/build-remote.cc:109-118 | in every run at most `max_jobs` processes occupy a machine |
| BuildHook.LoadIsRealLoad | lix/legacy/build-remote.cc:109-118 | if no machine is listed twice, a probe fails exactly on slots that connecting or building processes occupy |
| BuildHook.ProbeFails | lix/legacy/build-remote.cc:109-118 | for any list, a probe fails exactly on slots that connecting or building processes occupy or that the scan itself holds, never on another scan's probes |
| BuildHook.OwnLockCounted | lix/legacy/build-remote.cc:109-118 | on the second turn of a machine listed twice the scan counts the slot it has kept |
| BuildHook.OneScanner | lix/legacy/build-remote.cc:241-271 | only one process scans at a time |
| BuildHook.ScanGoesOn | lix/legacy/build-remote.cc:104-142 | a scan is never stuck and every step brings it nearer to its end |
| BuildHook.FoundIsKept | lix/legacy/build-remote.cc:109-140 | a probe takes a free slot and counts a taken one as load; a scan that has a slot has one until it connects, and the better of two is kept |
| BuildHook.SlotKept | lix/legacy/build-remote.cc:241-288 | a slot stays with the process that connects and builds on it until that process gives it up; a failed connection is followed by another scan |
| BuildHook.NeverStuck | lix/legacy/build-remote.cc:241-290 | a waiting process scans as soon as nobody else does |
| BuildHook.Instance.BeginBuild | lix/legacy/build-remote.cc:402-409 | a call goes ahead exactly when none is pending, none was accepted and the instance is initialised |
| BuildHook.Instance.EndBuild | lix/legacy/build-remote.cc:409-411 | the instance stays used exactly when the build was accepted |
| BuildHook.AtMostOneBuild | lix/legacy/build-remote.cc:402-413 | however calls and answers interleave, an instance has at most one build, pending or accepted |
| BuildHook.AcceptedForGood | lix/legacy/build-remote.cc:405-410 | after an accepted build nothing that arrives later starts another |
| BuildHook.CallsAreTaken | lix/legacy/build-remote.cc:402-413 | an initialised instance without a build takes the next call; a refused one leaves it free for another |
| BuildHook.Serve | lix/legacy/build-remote.cc:338-413 | the `used` flag makes an instance accept exactly the builds of that account |
| MachineSelection.ProbeSlots | lix/legacy/build-remote.cc:107-118 | finds the first free slot and counts the taken ones |
| MachineSelection.SelectBestMachine | lix/legacy/build-remote.cc:92-145 | tells whether a machine is eligible, and returns the offer the scan settles on, with a slot of that machine |
| MachineSelection.OffersAre | lix/legacy/build-remote.cc:105-121 | offers are the eligible machines with a free slot, each with its first free slot, and there is none exactly when no eligible machine has one |
| MachineSelection.PickedExact | lix/legacy/build-remote.cc:122-140 | the scan returns the earliest offer that is least by load over speed, then higher speed, then lower load, in an order defined apart from the test in the loop, exactly when it does not start with an idle machine of speed zero that a usable one follows |
| MachineSelection.ReplacesMeans | lix/legacy/build-remote.cc:123-135 | the test in the loop is this order |
| MachineSelection.SelectedIsFit | lix/lix-rs/src/machines.rs:116-150 | a machine is selected exactly if one is enabled, builds for the system, supports what the build requires, is asked for what it insists on and has a free slot; the selected one is such a machine |
| MachineSelection.SelectedIsBest | lix/legacy/build-remote.cc:92-145 | no machine that can build and has a free slot beats the selected one, and none before it is as good |
| MachineSelection.OffersComplete | lix/legacy/build-remote.cc:103-121 | every eligible machine with a free slot is considered |
| MachineSelection.LoadIsTaken | lix/legacy/build-remote.cc:108-118 | the load is the number of taken slots |
| MachineSelection.EarliestBestUnique | lix/legacy/build-remote.cc:122-140 | there is only one such machine |
| MachineSelection.UselessMachineTaken | lix/legacy/build-remote.cc:123-135 | of two idle builders alike but for speed, the one of speed zero is selected if it is listed first |
| MachineSelection.ConnectToBuilder | lix/legacy/build-remote.cc:217-291 | connects at most once to each machine and disables exactly those that failed; declines temporarily exactly when an eligible machine remains, none has a free slot and no local build is possible now |
| SourcePaths.InsertPermits | lix/libexpr/eval.cc:416-429 | after `allowPath` the trie permits exactly what it did and everything at or under the new path |
| SourcePaths.InsertVisible | lix/libexpr/eval.cc:416-429 | and shows exactly what it did and everything on the way to the new path |
| SourcePaths.Walk | lix/libexpr/eval.cc:480-518 | one pass finds the first link, leaves at the first component outside the trie, and looks only at visible paths |
| SourcePaths.FreshCheck | lix/libexpr/eval.cc:466-528 | the restart loop ends after at most 512 passes, since each restart counts twice, with the answer of the recursive check |
| SourcePaths.LinkFollowed | lix/libexpr/eval.cc:495-511 | a path through a visible link is answered as the path with the link's target in its place, relative to where the link lies or to the root, followed by the rest; a link outside the trie is forbidden |
| SourcePaths.LinkReplaced | lix/libexpr/eval.cc:501-511 | in particular, the text of a canonical link replaces the link |
| SourcePaths.LinkFree | lix/libexpr/eval.cc:513-521 | a path without links is answered by itself if it is permitted, and refused otherwise |
| SourcePaths.NormaliseSplit | lix/libexpr/eval.cc:501-511 | link text is read piece by piece |
| SourcePaths.NormaliseText | lix/libexpr/eval.cc:501-511 | empty components and `.` stay, `..` goes up but not above the root, canonical text goes down |
| SourcePaths.AcceptedIsAllowed | lix/libexpr/eval.cc:513-521 | an accepted path has no link at any prefix and lies at or under an allowed path |
| SourcePaths.AcceptedIsStable | lix/libexpr/eval.cc:444-521 | an accepted path checks out as itself |
| SourcePaths.GrantKeepsAnswers | lix/libexpr/eval.cc:448-450 | allowing more paths never changes an answer that was given |
| SourcePaths.LimitIrrelevant | lix/libexpr/eval.cc:473-477 | a check that ends below the limit does not depend on it |
| SourcePaths.EvalPaths.AllowPath | lix/libexpr/eval.cc:416-429 | the trie stands for the allowed set plus the new path, and every cached answer stays right |
| SourcePaths.EvalPaths.CheckSourcePath | lix/libexpr/eval.cc:444-528 | cached or not, the answer is that of a fresh check; an accepted path is link-free and allowed; nothing outside allowed paths and the way to them is looked at |
| JsonValues.EventsAdd | lix/libexpr/json-to-value.cc:29-172 | inside any open objects and arrays, the events of a tree add exactly its meaning |
| JsonValues.JsonSax.On | lix/libexpr/json-to-value.cc:58-172 | each event handler performs the machine's step |
| JsonValues.ParseJson | lix/libexpr/json-to-value.cc:181-188 | on the events of any tree no assertion fails, nothing stays open, and the result is the tree's meaning, the last duplicate key winning |
| JsonValues.LastMemberCounts | lix/libexpr/json-to-value.cc:29-56 | of several members of one name the last counts |
| JsonValues.PrintValueAsJson | lix/libexpr/value-to-json.cc:10-113 | fails exactly on functions, failing `__toString` and failing copies; otherwise the tree means the value without contexts, with sets that have `__toString` or `outPath` replaced and infinite numbers null, its members are in byte order, and all contexts are collected |
| JsonValues.PlainMeans | lix/libexpr/value-to-json.cc:24-77 | `__toString` comes before `outPath`, paths print as their text, infinite numbers as null |
| JsonValues.ContextMeans | lix/libexpr/value-to-json.cc:24-90 | which contexts are collected |
| JsonValues.TidyUnique | lix/libexpr/value-to-json.cc:50-62 | printed trees are the same exactly when they mean the same, so the printed form of a value is determined |
| JsonValues.PlainIsBasic | lix/libexpr/value-to-json.cc:48-77 | what is read back contains no context, path, infinite number, `outPath` or `__toString` |
| JsonValues.PrintThenParse | lix/libexpr/value-to-json.cc:10-113 | printing and parsing returns the same value exactly when it has no function, path, context, infinite number, `outPath` or `__toString` |

## Left out

- Primops, strings with context, paths, floats, assertions, arithmetic and string interpolation in the evaluator core; primops appear abstractly in `Calls`.
- Names that are undefined when bound: the binder rejects such programs, while the model lets both interpreters fail when the variable is evaluated, which covers the accepted programs.
- Positions, traces, suggestions, statistics, debugger frames, call-depth limits, the check for shadowed internal symbols, and garbage collection.
- Machine.Evaluator.Force: results are written back into environment slots, but not into list elements and attribute entries, and lazy applications are left to `Calls`.
- Machine.Evaluator.EvalSet: a `rec` set with `__overrides` gives an error, because overriding depends on the order of evaluation and has no call-by-name meaning; `SetConstruction` treats it.
- Machine.Evaluator.CallFunction: primops and partial applications are in `Calls`.
- Machine.Evaluator.MatchPattern: allocates the frame after forcing the argument instead of before, and an empty `inherit (from)` frame is always allocated; neither can be observed.
- DeepResults.ForceDeep: collects the data of a value, which a cyclic value does not have, so it runs out of fuel there; `DeepForcing` forces cyclic values. Attributes are forced in no particular order, so which of several errors is reported is left open.
- DeepForcing.ForceValueDeep: remembers thunks instead of the addresses of words, which visits the same values; recursion depth is bounded by a parameter.
- Binder.VisitVar: the later-insert-wins map of a static frame is the contract of `StaticEnv`.
- AttributeSets.Bindings.Sort: insertion sort stands for `std::sort`; the 32-bit size limit of `allocBindings` is not modelled.
- SetConstruction.BuildSet: the words that `maybeThunk` and `makeThunk` give, what forcing `__overrides` and evaluating dynamic names answer, and what they leave in the slots are arbitrary.
- Calls.CallFunction: lambda bodies, primops and thunks are arbitrary functions with results in weak head normal form; memoisation of applications and the depth limit are not modelled.
- Equality.EqValues: floats, functions and external values, whose comparison needs rounding or identity alone; thunks are forced beforehand.
- EvalCaching.AttrCursor.GetKey: the branch that reloads the parent's row is unreachable, since a cursor with children has its row id; `getListOfStrings`, cached failures and SQLite errors are not modelled.
- EvalCaching.AttrCursor.GetAttrs: names are a set; the code sorts them when it evaluates the set, and lists them as the database does when it reads a row.
- ProfileProtocol.NoLostUpdates: `opSet`, rollback, switching and deleting generations bypass the token or bring an old link name back; operations are arbitrary relations between old and new elements, and equal store paths mean equal elements.
- Upgrade.PickNewestOnly: the warning about several derivations of one name.
- Upgrade.ChooseUpgrade: names and versions are given apart; version order is any total preorder.
- BuildHook.BuildsBounded: all processes read the same machine list; which free slot is kept at each machine is left open, and `MachineSelection` decides it.
- BuildHook.Serve: the single-use flag of an accepted build's `run`, which is set only after an await.
- MachineSelection.PickedExact: speeds are exact non-negative reals; rounding and NaN speeds are not modelled.
- SourcePaths.Walk: the file tree is fixed and `lstat` and `readLink` do not fail; equality with the operating system's real path is not claimed, since link targets are normalised as text.
- JsonValues.PrintValueAsJson: finite floats are exact reals, external values count as functions, and JSON text itself is the parser library's.
- JsonValues.PrintThenParse: finite floats are exact reals, so their shortest decimal form is not modelled.
- The parser, the REPL, builders, stores, channels, sandboxing and all command-line handling.

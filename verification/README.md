# craftgo: a verified model of its analyser, parser and file writer

craftgo compiles a small API language: `.craftgo` designs are lexed, parsed,
analysed, formatted and turned into Go code. This project models the parts of
that compiler whose correctness is not visible in any one function, and proves
what they promise, for all inputs.

`dafny verify dfyconfig.toml` checks everything.

## What is modelled

- **Generic instantiation.** `Ast` and `Spelling` hold type references, name
  resolution, substitution and re-qualification between packages.
  `Instantiation` is the type-parameter flow graph and the search for flows
  that grow on a cycle; `Paths` is reachability in any graph. `Boundedness`,
  `Finiteness` and `Divergence` prove what the search decides. A type needs the
  instances that its fields and its mixins name, generic arguments included, as
  the package that spells them resolves the names; a mixin is looked up in its
  own package, and one that names no type there needs nothing. For every package
  these instances are finitely many exactly when no flow that package sees, at
  sites that expand, nests its parameter deeper on a cycle. That
  holds for every project whose parameter names are distinct within a type and
  take no arguments; the parser drops a repeated name
  (`internal/parser/parser_types.go:28-55`), and another check rejects
  arguments on a parameter (`internal/semantic/typerefs.go:125-130`).
  `Denotation` proves that spelling a type in another package keeps its
  meaning. `TypeParts` says which named types a type is made of, `Walk` is the
  walk over struct instances that relies on all of it, in the order that `Ways`
  defines, and `SeenKeys` the keys it marks them seen under.
- **Mixins.** `Flatten` expands each mixin type once, `Promotion` says exactly
  which fields that yields and how their types are spelled, and `FieldOrder`
  where each stands and which of several mixins of one type it comes through.
  `Mixins` is the stack-based check, `MixinReports` says exactly what it
  reports, and `Distinctness` proves that where it is silent the expansion
  repeats no field name.
- **Type grammar.** `Brackets` is the whole-file bracket table, `AngleClosing`
  and `PairClosing` say without stacks which brackets it marks closed,
  `TypeParser` is the recursive-descent parser, `RoundTrip` the proof that
  every printed type parses back inside any file, and `ParsedForms` the proof
  that a parse without a report has read the printed form of its result.
  `ListEnds` is about lists with a comma before their closer or without one, and
  `ParseEchoes` about every stream: what is consumed is what the result holds.
- **Routes.** `Routes` and `Resolution` are the route functions, `Readings` says
  how segments are read for every name, `RouteLanguages` defines the paths a route matches, and `Dispatch` the project checks
  and the proof that they make dispatch deterministic among routes of one
  length, with the exact gap that is left across lengths.
- **Value domains.** `Constraints` reads bounds off decorators, `Conditions`
  writes out what each decorator asks, `Multiples` is the arithmetic of common
  multiples, `NumericDomain` the emptiness check, and `Satisfiability` the proof
  that it reports exactly the domains in which nothing meets what is asked.
- **File commit.** `Disk` is a file tree whose operations may fail, `TempNames`
  the names of temporaries, `Stages` and `Renaming` what staging and renaming
  may do to a tree, and `Commits` the code that does it or undoes it.
  `Generation` commits a list of files, `Clashes` proves exactly when a
  completed commit can lose one of them, and `Passes` collects the writes of a
  pass.
- **The rest.** `PackageCycles` (shortest reference cycles), `Utf8` and
  `Positions` (lexer positions against UTF-16 editor positions), `Encodings`
  (both against the encodings themselves), `Idents` and `GoNames` (Go field
  names), `Comments` (the formatter's check of its own output).

Code that updates state is modelled by classes and by methods with loops, each
proved against a specification function or a direct property; lemmas then
speak about the specification.

### How source entities appear

- A project is one map from (package, name) to type declaration, beside the set
  of enum and scalar names.
- The table of references that name a type parameter
  (`internal/semantic/lookup.go:137-155`), which the analyser keys by pointer,
  is the flag `param` on each reference; `Marked` says when that table is right.
- `Array` and `ArrayDepth` are one number, `dims`.
- A report is a boolean or a set of offenders; wording, codes and positions of
  diagnostics are not modelled.
- Operating-system calls in `Disk` fail or succeed by a nondeterministic choice,
  so every claim about a commit holds for every pattern of failures. On a device
  that is not `faulty` they fail only for a reason in the tree, which is what the
  claims that a commit succeeds are about.

### Findings

- A bare field type that its own package does not declare stays bare when a body
  is spelled for another package, and that package may declare it. Package `a`
  with `Box<T> { f X<T> }` (no `X` in `a`) and package `v` with
  `X<U> { f a.Box<U[]> }` has no endless flow, yet the instances seen from `v`
  deepen for ever (`CapturedNotFinite`). `FiniteIffSettled` is the exact
  condition, package by package, and `SilenceRightExactly` says when silence of
  the search is right for a package: exactly when no deepening cycle it sees
  runs through a site whose name it captures. Another check reports the
  undeclared name. A mixin's own name is never captured: with
  `Box<T> { X<T> }` in `a` the same project is finite (`CapturedMixinFinite`).
- `Box<T> { f Box<T?> }` is reported as instantiating endlessly, although its
  instances are finitely many: `?` does not accumulate (`OptionalLoopFinite`).
  So is `Box<T> { Nope<Box<T[]>> }` where nothing declares the mixin `Nope`: the
  search follows its argument, and no flattening does (`NopeMixinFinite`).
  `EndlessRightExactly` says when report and fact agree, and
  `UncapturedRightExactly` that, without captured names, they part exactly when
  every endless flow found only adds `?` or has no cycle without the help of a
  mixin that names no type.
- Routes of different segment counts are never reported
  (`internal/route/route.go:234-241`), but `/a/{rest...}` and `/{x}/b/c` share a
  path with neither containing the other (`OverlookedPair`).
  `OverlookedExactly` says which pairs do, and `OrderedExactly` that in a project
  the checks pass these are the only reason for two matching routes of a verb
  not to be ordered.
- A temporary's random name may be the path of another file of the same commit:
  `.a.0.tmp` beside `a`. A commit of both may complete and leave nothing at
  `.a.0.tmp` (`PairLosesFile`). `SafeExactly` gives the condition, `Clash`: a
  file's path is a name the temporary of another file may take, nothing is there
  yet, that other file is not skipped, and the file comes first in the list or
  is gen-once. Undoing a failed staging is exact with or without a clash.
- Between the `\r` and the `\n` of one line end the editor position of a lexer
  position leads to the byte before; everywhere else it leads back
  (`PositionsAgree`).

## Model

| member | source | states |
|---|---|---|
| Spelling.SpellNamed | internal/semantic/flatten.go:283-289 | re-qualifying and then substituting a named type yields the argument with suffixes added, or the re-spelled name with spelled arguments: a re-qualified name is never taken for a parameter |
| Spelling.RefsOfSpelled | internal/semantic/flatten.go:25-80 | every name in a spelled type is a re-spelled name of the original or comes from an argument bound to a parameter the original mentions |
| Spelling.SpelledDepth | internal/semantic/flatten.go:25-80 | spelling deepens a type by no more than the deepest argument it mentions |
| Denotation.SpellDenotes | internal/semantic/flatten.go:283-373 | a type spelled in the view package denotes there what it denotes at home with parameters replaced by their arguments' denotations: nothing is captured or lost |
| Denotation.SubstituteComposes | internal/semantic/flatten.go:25-80 | substituting twice equals substituting once by the composition; array depths add up |
| Denotation.TargetDenotes | internal/semantic/lookup.go:118-141 | a reference resolves to a type iff it denotes that type's declaration: bare names at home, `pkg.Name` in pkg, a type parameter to none whatever is declared under its name |
| TypeParts.NamedExactly | internal/semantic/instantiation_cycles.go:118-127 | the named types of a type are those of all its parts: map keys and values and generic arguments, at any depth |
| Instantiation.ArgFlows | internal/semantic/instantiation_cycles.go:97-111 | exactly the flows of the host's parameters that one argument mentions, each marked growing iff the argument is more than the bare parameter |
| Instantiation.SiteFlows | internal/semantic/instantiation_cycles.go:91-112 | exactly the flows of one instantiation site, none when it names no type |
| Instantiation.HostFlows | internal/semantic/instantiation_cycles.go:85-113 | exactly the flows of one generic type, over every named type its body reaches |
| Instantiation.ParamFlows | internal/semantic/instantiation_cycles.go:82-116 | exactly the flows of the project, over every generic type and every named type its body reaches |
| Instantiation.Enqueue | internal/semantic/instantiation_cycles.go:139-144 | queues exactly the slots not seen before |
| Instantiation.SlotReaches | internal/semantic/instantiation_cycles.go:130-147 | true iff the flows lead from one slot to the other in zero or more steps |
| Instantiation.NextSlots | internal/semantic/instantiation_cycles.go:50-53 | the adjacency lists hold exactly the edges of the flows |
| Instantiation.GrowingOnCycle | internal/semantic/instantiation_cycles.go:54-60 | exactly the growing flows from whose end the start can be reached |
| Instantiation.EndlessParamFlows | internal/semantic/instantiation_cycles.go:46-61 | returns exactly the flows that grow on a cycle of the project's flow graph |
| Boundedness.TargetSpelled | internal/semantic/lookup.go:122-133 | where the view captures no name, a reference of a member that expands, re-spelled for the view, resolves there to the declaration it resolves to at home |
| Boundedness.FlowsAgree | internal/semantic/instantiation_cycles.go:79-116 | such a view sees exactly the flows that the search finds at sites that expand |
| Boundedness.StepFits | internal/semantic/instantiation_cycles.go:79-116 | for any bound per slot that the flows a package sees respect, unfolding any member that expands of any instance keeps every argument of every nested instance within the bound of the slot it fills |
| Boundedness.ArgumentsBounded | internal/semantic/instantiation_cycles.go:46-116 | for any package that sees no deepening flow on a cycle, each argument in every reachable type is no deeper than the start's depth plus one grain per slot that reaches the one it fills |
| Finiteness.ReachedDepth | internal/semantic/instantiation_cycles.go:46-116 | the same bound for whole reachable types |
| Finiteness.SettledFinite | internal/semantic/instantiation_cycles.go:46-116 | for any package that sees no deepening flow on a cycle, all types reached from any type lie in one finite set |
| Divergence.EndlesslyDeep | internal/semantic/instantiation_cycles.go:46-61 | from any type that names an instance of the host of a deepening flow on a cycle, and for every depth, an instance of that host at least that deep is reached |
| Divergence.EndlessNotFinite | internal/semantic/instantiation_cycles.go:46-61 | so no finite set holds what that instance reaches |
| Divergence.FiniteIffSettled | internal/semantic/instantiation_cycles.go:46-116 | for every package, captured names or not: every type needs finitely many types iff no deepening flow the package sees lies on a cycle, mixins being looked up in their own package |
| Divergence.QuietSettled | internal/semantic/instantiation_cycles.go:46-61 | when no endless flow is found, no package that captures no name sees a deepening flow on a cycle |
| Divergence.SilenceRightExactly | internal/semantic/instantiation_cycles.go:46-61 | when no endless flow is found, a package's instances are finitely many iff no deepening cycle it sees runs through a site that it resolves otherwise than the site's own package |
| Divergence.CaptureIsTheCause | internal/semantic/flatten.go:324-373 | when no endless flow is found, every deepening cycle a package sees runs through a site whose bare name that package declares as a type and the site's own package does not declare |
| Divergence.EndlessRightExactly | internal/semantic/instantiation_cycles.go:46-61 | no endless flow is found iff instances are finitely many, exactly when, if none is found, no package sees a deepening cycle through a captured name and, if one is, some package sees a deepening cycle |
| Divergence.UncapturedRightExactly | internal/semantic/instantiation_cycles.go:46-61 | without captured names, report and fact agree iff some endless flow found, if any is, does more than add `?` on a cycle of sites that expand |
| Divergence.EndlessDecidesFiniteness | internal/semantic/instantiation_cycles.go:46-61 | without captured names, optional arguments and mixins that name no type, no endless flow is found iff every type needs finitely many types |
| Divergence.NoEndlessFinite | internal/semantic/instantiation_cycles.go:46-61 | when no endless flow is found, every type reaches finitely many types in every package that captures no name, optional arguments included |
| Divergence.OptionalLoopFinite | internal/semantic/instantiation_cycles.go:97-111 | a project that is reported endless and yet finite |
| Divergence.ArrayLoopNotFinite | internal/semantic/instantiation_cycles.go:46-61 | a regular project that is reported endless and is infinite |
| Divergence.CapturedNotFinite | internal/semantic/flatten.go:328-373 | a project with an undeclared bare field type that is not reported and yet infinite |
| Divergence.CapturedMixinFinite | internal/semantic/flatten.go:295-303 | the same project with the undeclared name as a mixin is not reported and finite: the mixin is looked up at home |
| Divergence.NopeMixinFinite | internal/semantic/flatten.go:295-303 | a project whose only growth is inside the argument of an undeclared mixin is reported endless and yet finite |
| Divergence.MixinLoopNotFinite | internal/semantic/instantiation_cycles.go:46-61 | a type that embeds a larger instance of itself is reported and needs ever larger instances |
| Flatten.FieldWalk.ExpandLevel | internal/semantic/flatten.go:212-242 | the loop over a body yields the fields of `Level`, which `FieldOrder.FlattenedInOrder` characterises, and marks exactly the types it expanded; it ends on every project, mixin cycles included |
| Flatten.FieldWalk.ExpandMixin | internal/semantic/flatten.go:295-322 | a mixin that names no type marks the walk incomplete, one already expanded adds nothing, any other adds its level once |
| Promotion.ExpandedExactly | internal/semantic/flatten.go:155-160 | the types expanded are exactly those reached by one or more mixins, each once |
| Promotion.FieldsExactly | internal/semantic/flatten.go:212-242 | each field name occurs as often as in the body and in each of those types together |
| Promotion.FieldsSpelled | internal/semantic/flatten.go:212-322 | every flattened field is a field of the body or of a type its mixins lead to, its type spelled with the arguments of the mixins on the way |
| FieldOrder.FlattenedInOrder | internal/semantic/flatten.go:150-155 | each field stands where the way to it, member by member through mixins, puts it, home and spelling included; every type is expanded at the first way to it, and no field of an expanded body is missing; so what an earlier member yields stands before what a later one does |
| Promotion.IncompleteExactly | internal/semantic/flatten.go:295-303 | the walk is incomplete iff the body, or a type its mixins reach, has a mixin that names no type |
| Mixins.MixinCheck.CollectMixinFields | internal/semantic/mixin.go:266-310 | the expansion with a stack that is undone on exit computes `CollectType` and restores the stack |
| Mixins.MixinCheck.Process | internal/semantic/mixin.go:212-233 | one mixin: unresolved, no type, wrong arity, or its fields collected with the host on the stack |
| Mixins.MixinCheck.CheckOneTypeMixins | internal/semantic/mixin.go:170-199 | reports iff `Reports` holds, which `MixinReports.ReportsExactly` characterises |
| MixinReports.ReportsExactly | internal/semantic/mixin.go:170-310 | the check reports iff two mixins' names end in one segment, a mixin names an enum or scalar or has the wrong arity, a mixin's family leads back to the host or holds a cycle, or a field name comes from the host and a mixin or from two mixins |
| Distinctness.FamilySeen | internal/semantic/mixin.go:266-310 | a silent collection has met no type of its stack in the whole mixin family and has recorded every field of the family under its own origin: every cycle and conflict is found |
| Distinctness.MemberSeen | internal/semantic/mixin.go:170-233 | a silent check of a host has every promoted field from the mixin that promotes it, and no mixin leads back to the host |
| Distinctness.FamilyApart | internal/semantic/mixin.go:170-233 | in a project without reports no two types of one mixin family share a field name |
| Distinctness.FlattenedDistinct | internal/semantic/flatten.go:155-160 | where the checks are silent and no body repeats its own fields, flattening returns pairwise distinct names |
| Walk.FieldsReached | internal/semantic/flatten.go:212-242 | every flattened field of an instance, through any chain of mixins, has a type the instance reaches, captured names or not |
| Walk.MixinLoopHasNoFields | internal/semantic/flatten.go:307-311 | yet its flattening, which expands a mixin type once, has no field, so no walk comes to them |
| TypeParts.OuterExactly | internal/semantic/binding_checks.go:660-672 | the outer named types of a type are those its maps come to, keys and values alike |
| SeenKeys.KeyInjective | internal/semantic/instantiation_cycles.go:72-77 | two instances with the same key, package and printed form, are the same instance |
| SeenKeys.ReachedLegible | internal/semantic/flatten.go:212-289 | what is reached from a type whose spelling tells its type parameters from names is such a type again, parameters left unbound included |
| Walk.FindUniverse | internal/semantic/instantiation_cycles.go:46-61 | for a package that sees no deepening flow on a cycle, a type has a finite set of types that the walk never leaves and whose instances the keys tell apart |
| Walk.Visitor.VisitFields | internal/semantic/binding_checks.go:584-606 | a walk from any state expands exactly instances reachable through refused fields, all below them included, visits exactly their accepted fields behind all visits of earlier ways, and ends |
| Walk.VisitFieldsWhere | internal/semantic/binding_checks.go:584-606 | visits each accepted field of each instance reached through refused fields, map keys and values included, exactly as often as one expansion holds it, and nothing else, in the order of the ways to them |
| Brackets.FindInnermost | internal/parser/parser_recover.go:49-52 | the innermost open bracket of the kind a closer closes |
| Brackets.MarkAngles | internal/parser/parser_recover.go:31-43 | one token's effect on the open `<` and the marks |
| Brackets.MarkPairs | internal/parser/parser_recover.go:44-57 | one token's effect on the other open brackets and the marks; `PairClosedExactly` says what they amount to |
| Brackets.ClosedBrackets | internal/parser/parser_recover.go:27-60 | marks an opening bracket iff the two stacks, over the whole file, close it |
| AngleClosing.AngleClosedExactly | internal/parser/parser_recover.go:24-43 | a `<` is marked closed iff some later `>` answers it with only names, the word map and `.`, `,`, `?`, `<`, `>`, `[`, `]` between and no earlier `>` doing so |
| PairClosing.PairClosedExactly | internal/parser/parser_recover.go:23-57 | a `(`, `[` or `{` is marked closed iff the matching of the file, where each `)`, `]` or `}` closes the last bracket of its kind that no earlier closer has closed or enclosed, closes it |
| PairClosing.MatchingExists | internal/parser/parser_recover.go:44-57 | every file has such a matching |
| PairClosing.MatchingUnique | internal/parser/parser_recover.go:44-57 | and no other |
| PairClosing.PairsNest | internal/parser/parser_recover.go:23-57 | a bracket opened inside a closed one is closed before it or not at all |
| PairClosing.StrayExactly | internal/parser/parser_recover.go:23-57 | a closer closes nothing iff every bracket of its kind before it was closed or lies inside a closed one |
| TypeParser.Parser.ParseQualifiedIdent | internal/parser/parser_types.go:199-216 | reads the name `ParseName` describes from the cursor on, the parts so far on an error |
| TypeParser.Parser.ParseTypeRef | internal/parser/parser_types.go:133-152 | reads the type, moves the cursor and reports as `ParseType` describes, on every token stream, malformed ones included |
| TypeParser.Parser.ParseMapType | internal/parser/parser_types.go:155-169 | the same for maps, with or without `<` |
| TypeParser.Parser.ParseNamedTypeRef | internal/parser/parser_types.go:173-195 | the same for named types with an argument list, empty and unclosed lists included |
| TypeParser.Parser.ParseArgList | internal/parser/parser_types.go:181-191 | the same for the loop over arguments, which ends on every stream |
| TypeParser.Parser.ListSep | internal/parser/parser_recover.go:97-109 | consumes a comma, and goes on, stops or reports by the next token and whether the list is closed |
| TypeParser.Parser.CloseList | internal/parser/parser_recover.go:113-123 | consumes the closer or reports that it is missing |
| RoundTrip.PrintedAnglesClosed | internal/parser/parser_recover.go:27-60 | wherever a printed type stands in a file, every `<` of it is marked closed |
| RoundTrip.RoundTripInAnyStream | internal/ast/ast_types.go:29-97 | parsing a printed type inside any file, before a token other than `.`, `<`, `[` or `?`, gives the type back, consumes exactly its tokens and reports nothing |
| RoundTrip.PrintInjective | internal/ast/ast_types.go:29-97 | two types that print alike are equal |
| ParsedForms.UnreportedIsPrinted | internal/parser/parser_types.go:131-216 | a parse that reports nothing, on any token stream, has consumed the printed form of its result, but for commas before a `>`, and every `<` among the tokens is marked closed |
| ListEnds.TrailingCommaReads | internal/parser/parser_types.go:173-195 | a comma before the closer of a list changes nothing and is not reported |
| ListEnds.UnclosedStaysOnLine | internal/parser/parser_types.go:181-191 | each argument of a list that nothing closes starts on the line of its `<`, the first behind it and every other behind a comma |
| ListEnds.ClosedReadsOn | internal/parser/parser_types.go:181-191 | a closed list is read up to its closer whatever is missing between its arguments, unless the next token starts none |
| ParseEchoes.TypeEchoes | internal/parser/parser_types.go:131-216 | on every stream, malformed ones included, the names, maps, pairs of brackets and `?` consumed are those of the result, in order |
| Routes.FoldSegments | internal/route/route.go:242-247 | the loop that stops at the first disjoint pair computes the whole fold |
| Routes.PatternsConflict | internal/route/route.go:237-249 | true iff the routes have as many segments and fold to equivalent or overlapping; `Readings` says how the segments of any name are read |
| Readings.ReadsVariable | internal/route/route.go:119-121 | `{name}` matches one part of a path, for every name |
| Readings.ReadsRest | internal/route/route.go:289-293 | `{name...}` matches all parts that are left, for every name |
| Readings.ReadsEnd | internal/route/route.go:289-293 | `{$}` matches the end behind a trailing slash |
| Readings.ReadsLiteral | internal/route/route.go:202-232 | a segment without braces matches itself |
| Readings.AcceptedExactly | internal/route/route.go:263-287 | a segment with `{` is accepted only as a whole variable |
| Readings.NamesDoNotTell | internal/route/route.go:234-249 | routes that differ in the name of a variable conflict |
| RouteLanguages.FoldRelates | internal/route/route.go:188-235 | folding segment relations from the front equals relating the routes from the back, since the combination is associative |
| RouteLanguages.RelateMeans | internal/route/route.go:188-235 | for well-formed routes of one length the folded relation is the set relation of the paths they match: equal, containing, contained, disjoint, or overlapping with neither containing the other |
| RouteLanguages.ConflictExactly | internal/route/route.go:231-249 | routes conflict iff they match the same paths, or share a path with neither containing the other |
| RouteLanguages.RelateLongerMeans | internal/route/route.go:188-232 | a route relates to a longer one as what stands before its `{name...}` relates to the front of the longer, combined with more general; without `{name...}` they are disjoint |
| RouteLanguages.OverlookedExactly | internal/route/route.go:234-241 | routes of different lengths, which are never reported, share a path with neither containing the other iff the shorter ends in `{name...}` and what stands before it is more specific than, or overlaps, the front of the longer |
| RouteLanguages.OverlookedPair | internal/route/route.go:234-241 | such a pair for any names |
| Resolution.Resolve | internal/route/route.go:17-41 | ends, and yields an absolute route without empty segments or trailing slash whose segments are those of base path, prefix and path in order |
| Resolution.SegmentsOfJoin | internal/route/route.go:252-260 | cutting joined segments gives them back |
| Resolution.ShapeSegmentsOf | internal/route/route.go:76-88 | two routes have one shape iff their segments have |
| Dispatch.CheckServiceMethods | internal/semantic/method_checks.go:13-38 | reports iff one service declares a verb and shape twice |
| Dispatch.CheckShapes | internal/semantic/paths.go:152-169 | reports iff some entry repeats the first entry of its verb and shape from another service |
| Dispatch.CheckOverlaps | internal/semantic/paths.go:170-182 | reports iff two entries of one verb and different shapes conflict |
| Dispatch.CheckProjectPathCollision | internal/semantic/paths.go:126-183 | reports iff either does |
| Dispatch.ShapesDistinct | internal/semantic/paths.go:122-183 | where both checks pass, no verb has a shape twice in the whole project |
| Dispatch.PassesExactly | internal/semantic/paths.go:122-183 | the checks of all services and of the project are silent iff no two routes of a verb and length match the same paths, or share a path with neither containing the other |
| Dispatch.ShapeEquivalent | internal/route/route.go:73-88 | routes of one length have one shape iff their relation is equivalent |
| Dispatch.Comparable | internal/semantic/paths.go:122-183 | where the checks pass, two routes of one verb and length that match a common path are strictly ordered by the paths they match |
| Dispatch.DispatchDetermined | internal/semantic/paths.go:122-183 | so every path some route of a verb and length matches has exactly one most specific such route |
| Dispatch.DispatchDeterminedOverall | internal/semantic/paths.go:122-183 | where besides no pair is overlooked, every path some route of a verb matches has exactly one most specific route among those of all lengths |
| Dispatch.OrderedExactly | internal/semantic/paths.go:122-183 | where the checks pass, any two routes of a verb that match a common path are strictly ordered iff no pair of the verb is overlooked |
| Constraints.DeclaredBounds | internal/semantic/constraint_checks.go:134-165 | exactly the bounds of the first decorator of each bound name whose arguments fit |
| Conditions.BoundsMean | internal/semantic/constraint_checks.go:66-104 | the bounds of a decorator leave exactly what it asks for, written out for each of the twelve names: `@gte(v)` the values from v on, `@length(n)` the length n, `@positive` the values above 0, and so on |
| Conditions.MultiplesMean | internal/semantic/numeric_domain.go:264-281 | a list's divisor asks for exactly the multiples of the first `@multipleOf` when that is a whole number from 1 to the scale's greatest value |
| Conditions.MeetsExactly | internal/semantic/numeric_domain.go:27-42 | a quantity meets all decorators of all sites iff it is on its scale, counts being whole from 0 to 2^63 - 1, within all bounds and a multiple of all divisors |
| Multiples.LcmExactly | internal/semantic/numeric_domain.go:280 | the multiples of `a * (b / gcd(a, b))` are exactly the common multiples of a and b |
| Multiples.FirstMultipleLeast | internal/semantic/numeric_domain.go:307-309 | the negated quotient of the negated bound gives the least multiple at or above the bound, negative bounds included |
| NumericDomain.LimitMeans | internal/semantic/numeric_domain.go:79-117 | on a whole scale a limit admits exactly the numbers from or up to where it stands, and one marked as admitting nothing admits nothing |
| NumericDomain.SiteLimits | internal/semantic/numeric_domain.go:154-162 | exactly the limits of the bounds of all sites, the checked site's first |
| NumericDomain.ReportContradictingPairs | internal/semantic/numeric_domain.go:181-205 | reports iff some lower and upper limit of different decorators on one quantity, one of them the checked site's, contradict each other |
| NumericDomain.ReportLimitsPastScale | internal/semantic/numeric_domain.go:225-247 | reports iff a limit of the checked site admits nothing |
| NumericDomain.DivisorsOf | internal/semantic/numeric_domain.go:264-281 | the multiples of the accumulated number are exactly the common multiples of all valid divisors |
| NumericDomain.TightestBounds | internal/semantic/numeric_domain.go:285-294 | the first of the tightest limits on either side |
| NumericDomain.ReportNoMultiple | internal/semantic/numeric_domain.go:252-330 | reports iff there is a divisor, no number within all limits is a multiple of all divisors, and the checked site takes part |
| NumericDomain.CheckValueDomain | internal/semantic/numeric_domain.go:170-176 | reports iff one of the three does |
| Satisfiability.ReportSound | internal/semantic/numeric_domain.go:164-176 | a report means that no value, no length or no item count meets what all decorators ask |
| Satisfiability.ReportsExactlyEmpty | internal/semantic/numeric_domain.go:164-330 | the field's check or its scalar's own check reports iff no value, no length or no item count meets what the decorators of both ask |
| Satisfiability.MultipleExists | internal/semantic/numeric_domain.go:252-330 | where both checks are silent and there are divisors, some number within all limits is a multiple of all of them, also where only the scalar takes part |
| Satisfiability.ImpliedExactly | internal/semantic/numeric_domain.go:136-150 | a bound is taken as implied iff its value is on the whole scale and every number of the scale meets it |
| TempNames.TempInjective | internal/genfile/genfile.go:285-288 | a temporary's name tells which target it is for |
| TempNames.FreshTemp | internal/genfile/genfile.go:285-288 | of the 2^32 names of a temporary, one is outside any smaller set |
| TempNames.TempNameSample | internal/genfile/genfile.go:285-288 | the temporary of `a.go` for 0 is `.a.go.0.tmp` beside it, numbers in lower-case base 36 |
| Commits.FindMissing | internal/genfile/genfile.go:250-266 | the missing directories up to the nearest that exists, innermost first |
| Commits.MkdirAll | internal/genfile/genfile.go:250-279 | the tree is the old one plus the directories listed, parents first, each an ancestor of dir or dir itself; on success dir is a directory; on a failure what was made is still listed; without a fault it fails only where a file stands at dir or above it |
| Commits.WriteTemp | internal/genfile/genfile.go:285-313 | on success one new file with the body under a temporary's name, on failure the tree as it was; without a fault and with no such name in use it succeeds |
| Commits.Committer.Stage | internal/genfile/genfile.go:151-187 | success leads to a state that staging the file may lead to: a gen-once file skipped where something is, else its missing directories and one temporary added, and nothing else; a failure lists all it made; without a fault it fails only where something is in the way |
| Commits.Committer.Abort | internal/genfile/genfile.go:229-236 | the tree equals the tree the commit started from: every path, body and directory |
| Commits.Committer.Apply | internal/genfile/genfile.go:206-226 | the trees it passes through are those of renames in order, each a temporary moved over its target or, for a gen-once file whose path was taken, removed; after a failure the temporaries left are gone; without a fault, targets that stand free are all renamed; no premise on names |
| Renaming.RenamesLeave | internal/genfile/genfile.go:206-226 | where no temporary took the target of an earlier file, giving up after any rename leaves the handled targets with their bodies, every other path as it was, and no temporary |
| Renaming.RenamesSpare | internal/genfile/genfile.go:206-226 | clash or not, giving up after any rename leaves every path but the handled targets as it was, directories apart, and no other temporary |
| Generation.CompletedCommitted | internal/genfile/genfile.go:126-135 | a completed commit without a clash leaves every regenerated file at its path, every gen-once file where nothing was, and every other path alone |
| Generation.Commit | internal/genfile/genfile.go:126-135 | a failure to stage leaves the tree as it was; a failed rename names its file and a count from the regenerated files before it up to all files before it, and, clash or not, changes nothing but the paths of the files before it, new directories apart, leaving no other temporary and no content but that of the files; without a clash those files are committed; success changes nothing but the paths of the files, and without a clash commits all; without a fault and with nothing in the way it succeeds |
| Clashes.ClashLoses | internal/genfile/genfile.go:126-226 | wherever a clash is possible, some commit completes with nothing left at the clashing file's path |
| Clashes.SafeExactly | internal/genfile/genfile.go:126-226 | every commit that completes leaves all its files committed iff no clash is possible |
| Clashes.PairLosesFile | internal/genfile/genfile.go:285-290 | a commit of two files, the first named as a temporary of the second, that completes and loses the first |
| Passes.FileSet.Add | internal/genfile/genfile.go:44-56 | a regenerated file replaces the one at its path, a gen-once file never does |
| Passes.Collect | internal/genfile/genfile.go:69-116 | one file per path: the last regenerated body, else a gen-once body, the first where the disk has nothing |
| Passes.RunPass | internal/genfile/genfile.go:69-135 | commits the files collected from the requests; success spares every other path, and without a clash leaves at each path its last regenerated body, else the first gen-once body where nothing was, else its old content; a failed rename spares every path but those before the failing one, and without a clash these hold that outcome; after a failed staging the tree is unchanged; without a fault and with nothing in the way the pass succeeds |
| PackageCycles.Unwind | internal/semantic/package_cycles.go:74-81 | following parents back and reversing gives a cycle two nodes longer than the depth it starts from |
| PackageCycles.NoShortCycle | internal/semantic/package_cycles.go:67-90 | at any point of the search no cycle is shorter than the depth of the package to search next, and none is left when the queue is empty |
| PackageCycles.Search | internal/semantic/package_cycles.go:73-87 | looking at one package closes a shortest cycle or extends the search |
| PackageCycles.ShortestCycle | internal/semantic/package_cycles.go:67-90 | a genuine cycle through start of minimum length, or nothing iff there is none; ends |
| PackageCycles.CheckPackageCycles | internal/semantic/package_cycles.go:16-37 | the packages on reported cycles are exactly those on some cycle, each report is a shortest cycle through its first package, and they start at the names in order that lie on a cycle and on no earlier report |
| Positions.Lexer.constructor | internal/lexer/lexer.go:103-115 | the lexer starts after a byte-order mark, at line 1 and column 1 |
| Positions.Lexer.Advance | internal/lexer/lexer.go:489-517 | keeps line equal to the lines up to the offset and column to the runes of the last of them, `\n`, `\r\n` and a lone `\r` each ending a line |
| Positions.OffsetFromLsp | internal/lsp/utf16.go:54-74 | the offset reached over whole runes of the line until the units are covered, clamped to the line and the text |
| Positions.RuneColToUtf16 | internal/lsp/utf16.go:133-147 | the UTF-16 width of that many runes, or of the whole line |
| Positions.Utf16Position | internal/lsp/utf16.go:79-90 | the editor position of a lexer position, byte-order mark and missing lines included |
| Positions.PositionsAgree | internal/lsp/utf16.go:28-147 | for every offset the lexer reaches, the editor position leads back to it, unless it stands inside a `\r\n`, when it leads to the byte before |
| Encodings.DecodesExactly | internal/lsp/utf16.go:28-147 | decoding yields the rune whose UTF-8 encoding stands there, or, where none does, one byte as the replacement character |
| Encodings.EditorPositionExactly | internal/lsp/utf16.go:79-147 | the editor position of a line and column is the line from 0 and the length of the UTF-16 encoding of the runes before the column, a byte-order mark included; on a missing line the column itself |
| Encodings.EditorOffsetExactly | internal/lsp/utf16.go:54-74 | the offset of an editor position is the end of the fewest runes of its line that take so many UTF-16 units, the line's end where all take fewer, and the end of the text on a missing line |
| Idents.SplitFieldName | internal/idents/idents.go:45-78 | flushing a builder at separators and capitals yields exactly the maximal words |
| Idents.WordsClean | internal/idents/idents.go:42-78 | no word is empty or holds a separator |
| Idents.WordsKeepLetters | internal/idents/idents.go:42-78 | joined, the words are the name without its separators |
| GoNames.SplitsAtBreak | internal/idents/idents.go:60-72 | a name is split before a capital that follows a small letter, or follows a capital and precedes a small letter |
| GoNames.SplitsAtSeparator | internal/idents/idents.go:60-64 | a name is split at `_` and `-`, which belong to no word |
| GoNames.KeepsWhole | internal/idents/idents.go:60-78 | and nowhere else |
| Idents.GoNameClean | internal/idents/idents.go:25-39 | a Go field name holds no `_` and no `-` |
| GoNames.GoNameExactly | internal/idents/idents.go:25-39 | between a name without separators and its Go name only case changes, and the Go name starts with the capital of a first letter |
| GoNames.GoWordAt | internal/idents/idents.go:29-37 | a word is written in capitals throughout if it is a known one, else with the first letter alone |
| GoNames.CaseOnly | internal/idents/idents.go:29-37 | nothing but letters changes case |
| GoNames.UpperTable | internal/idents/idents.go:29-37 | each small letter becomes its capital |
| GoNames.LowerTable | internal/idents/idents.go:29-37 | each capital becomes its small letter |
| Idents.SuffixedInjective | internal/idents/idents.go:160-168 | a suffixed name determines its canonical name and rank |
| GoNames.SuffixExactly | internal/idents/idents.go:160-168 | the number behind `_` is the field's place in its group, counted from 1 |
| GoNames.SuffixesCount | internal/idents/idents.go:160-168 | the second field of a group takes `_2`, the tenth `_10` |
| Idents.ResolvedDistinct | internal/idents/idents.go:139-173 | no two fields take one Go name |
| Idents.GroupNames | internal/idents/idents.go:142-152 | the positions of each Go name, in order, and the names met |
| Idents.DedupGoFieldNames | internal/idents/idents.go:139-173 | pairwise distinct names, each the bare name or its place in its group as suffix, and the collisions of `CollisionsOf`, with DSL names and resolved names |
| GoNames.CollisionsExactly | internal/idents/idents.go:139-173 | a collision for each field that is the first of two or more with its Go name, in the order of these fields, and for nothing else |
| Comments.TextsDiffer | internal/format/printer.go:54-72 | refuses iff the comment texts differ as multisets |
| Comments.MovedComment | internal/format/printer.go:80-104 | refuses iff a comment text of the file belongs to a placed comment that one layout holds more often than the other |
| Comments.CheckOutput | internal/format/printer.go:44-104 | silence means the same comment texts, and, where every placed text is some comment's, silence iff the same multiset of placed comments too |

## Left out

- Float scales of the value-domain check: rounding and the next float of a width; values of a type without a number range are modelled as rationals, as the source compares them.
- Satisfiability.ReportsExactlyEmpty: assumes what other checks settle, that bounds on a whole scale are whole and in range and that the two ends of one bound are in order; the source compares those ends as 64-bit floats. A divisor that is not a whole number from 1 to the scale's greatest value is ignored, as the source ignores it.
- Walk.VisitFieldsWhere: assumes that no endless flow is found and none deepens on a cycle as the view spells it, and that a spelling tells a type parameter left unbound from a declared name. The branch of the walk that drops the arguments of an endlessly instantiated host is not modelled: it does not reach hosts expanded as mixins.
- Walk.Visitor.VisitFields: a visit is an instance and a field of it; the path by which the walk came there, and the owner's bare name, which the source hands on for messages, are left out.
- Divergence.FiniteIffSettled: is about the instances a type needs, whether or not a walk comes to them. `Box<T> { Box<T[]> }`, whose mixin a flattening expands once, needs ever larger instances and yet has no fields (`MixinLoopNotFinite`, `MixinLoopHasNoFields`); a generic argument that no field uses is needed too. Which of the needed instances one walk visits is not characterised by flows.
- ListEnds.UnclosedStaysOnLine: says where arguments start; a dotted name may run over the line's end, as in the source.
- SeenKeys.KeyInjective: the key's text is a package and the printed tokens of an instance; that the text can be cut into them again is not modelled.
- Flatten.FieldWalk.ExpandLevel: embed paths, Go level names and the mixin that fixed an argument are not part of a flattened field.
- Mixins.MixinCheck.CheckOneTypeMixins: fields named like an embed and Go-name collisions across embeds are further reports; errors and middlewares count with enums and scalars as names that are no type.
- TypeParser.Parser.ParseTypeRef: the bracket table is built when the parser is made rather than on first use; comments claimed inside lists are not modelled.
- Instantiation.ParamFlows: the order of flows is not modelled, since the source sorts names only for stable output.
- RouteLanguages.ConflictExactly: percent-encoding and path cleaning of the server; well-formedness asks less than the source's segment rules, so it covers every route they let through.
- Dispatch.CheckServiceMethods: verbs are compared as they stand, the parser having put them in one case; duplicate method names are another report.
- Resolution.Resolve: the prefix and the method's path are texts; how the latter is written from path segments or a method's name is not modelled.
- Generation.Commit: symbolic links, file modes, flushing and concurrent writers; removing a temporary or an empty directory always succeeds. Which of the files' bodies a path holds after a clash is not stated.
- Clashes.SafeExactly: takes files that can be staged, and for each file one of the 2^32 names of its temporary that nothing uses or needs; `SmallIsRoomy` gives it for any tree with fewer names.
- PackageCycles.CheckPackageCycles: references between packages are given as adjacency lists in name order; reading them off declarations is not modelled.
- Positions.Lexer.Advance: diagnostics for illegal characters; positions are not truncated to 32 bits.
- Idents.DedupGoFieldNames: case mapping is that of ASCII, and the table of words written in capitals is a parameter, so the results hold for every table; the Go names are computed before they are grouped rather than in one loop.
- Comments.CheckOutput: parsing the output and laying out comments are inputs.
- The declaration parser, the printer beyond types, code generation, the language server's features, manifests and the command line: large, and easy beside what is here.
- Event chains and dispositions (`pkg/events`): simple folds.

# Buckaroo dependency resolver, modelled in Dafny

This project models the transitive dependency resolver of the Buckaroo
package manager (`DependencyResolver.java`). The resolver has two parts:

- `getLatest` takes a map from versions to projects. It returns the entry
  with the greatest version, or nothing when the map is empty.
- `resolve` walks the dependency graph from a root project. It keeps a stack
  of projects still to examine (`todo`), the identifiers already seen
  (`seen`), the chosen version of every resolved project (`deps`) and the
  edges the fetcher refused (`unresolved`). For each popped project it
  fetches every dependency whose identifier is not seen yet, then applies the
  results in order:
  - a refusal is recorded and its identifier is marked seen;
  - a success picks the latest candidate, marks its name seen, pushes it and
    records it in `deps`.

  The run returns every failure if there was one, and the chosen versions
  otherwise.

Files:

- `Types.dfy` holds the values. A version is a `(major, minor, patch)` triple
  ordered lexicographically. Identifiers and requirements are compared by
  value. A project is a name plus its dependencies, kept as a sequence of
  `(identifier, requirement)` edges with distinct keys. `Either` has two
  constructors. The fetcher is a pure function value. Its contract has two
  parts:
  - `NeverEmpty`: a success lists at least one candidate.
  - `NamedByRequest`: a refusal reports the requested edge, and a success
    only lists well-formed projects named by the requested identifier, drawn
    from a finite universe of identifiers.
- `Selection.dfy` holds the pure parts: `GetLatest`, the filter on unseen
  edges (`Unseen`), and the fetch phase of one project (`Next`).
- `Traversal.dfy` is the resolver as a state machine. `Step` pops the top of
  the stack (LIFO), fetches all unseen dependencies, then applies the results
  in order. `Run` repeats `Step` until the stack is empty. `Finish` is the
  final conversion to `Either`, and `ResolveSpec` is the whole resolution.
  The state also logs every request passed to the fetcher. The source keeps
  no such log; the model uses it to state at-most-once fetching and
  failure order.
- `Resolver.dfy` has `Resolve`, the imperative loop. It has an outer `while`
  over the stack and an inner `for` over the fetch results, and it updates
  local variables in place. It is proved equal to `ResolveSpec`.
- `Properties.dfy` proves an invariant of the traversal and derives from it
  the guarantees of a run.
- `Scenarios.dfy` works out small registries end to end.

Two facts about the code that shape the model:

- The worklist is a `java.util.Stack`. Line 36 pushes the root, line 75
  adds each resolved project on top, and line 40 pops the top. So the
  traversal is depth-first in last-in, first-out order, and `Step` pops the
  last element of `todo`. `Scenarios.LastPushedExaminedFirst` shows a
  registry on which this order decides the outcome.
- Line 74 marks the returned project's name as seen, not the requested
  identifier. Line 69 marks the identifier the fetcher reports in its
  refusal. The model marks the same identifiers. Under the naming assumption
  (`NamedByRequest`) both are the requested identifier, and the
  at-most-once and termination proofs rely on that.

## Model

| member | source | states |
|---|---|---|
| Selection.LatestUnique | src/main/java/com/loopperfect/buckaroo/DependencyResolver.java:25 | Two greatest versions of the same set are equal, so the `max` of a map of candidates is one determined entry. |
| Selection.GetLatest | src/main/java/com/loopperfect/buckaroo/DependencyResolver.java:20-26 | The result is empty exactly when the map is empty. Otherwise it is an entry of the map whose version is greater than or equal to every version in the map. |
| Selection.LatestExists | src/main/java/com/loopperfect/buckaroo/DependencyResolver.java:25 | Every non-empty set of versions has a greatest element under the version order, so the `max` of a non-empty map is defined. |
| Selection.Unseen | src/main/java/com/loopperfect/buckaroo/DependencyResolver.java:45-48 | The edges kept are exactly the dependencies whose identifier is not seen. If the dependencies have distinct keys, so do the kept edges. |
| Selection.UnseenConcat | src/main/java/com/loopperfect/buckaroo/DependencyResolver.java:45-48 | The filter keeps order: filtering a concatenation gives the filtered parts, concatenated. With the contract of `Unseen`, this fixes the result on every list. |
| Selection.UnseenSingle | src/main/java/com/loopperfect/buckaroo/DependencyResolver.java:48 | One edge is kept exactly when its identifier is not seen. |
| Selection.Pick | src/main/java/com/loopperfect/buckaroo/DependencyResolver.java:50 | A refusal passes through unchanged. A success becomes an entry of the candidate map whose version is greater than or equal to every candidate's version. |
| Selection.Next | src/main/java/com/loopperfect/buckaroo/DependencyResolver.java:45-52 | The fetch phase has one result per pending edge, in the same order. The i-th result is the refusal or the latest candidate of the fetcher's answer to the i-th edge. |
| Traversal.Init | src/main/java/com/loopperfect/buckaroo/DependencyResolver.java:32-37 | Defines the state before the loop: the root alone on the stack, its name alone seen, no chosen versions, no failures, no requests. |
| Traversal.Apply | src/main/java/com/loopperfect/buckaroo/DependencyResolver.java:66-77 | Defines the effect of one result. A refusal is appended to `unresolved` and its identifier marked seen. A success marks the project's name seen, pushes the project and records its version in `deps`, replacing any earlier version of the same project. |
| Traversal.ApplyAll | src/main/java/com/loopperfect/buckaroo/DependencyResolver.java:54-78 | Defines the inner loop: the results applied one after another, in list order. |
| Traversal.Step | src/main/java/com/loopperfect/buckaroo/DependencyResolver.java:40-78 | Defines one outer iteration: pop the last project, request its unseen dependencies in order, apply the results. It also appends the requests to the log. |
| Traversal.ApplyAllShape | src/main/java/com/loopperfect/buckaroo/DependencyResolver.java:54-78 | Applying one project's results pushes exactly the resolved projects, in order. It marks each result's identifier and no other. The resolved projects are the only new keys of `deps`. |
| Traversal.NextShape | src/main/java/com/loopperfect/buckaroo/DependencyResolver.java:45-52 | Under the naming assumption, the fetch phase marks exactly the requested identifiers. It pushes something only if a request names an identifier of the universe, and it pushes only well-formed projects. |
| Traversal.StepDecreases | src/main/java/com/loopperfect/buckaroo/DependencyResolver.java:39-79 | Each iteration either marks a new identifier of the finite universe, or leaves the unseen count unchanged and shrinks the stack, so the loop terminates. |
| Traversal.Run | src/main/java/com/loopperfect/buckaroo/DependencyResolver.java:39-79 | The traversal ends with an empty stack. |
| Traversal.Exceptions | src/main/java/com/loopperfect/buckaroo/DependencyResolver.java:83-87 | There is one exception per failure, carrying the same identifier and requirement, in the same order. |
| Traversal.Finish | src/main/java/com/loopperfect/buckaroo/DependencyResolver.java:81-93 | The outcome is Left exactly when there is a failure, with one exception per failure in order. It is Right with the accumulated versions only when nothing failed. |
| Traversal.ResolveSpec | src/main/java/com/loopperfect/buckaroo/DependencyResolver.java:28-94 | Defines the whole resolution: `Run` from `Init(root)`, then `Finish` on the final failures and chosen versions. |
| DependencyResolver.Resolve | src/main/java/com/loopperfect/buckaroo/DependencyResolver.java:28-94 | The stack-and-seen-set loop returns exactly what the traversal specification returns. A successful outcome never holds two projects with the same name. The requests the loop passes to the fetcher are the traversal's request log: none names the root, and none repeats an identifier. |
| ResolverProperties.DepsOf | src/main/java/com/loopperfect/buckaroo/DependencyResolver.java:73-76 | Defines the chosen versions a request log records: each successful request's latest candidate is put with its version, in log order, so a later put of the same project wins. |
| ResolverProperties.FailedRequests | src/main/java/com/loopperfect/buckaroo/DependencyResolver.java:66-68 | The refused requests of a log are exactly the log's requests that the fetcher refuses, kept in log order. |
| ResolverProperties.ApplyAllTracksLog | src/main/java/com/loopperfect/buckaroo/DependencyResolver.java:54-78 | Applying one project's results changes `deps` and `unresolved` exactly as appending its requests to the request log does. |
| ResolverProperties.DepsOfRecordsChoices | src/main/java/com/loopperfect/buckaroo/DependencyResolver.java:73-76 | When requested identifiers are distinct, every successful request's latest candidate is a key of `deps` with that version; a later `put` never overwrites it. |
| ResolverProperties.DepsOfFromChoices | src/main/java/com/loopperfect/buckaroo/DependencyResolver.java:76 | Every key of `deps` is the latest candidate of some request, with that candidate's version. |
| ResolverProperties.LogStaysDistinct | src/main/java/com/loopperfect/buckaroo/DependencyResolver.java:48 | The requests of one iteration name distinct identifiers that are not seen, so the request log never repeats an identifier or names the root. |
| ResolverProperties.StepEffect | src/main/java/com/loopperfect/buckaroo/DependencyResolver.java:40-78 | One iteration appends its requests to the log and marks their identifiers seen. It replaces the popped project with the resolved projects, which are well-formed and are the only new keys of `deps`. The new `deps` and `unresolved` are the log's chosen versions and refused requests. |
| ResolverProperties.StepInv | src/main/java/com/loopperfect/buckaroo/DependencyResolver.java:39-79 | One iteration keeps the invariant. `seen` is the root's name plus the requested identifiers, and requests never repeat. `deps` and `unresolved` are functions of the request log. The stack holds well-formed resolved projects. A project off the stack has all its dependencies seen. Every request comes from a declared edge. |
| ResolverProperties.RunInv | src/main/java/com/loopperfect/buckaroo/DependencyResolver.java:39-79 | The invariant holds when the loop ends, and the request log only grows. |
| ResolverProperties.RootNeverFetched | src/main/java/com/loopperfect/buckaroo/DependencyResolver.java:36-48 | The root's name is seen before the loop, so no request ever names the root. |
| ResolverProperties.FetchedAtMostOnce | src/main/java/com/loopperfect/buckaroo/DependencyResolver.java:48-74 | Under the naming assumption, each identifier is passed to the fetcher at most once per run. |
| ResolverProperties.SuccessfulFetchesRecorded | src/main/java/com/loopperfect/buckaroo/DependencyResolver.java:50-76 | Every successful request's greatest-version candidate is in the final `deps` with that version. Every entry of `deps` is the greatest candidate of some successful request. |
| ResolverProperties.ResolvedNamesDistinct | src/main/java/com/loopperfect/buckaroo/DependencyResolver.java:74-76 | No two keys of the final `deps` share a name. |
| ResolverProperties.EveryDependencyExamined | src/main/java/com/loopperfect/buckaroo/DependencyResolver.java:39-78 | Every dependency of the root and of every resolved project names the root, or its identifier was requested, possibly under another edge's requirement, so every pushed project had its own dependencies examined. Only the first requirement met for an identifier reaches the fetcher. Every request comes from a dependency of the root or of a resolved project. |
| ResolverProperties.FailuresInOrder | src/main/java/com/loopperfect/buckaroo/DependencyResolver.java:66-69 | `unresolved` is exactly the refused requests, unchanged and in the order they were made. |
| ResolverProperties.ResolveOutcome | src/main/java/com/loopperfect/buckaroo/DependencyResolver.java:81-93 | The outcome is Left exactly when some request was refused, holding one exception per refused request in request order. Otherwise it is Right holding the final `deps`. |
| ResolverProperties.DirectFailureFails | src/main/java/com/loopperfect/buckaroo/DependencyResolver.java:36-89 | A refused direct dependency of the root (one not naming the root) is always reported, and the whole run fails. A successful branch next to it does not produce a partial result. |
| Scenarios.ResolvesLatestAndSkipsCycle | src/main/java/com/loopperfect/buckaroo/DependencyResolver.java:28-94 | On a registry with A at 1.0.0 and 2.0.0, where A depends back on A, resolving a root that needs A picks 2.0.0. The edge back to A is skipped: the only request made is the root's request for A. |
| Scenarios.MixedBranchFails | src/main/java/com/loopperfect/buckaroo/DependencyResolver.java:28-94 | With one dependency resolved and one refused, the run fails with exactly the refused edge. |
| Scenarios.LastPushedExaminedFirst | src/main/java/com/loopperfect/buckaroo/DependencyResolver.java:36-79 | The root needs A and B; A needs C >= 2.0.0, which is refused, and B needs C >= 1.0.0, which is found. The stack pops B first, so C is requested once, with B's requirement, and the run succeeds with A, B and C at 1.0.0. |
| Scenarios.FirstRequirementWins | src/main/java/com/loopperfect/buckaroo/DependencyResolver.java:45-49 | On the stack-order registry, A is resolved and declares C >= 2.0.0, but that edge never reaches the fetcher: C was already requested under B's requirement C >= 1.0.0. |

## Left out

- The fetcher's implementation (registry and filesystem access) is not part of this model. The fetcher is a pure function parameter, and its answers are constrained only by `NeverEmpty` and `NamedByRequest`.
- A fetcher that answers a success with an empty map makes `getLatest(y).get()` throw at line 50. `Resolve` requires `NeverEmpty` instead of modelling that exception.
- A fetcher that breaks the naming assumption is not modelled. It could return projects named differently from the request, or a refusal that reports another edge. Then the code may fetch an identifier twice or never terminate. `Resolve` requires `NamedByRequest`, and its finite universe is a ghost parameter used only for termination.
- `SemanticVersion`, `SemanticVersionRequirement`, `Identifier` and `Project` are not part of this model beyond what the resolver uses. A version is a lexicographic `nat` triple, a requirement is an uninterpreted value the resolver only passes on, and an identifier is a wrapped string.
- A project's dependency map becomes a sequence with distinct keys in iteration order. `Resolve` requires distinct keys for the root, as a map guarantees. The dependency map's iteration order is not modelled; the sequence order stands for it.
- `VersionRequirementNotSatisfiedException` becomes a record of identifier and requirement rather than a Java exception.
- The Guava `ImmutableList`/`ImmutableMap` copies and the `rightProjection`/`join` plumbing are value conversions only. The model uses plain sequences and maps and a two-constructor `Either`.
- Concurrency and I/O are not modelled: the resolver is sequential, and the fetcher is its only contact with the outside.

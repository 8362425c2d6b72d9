/**
 * DependencyResolver.resolve: the worklist loop over a stack of projects,
 * with the seen set, the chosen versions and the failed edges held in local
 * variables that the loop updates in place.
 */
module DependencyResolver {
  import opened Types
  import opened Selection
  import opened Traversal
  import opened ResolverProperties

  /**
   * Resolves every project reachable from root. The fetcher is a pure
   * function; the universe is the finite set of identifiers it can resolve
   * (only the proof of termination uses it). The ghost log lists every
   * request passed to the fetcher, in order.
   */
  method Resolve(root: Project, fetch: Fetcher, ghost universe: set<Identifier>)
    returns (outcome: Outcome, ghost log: seq<Edge>)
    requires NeverEmpty(fetch) && NamedByRequest(fetch, universe)
    requires ValidProject(root)
    ensures outcome == ResolveSpec(root, fetch, universe)
    ensures outcome.Right? ==> forall p, q :: p in outcome.right && q in outcome.right && p.name == q.name ==> p == q
    ensures log == Final(root, fetch, universe).fetched
    ensures forall e :: e in log ==> e.0 != root.name
    ensures forall i, j :: 0 <= i < |log| && 0 <= j < |log| && log[i].0 == log[j].0 ==> i == j
  {
    var todo: seq<Project> := [root];
    var seen: set<Identifier> := {root.name};
    var deps: map<Project, Version> := map[];
    var unresolved: seq<Edge> := [];
    ghost var fetched: seq<Edge> := [];

    while todo != []
      invariant Run(State(todo, seen, deps, unresolved, fetched), fetch, universe)
             == Run(Init(root), fetch, universe)
      decreases |universe - seen|, |todo|
    {
      ghost var before := State(todo, seen, deps, unresolved, fetched);
      var toResolve := todo[|todo| - 1];
      todo := todo[..|todo| - 1];
      ghost var popped := State(todo, seen, deps, unresolved, fetched);

      // All fetches of this project happen before the bookkeeping below changes.
      var pending := Unseen(toResolve.dependencies, seen);
      var next := Next(pending, fetch);

      for i := 0 to |next|
        invariant ApplyAll(next[i..], State(todo, seen, deps, unresolved, fetched)) == ApplyAll(next, popped)
      {
        var item := next[i];
        if item.Left? {
          var failed := item.left;
          unresolved := unresolved + [failed];
          seen := seen + {failed.0};
        }
        if item.Right? {
          var (version, project) := item.right;
          seen := seen + {project.name};
          todo := todo + [project];
          deps := deps[project := version];
        }
      }
      fetched := fetched + pending;
      assert State(todo, seen, deps, unresolved, fetched) == Step(before, fetch);
      StepDecreases(before, fetch, universe);
    }

    outcome := Finish(unresolved, deps);
    log := fetched;
    ResolveOutcome(root, fetch, universe);
    ResolvedNamesDistinct(root, fetch, universe);
    RootNeverFetched(root, fetch, universe);
    FetchedAtMostOnce(root, fetch, universe);
  }
}

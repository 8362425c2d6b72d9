/**
 * What a resolution run guarantees, proved about the traversal that
 * DependencyResolver.Resolve is equal to. Every property assumes the
 * fetcher's contract (NeverEmpty, NamedByRequest) and a root whose
 * dependency keys are distinct, as a map's are.
 */
module ResolverProperties {
  import opened Types
  import opened Selection
  import opened Traversal

  /** The candidate a request resolves to: the latest entry of a successful answer. */
  ghost function Chosen(c: Edge, fetch: Fetcher): Option<(Version, Project)>
    requires NeverEmpty(fetch)
  {
    match fetch(c.0, c.1)
    case Left(_) => None
    case Right(candidates) => GetLatest(candidates)
  }

  /** The chosen versions a log of requests records, applied in order. */
  ghost function DepsOf(log: seq<Edge>, fetch: Fetcher): map<Project, Version>
    requires NeverEmpty(fetch)
  {
    if log == [] then map[]
    else
      var prev := DepsOf(log[..|log| - 1], fetch);
      match Chosen(log[|log| - 1], fetch)
      case None => prev
      case Some((version, project)) => prev[project := version]
  }

  /** The requests of a log that the fetcher answered with a failure, in log order. */
  ghost function FailedRequests(log: seq<Edge>, fetch: Fetcher): (r: seq<Edge>)
    ensures forall e :: e in r <==> e in log && fetch(e.0, e.1).Left?
  {
    if log == [] then []
    else
      var c := log[|log| - 1];
      assert forall e :: e in log <==> e in log[..|log| - 1] || e == c;
      FailedRequests(log[..|log| - 1], fetch) + (if fetch(c.0, c.1).Left? then [c] else [])
  }

  /** Every dependency of p has its identifier in seen. */
  ghost predicate Examined(p: Project, seen: set<Identifier>)
  {
    forall e :: e in p.dependencies ==> e.0 in seen
  }

  /** The edge c is declared by the root or by a resolved project. */
  ghost predicate DeclaredBy(c: Edge, root: Project, deps: map<Project, Version>)
  {
    c in root.dependencies || exists p :: p in deps && c in p.dependencies
  }

  /** The invariant of the traversal, between two iterations of the outer loop. */
  ghost predicate Inv(s: State, root: Project, fetch: Fetcher)
    requires NeverEmpty(fetch)
  {
    && s.seen == {root.name} + Ids(s.fetched)
    && root.name !in Ids(s.fetched)
    && DistinctKeys(s.fetched)
    && s.deps == DepsOf(s.fetched, fetch)
    && s.unresolved == FailedRequests(s.fetched, fetch)
    && (forall p :: p in s.todo ==> ValidProject(p) && (p == root || p in s.deps))
    && (forall p :: (p == root || p in s.deps) ==> p in s.todo || Examined(p, s.seen))
    && (forall c :: c in s.fetched ==> DeclaredBy(c, root, s.deps))
  }

  /** A chosen candidate carries the requested name and is a well-formed project. */
  lemma ChosenNamed(c: Edge, fetch: Fetcher, universe: set<Identifier>)
    requires NeverEmpty(fetch) && NamedByRequest(fetch, universe)
    requires Chosen(c, fetch).Some?
    ensures Chosen(c, fetch).value.1.name == c.0
    ensures ValidProject(Chosen(c, fetch).value.1)
  {
    assert AnswersRequest(c.0, c.1, fetch(c.0, c.1), universe);
  }

  lemma {:induction false} IdsConcat(a: seq<Edge>, b: seq<Edge>)
    ensures Ids(a + b) == Ids(a) + Ids(b)
  {
    forall x | x in Ids(a + b) ensures x in Ids(a) + Ids(b) {
      var e :| e in a + b && e.0 == x;
      if e in a {
        assert x in Ids(a);
      } else {
        assert x in Ids(b);
      }
    }
    forall x | x in Ids(a) + Ids(b) ensures x in Ids(a + b) {
      if x in Ids(a) {
        var e :| e in a && e.0 == x;
        assert e in a + b;
      } else {
        var e :| e in b && e.0 == x;
        assert e in a + b;
      }
    }
  }

  /** Applying one request's result extends the chosen versions and the failures as logging it does. */
  lemma ApplyTracksLog(c: Edge, fetch: Fetcher, universe: set<Identifier>, s: State, log: seq<Edge>)
    requires NeverEmpty(fetch) && NamedByRequest(fetch, universe)
    requires s.deps == DepsOf(log, fetch) && s.unresolved == FailedRequests(log, fetch)
    ensures Apply(Pick(fetch(c.0, c.1)), s).deps == DepsOf(log + [c], fetch)
    ensures Apply(Pick(fetch(c.0, c.1)), s).unresolved == FailedRequests(log + [c], fetch)
  {
    var log' := log + [c];
    assert log'[..|log'| - 1] == log;
    assert AnswersRequest(c.0, c.1, fetch(c.0, c.1), universe);
  }

  /**
   * Applying one project's fetch results extends the chosen versions and the
   * failures exactly as appending its requests to the log does.
   */
  lemma {:induction false} ApplyAllTracksLog(pending: seq<Edge>, fetch: Fetcher, universe: set<Identifier>,
                                             s: State, log: seq<Edge>)
    requires NeverEmpty(fetch) && NamedByRequest(fetch, universe)
    requires s.deps == DepsOf(log, fetch) && s.unresolved == FailedRequests(log, fetch)
    ensures ApplyAll(Next(pending, fetch), s).deps == DepsOf(log + pending, fetch)
    ensures ApplyAll(Next(pending, fetch), s).unresolved == FailedRequests(log + pending, fetch)
    decreases |pending|
  {
    if pending == [] {
      assert log + pending == log;
    } else {
      var c := pending[0];
      assert (log + [c]) + pending[1..] == log + pending by {
        assert pending == [c] + pending[1..];
      }
      var items := Next(pending, fetch);
      assert items[0] == Pick(fetch(c.0, c.1)) && items[1..] == Next(pending[1..], fetch);
      ApplyTracksLog(c, fetch, universe, s, log);
      var s' := Apply(items[0], s);
      assert ApplyAll(items, s) == ApplyAll(Next(pending[1..], fetch), s');
      ApplyAllTracksLog(pending[1..], fetch, universe, s', log + [c]);
    }
  }

  /**
   * With distinct requested identifiers, every successful request's choice
   * is recorded in the chosen versions with its version.
   */
  lemma {:induction false} DepsOfRecordsChoices(log: seq<Edge>, fetch: Fetcher, universe: set<Identifier>)
    requires NeverEmpty(fetch) && NamedByRequest(fetch, universe)
    requires DistinctKeys(log)
    ensures forall i :: 0 <= i < |log| && Chosen(log[i], fetch).Some? ==>
      var (v, p) := Chosen(log[i], fetch).value;
      p in DepsOf(log, fetch) && DepsOf(log, fetch)[p] == v
  {
    if log != [] {
      var n := |log| - 1;
      var prefix := log[..n];
      var prev := DepsOf(prefix, fetch);
      var c := log[n];
      var deps := DepsOf(log, fetch);
      assert DistinctKeys(prefix);
      DepsOfRecordsChoices(prefix, fetch, universe);
      forall i | 0 <= i < |log| && Chosen(log[i], fetch).Some?
        ensures Chosen(log[i], fetch).value.1 in deps && deps[Chosen(log[i], fetch).value.1] == Chosen(log[i], fetch).value.0
      {
        if i < n {
          assert log[i] == prefix[i];
          var (v, p) := Chosen(log[i], fetch).value;
          assert p in prev && prev[p] == v;
          if Chosen(c, fetch).Some? {
            ChosenNamed(c, fetch, universe);
            ChosenNamed(log[i], fetch, universe);
            assert log[i].0 != log[n].0;
            assert deps == prev[Chosen(c, fetch).value.1 := Chosen(c, fetch).value.0];
          } else {
            assert deps == prev;
          }
        }
      }
    }
  }

  /** Every project in the chosen versions is the choice of some request of the log. */
  lemma {:induction false} DepsOfFromChoices(log: seq<Edge>, fetch: Fetcher)
    requires NeverEmpty(fetch)
    ensures forall p :: p in DepsOf(log, fetch) ==>
      exists i :: 0 <= i < |log| && Chosen(log[i], fetch) == Some((DepsOf(log, fetch)[p], p))
  {
    if log != [] {
      var n := |log| - 1;
      var prefix := log[..n];
      var prev := DepsOf(prefix, fetch);
      var c := log[n];
      var deps := DepsOf(log, fetch);
      DepsOfFromChoices(prefix, fetch);
      forall p | p in deps
        ensures exists i :: 0 <= i < |log| && Chosen(log[i], fetch) == Some((deps[p], p))
      {
        if Chosen(c, fetch).Some? && Chosen(c, fetch).value.1 == p {
          assert Chosen(log[n], fetch) == Some((deps[p], p));
        } else {
          assert p in prev && deps[p] == prev[p];
          var i :| 0 <= i < n && Chosen(prefix[i], fetch) == Some((prev[p], p));
          assert log[i] == prefix[i];
        }
      }
    }
  }

  lemma InitInv(root: Project, fetch: Fetcher)
    requires NeverEmpty(fetch)
    requires ValidProject(root)
    ensures Inv(Init(root), root, fetch)
  {
  }

  /** Requests of one step name unseen, distinct identifiers, so the log stays free of repeats. */
  lemma LogStaysDistinct(root: Project, log: seq<Edge>, pending: seq<Edge>, seen: set<Identifier>)
    requires seen == {root.name} + Ids(log) && root.name !in Ids(log)
    requires DistinctKeys(log) && DistinctKeys(pending)
    requires forall e :: e in pending ==> e.0 !in seen
    ensures DistinctKeys(log + pending)
    ensures root.name !in Ids(log + pending)
  {
    var all := log + pending;
    forall i, j | 0 <= i < j < |all| ensures all[i].0 != all[j].0 {
      if j < |log| {
        assert all[i] == log[i] && all[j] == log[j];
      } else if i >= |log| {
        assert all[i] == pending[i - |log|] && all[j] == pending[j - |log|];
      } else {
        assert all[i] == log[i] && all[i].0 in Ids(log);
        assert all[j] == pending[j - |log|] && all[j] in pending;
      }
    }
    IdsConcat(log, pending);
    forall e | e in pending ensures e.0 != root.name {
    }
  }

  /** After a step the worklist still holds well-formed projects that are the root or resolved. */
  lemma TodoStaysResolved(root: Project, rest: seq<Project>, top: Project, pushed: seq<Project>,
                          deps: map<Project, Version>, deps': map<Project, Version>)
    requires forall p :: p in rest + [top] ==> ValidProject(p) && (p == root || p in deps)
    requires forall p :: p in pushed ==> ValidProject(p)
    requires forall p :: p in deps' <==> p in deps || p in pushed
    ensures forall p :: p in rest + pushed ==> ValidProject(p) && (p == root || p in deps')
  {
    forall p | p in rest + pushed ensures ValidProject(p) && (p == root || p in deps') {
      if p in rest {
        assert p in rest + [top];
      }
    }
  }

  /** After a step every resolved project, and the root, is on the worklist or has its dependencies seen. */
  lemma ExaminedStaysClosed(root: Project, rest: seq<Project>, top: Project, pushed: seq<Project>,
                            deps: map<Project, Version>, deps': map<Project, Version>,
                            seen: set<Identifier>, seen': set<Identifier>)
    requires forall p :: (p == root || p in deps) ==> p in rest + [top] || Examined(p, seen)
    requires forall p :: p in deps' <==> p in deps || p in pushed
    requires seen <= seen' && Examined(top, seen')
    ensures forall p :: (p == root || p in deps') ==> p in rest + pushed || Examined(p, seen')
  {
    forall p | p == root || p in deps'
      ensures p in rest + pushed || Examined(p, seen')
    {
      if p !in pushed {
        assert p == root || p in deps;
        if p in rest + [top] && p != top {
          assert p in rest;
        }
      }
    }
  }

  /** After a step every request is still declared by the root or a resolved project. */
  lemma RequestsStayDeclared(root: Project, top: Project, log: seq<Edge>, pending: seq<Edge>,
                             deps: map<Project, Version>, deps': map<Project, Version>)
    requires forall c :: c in log ==> DeclaredBy(c, root, deps)
    requires forall c :: c in pending ==> c in top.dependencies
    requires top == root || top in deps'
    requires deps.Keys <= deps'.Keys
    ensures forall c :: c in log + pending ==> DeclaredBy(c, root, deps')
  {
    forall c | c in log + pending ensures DeclaredBy(c, root, deps') {
      if c in log {
        assert DeclaredBy(c, root, deps);
      } else {
        assert c in pending;
      }
    }
  }

  /** What one iteration does to each part of the state, in terms of its requests. */
  lemma StepEffect(s: State, root: Project, fetch: Fetcher, universe: set<Identifier>)
    requires NeverEmpty(fetch) && NamedByRequest(fetch, universe)
    requires s.todo != [] && Inv(s, root, fetch)
    ensures var top := s.todo[|s.todo| - 1];
      var pending := Unseen(top.dependencies, s.seen);
      var pushed := Pushed(Next(pending, fetch));
      var s' := Step(s, fetch);
      && s'.fetched == s.fetched + pending
      && s'.seen == s.seen + Ids(pending)
      && s'.todo == s.todo[..|s.todo| - 1] + pushed
      && (forall p :: p in pushed ==> ValidProject(p))
      && (forall p :: p in s'.deps <==> p in s.deps || p in pushed)
      && s'.deps == DepsOf(s'.fetched, fetch)
      && s'.unresolved == FailedRequests(s'.fetched, fetch)
  {
    var top := s.todo[|s.todo| - 1];
    var pending := Unseen(top.dependencies, s.seen);
    var popped := s.(todo := s.todo[..|s.todo| - 1]);
    var items := Next(pending, fetch);
    ApplyAllShape(items, popped);
    NextShape(pending, fetch, universe);
    ApplyAllTracksLog(pending, fetch, universe, popped, s.fetched);
  }

  /** One iteration of the outer loop keeps the invariant. */
  lemma StepInv(s: State, root: Project, fetch: Fetcher, universe: set<Identifier>)
    requires NeverEmpty(fetch) && NamedByRequest(fetch, universe)
    requires s.todo != [] && Inv(s, root, fetch)
    ensures Inv(Step(s, fetch), root, fetch)
  {
    var top := s.todo[|s.todo| - 1];
    var rest := s.todo[..|s.todo| - 1];
    assert s.todo == rest + [top];
    var pending := Unseen(top.dependencies, s.seen);
    var pushed := Pushed(Next(pending, fetch));
    var s' := Step(s, fetch);
    StepEffect(s, root, fetch, universe);
    IdsConcat(s.fetched, pending);

    assert top in s.todo && ValidProject(top);
    assert DistinctKeys(pending);
    LogStaysDistinct(root, s.fetched, pending, s.seen);
    TodoStaysResolved(root, rest, top, pushed, s.deps, s'.deps);
    assert Examined(top, s'.seen) by {
      forall e | e in top.dependencies ensures e.0 in s'.seen {
        if e.0 !in s.seen {
          assert e in pending;
        }
      }
    }
    ExaminedStaysClosed(root, rest, top, pushed, s.deps, s'.deps, s.seen, s'.seen);
    assert top == root || top in s'.deps by {
      assert top in rest + [top];
    }
    RequestsStayDeclared(root, top, s.fetched, pending, s.deps, s'.deps);
  }

  /** The invariant holds when the traversal ends, and the log only grows. */
  lemma {:induction false} RunInv(s: State, root: Project, fetch: Fetcher, universe: set<Identifier>)
    requires NeverEmpty(fetch) && NamedByRequest(fetch, universe)
    requires Inv(s, root, fetch)
    ensures Inv(Run(s, fetch, universe), root, fetch)
    ensures s.fetched <= Run(s, fetch, universe).fetched
    decreases |universe - s.seen|, |s.todo|
  {
    if s.todo != [] {
      StepDecreases(s, fetch, universe);
      StepInv(s, root, fetch, universe);
      RunInv(Step(s, fetch), root, fetch, universe);
    }
  }

  /** The state a resolution run ends in. */
  ghost function Final(root: Project, fetch: Fetcher, universe: set<Identifier>): State
    requires NeverEmpty(fetch) && NamedByRequest(fetch, universe)
  {
    Run(Init(root), fetch, universe)
  }

  lemma FinalInv(root: Project, fetch: Fetcher, universe: set<Identifier>)
    requires NeverEmpty(fetch) && NamedByRequest(fetch, universe)
    requires ValidProject(root)
    ensures Inv(Final(root, fetch, universe), root, fetch)
  {
    InitInv(root, fetch);
    RunInv(Init(root), root, fetch, universe);
  }

  /** No request ever names the root: its identifier is seen before the loop starts. */
  lemma RootNeverFetched(root: Project, fetch: Fetcher, universe: set<Identifier>)
    requires NeverEmpty(fetch) && NamedByRequest(fetch, universe)
    requires ValidProject(root)
    ensures forall e :: e in Final(root, fetch, universe).fetched ==> e.0 != root.name
  {
    FinalInv(root, fetch, universe);
  }

  /** Each identifier is passed to the fetcher at most once per run. */
  lemma FetchedAtMostOnce(root: Project, fetch: Fetcher, universe: set<Identifier>)
    requires NeverEmpty(fetch) && NamedByRequest(fetch, universe)
    requires ValidProject(root)
    ensures var log := Final(root, fetch, universe).fetched;
      forall i, j :: 0 <= i < |log| && 0 <= j < |log| && log[i].0 == log[j].0 ==> i == j
  {
    FinalInv(root, fetch, universe);
  }

  /**
   * Every successful request puts the latest of its candidates into the
   * chosen versions, keyed by that project; every chosen project is the
   * latest candidate of some request.
   */
  lemma SuccessfulFetchesRecorded(root: Project, fetch: Fetcher, universe: set<Identifier>)
    requires NeverEmpty(fetch) && NamedByRequest(fetch, universe)
    requires ValidProject(root)
    ensures var final := Final(root, fetch, universe);
      forall e :: e in final.fetched && fetch(e.0, e.1).Right? ==>
        var (v, p) := GetLatest(fetch(e.0, e.1).right).value;
        p in final.deps && final.deps[p] == v
    ensures var final := Final(root, fetch, universe);
      forall p :: p in final.deps ==>
        exists e :: e in final.fetched && fetch(e.0, e.1).Right? &&
          GetLatest(fetch(e.0, e.1).right) == Some((final.deps[p], p))
  {
    var final := Final(root, fetch, universe);
    FinalInv(root, fetch, universe);
    DepsOfRecordsChoices(final.fetched, fetch, universe);
    DepsOfFromChoices(final.fetched, fetch);
    forall e | e in final.fetched && fetch(e.0, e.1).Right?
      ensures var (v, p) := GetLatest(fetch(e.0, e.1).right).value; p in final.deps && final.deps[p] == v
    {
      var i :| 0 <= i < |final.fetched| && final.fetched[i] == e;
      assert Chosen(final.fetched[i], fetch).Some?;
    }
    forall p | p in final.deps
      ensures exists e :: (e in final.fetched && fetch(e.0, e.1).Right? &&
        GetLatest(fetch(e.0, e.1).right) == Some((final.deps[p], p)))
    {
      var i :| 0 <= i < |final.fetched| && Chosen(final.fetched[i], fetch) == Some((final.deps[p], p));
      var e := final.fetched[i];
      assert fetch(e.0, e.1).Right?;
    }
  }

  /** No two resolved projects share a name. */
  lemma ResolvedNamesDistinct(root: Project, fetch: Fetcher, universe: set<Identifier>)
    requires NeverEmpty(fetch) && NamedByRequest(fetch, universe)
    requires ValidProject(root)
    ensures var deps := Final(root, fetch, universe).deps;
      forall p, q :: p in deps && q in deps && p.name == q.name ==> p == q
  {
    var final := Final(root, fetch, universe);
    var log := final.fetched;
    FinalInv(root, fetch, universe);
    DepsOfFromChoices(log, fetch);
    assert DistinctKeys(log);
    forall p, q | p in final.deps && q in final.deps && p.name == q.name
      ensures p == q
    {
      var i :| 0 <= i < |log| && Chosen(log[i], fetch) == Some((final.deps[p], p));
      var j :| 0 <= j < |log| && Chosen(log[j], fetch) == Some((final.deps[q], q));
      ChosenNamed(log[i], fetch, universe);
      ChosenNamed(log[j], fetch, universe);
      assert log[i].0 == log[j].0;
      assert i == j;
    }
  }

  /**
   * The traversal is complete: every dependency of the root and of every
   * resolved project names the root, or its identifier was requested,
   * possibly under another edge's requirement (the first requirement met for
   * an identifier is the only one passed to the fetcher). Every request
   * comes from such a dependency.
   */
  lemma EveryDependencyExamined(root: Project, fetch: Fetcher, universe: set<Identifier>)
    requires NeverEmpty(fetch) && NamedByRequest(fetch, universe)
    requires ValidProject(root)
    ensures var final := Final(root, fetch, universe);
      forall p, e :: (p == root || p in final.deps) && e in p.dependencies ==>
        e.0 == root.name || exists c :: c in final.fetched && c.0 == e.0
    ensures var final := Final(root, fetch, universe);
      forall c :: c in final.fetched ==> DeclaredBy(c, root, final.deps)
  {
    var final := Final(root, fetch, universe);
    FinalInv(root, fetch, universe);
    forall p, e | (p == root || p in final.deps) && e in p.dependencies
      ensures e.0 == root.name || exists c :: c in final.fetched && c.0 == e.0
    {
      assert Examined(p, final.seen);
    }
  }

  /** The failures are exactly the requests the fetcher refused, unchanged and in the order they were made. */
  lemma FailuresInOrder(root: Project, fetch: Fetcher, universe: set<Identifier>)
    requires NeverEmpty(fetch) && NamedByRequest(fetch, universe)
    requires ValidProject(root)
    ensures var final := Final(root, fetch, universe);
      final.unresolved == FailedRequests(final.fetched, fetch)
  {
    FinalInv(root, fetch, universe);
  }

  /**
   * The outcome is Left exactly when some request failed, with one exception
   * per failed request in request order; otherwise it is Right with the
   * chosen versions.
   */
  lemma ResolveOutcome(root: Project, fetch: Fetcher, universe: set<Identifier>)
    requires NeverEmpty(fetch) && NamedByRequest(fetch, universe)
    requires ValidProject(root)
    ensures var final := Final(root, fetch, universe);
      ResolveSpec(root, fetch, universe).Left? <==> exists e :: e in final.fetched && fetch(e.0, e.1).Left?
    ensures var final := Final(root, fetch, universe);
      ResolveSpec(root, fetch, universe).Left? ==>
        ResolveSpec(root, fetch, universe).left == Exceptions(FailedRequests(final.fetched, fetch))
    ensures var final := Final(root, fetch, universe);
      ResolveSpec(root, fetch, universe).Right? ==> ResolveSpec(root, fetch, universe).right == final.deps
  {
    var final := Final(root, fetch, universe);
    FinalInv(root, fetch, universe);
    if exists e :: e in final.fetched && fetch(e.0, e.1).Left? {
      var e :| e in final.fetched && fetch(e.0, e.1).Left?;
      assert e in final.unresolved;
    }
  }

  /**
   * A failing direct dependency of the root (one not naming the root) is
   * always reported, and the run then fails as a whole.
   */
  lemma DirectFailureFails(root: Project, fetch: Fetcher, universe: set<Identifier>, e: Edge)
    requires NeverEmpty(fetch) && NamedByRequest(fetch, universe)
    requires ValidProject(root)
    requires e in root.dependencies && e.0 != root.name && fetch(e.0, e.1).Left?
    ensures e in Final(root, fetch, universe).unresolved
    ensures ResolveSpec(root, fetch, universe).Left?
  {
    var init := Init(root);
    var first := Step(init, fetch);
    assert first.fetched == Unseen(root.dependencies, {root.name});
    assert e in first.fetched;
    StepDecreases(init, fetch, universe);
    InitInv(root, fetch);
    StepInv(init, root, fetch, universe);
    RunInv(first, root, fetch, universe);
    assert Final(root, fetch, universe) == Run(first, fetch, universe);
    FinalInv(root, fetch, universe);
  }
}

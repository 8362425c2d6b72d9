/**
 * The resolver's traversal as a state machine: the specification the
 * imperative DependencyResolver.Resolve is proved against.
 *
 * A state holds the worklist (a stack whose top is the last element), the
 * seen identifiers, the chosen version of every resolved project, the failed
 * edges in the order they were met, and the log of every request passed to
 * the fetcher (bookkeeping of the model, not of the source).
 */
module Traversal {
  import opened Types
  import opened Selection

  datatype State = State(
    todo: seq<Project>,
    seen: set<Identifier>,
    deps: map<Project, Version>,
    unresolved: seq<Edge>,
    fetched: seq<Edge>)

  /** Before the loop: the root is on the stack and its name is seen. */
  function Init(root: Project): State
  {
    State([root], {root.name}, map[], [], [])
  }

  /** One fetch result applied to the bookkeeping. */
  function Apply(item: Either<Edge, (Version, Project)>, s: State): State
  {
    match item
    case Left(failed) =>
      s.(unresolved := s.unresolved + [failed], seen := s.seen + {failed.0})
    case Right((version, project)) =>
      s.(seen := s.seen + {project.name}, todo := s.todo + [project], deps := s.deps[project := version])
  }

  /** The results of one project's fetch phase applied in order. */
  function ApplyAll(items: seq<Either<Edge, (Version, Project)>>, s: State): State
  {
    if items == [] then s else ApplyAll(items[1..], Apply(items[0], s))
  }

  /** The identifiers of a list of edges. */
  function Ids(edges: seq<Edge>): set<Identifier>
  {
    set e | e in edges :: e.0
  }

  /** The projects a list of results pushes, in order. */
  function Pushed(items: seq<Either<Edge, (Version, Project)>>): seq<Project>
  {
    if items == [] then []
    else (if items[0].Right? then [items[0].right.1] else []) + Pushed(items[1..])
  }

  /** The identifier a result marks as seen. */
  function Marks(item: Either<Edge, (Version, Project)>): Identifier
  {
    match item
    case Left(failed) => failed.0
    case Right((_, project)) => project.name
  }

  function MarkedBy(items: seq<Either<Edge, (Version, Project)>>): set<Identifier>
  {
    if items == [] then {} else {Marks(items[0])} + MarkedBy(items[1..])
  }

  /**
   * Applying results pushes exactly the resolved projects, in order, marks
   * each result's identifier and adds no other identifier.
   */
  lemma {:induction false} ApplyAllShape(items: seq<Either<Edge, (Version, Project)>>, s: State)
    ensures ApplyAll(items, s).todo == s.todo + Pushed(items)
    ensures ApplyAll(items, s).seen == s.seen + MarkedBy(items)
    ensures ApplyAll(items, s).fetched == s.fetched
    ensures forall p :: p in ApplyAll(items, s).deps <==> p in s.deps || p in Pushed(items)
  {
    if items != [] {
      ApplyAllShape(items[1..], Apply(items[0], s));
    }
  }

  /**
   * Under the naming assumption the fetch phase marks exactly the requested
   * identifiers, and it pushes something only when some request names an
   * identifier of the universe.
   */
  lemma {:induction false} NextShape(pending: seq<Edge>, fetch: Fetcher, universe: set<Identifier>)
    requires NeverEmpty(fetch) && NamedByRequest(fetch, universe)
    ensures MarkedBy(Next(pending, fetch)) == Ids(pending)
    ensures Pushed(Next(pending, fetch)) != [] ==> exists e :: e in pending && e.0 in universe
    ensures forall p :: p in Pushed(Next(pending, fetch)) ==> ValidProject(p)
  {
    if pending != [] {
      var e := pending[0];
      var items := Next(pending, fetch);
      assert items[1..] == Next(pending[1..], fetch);
      NextShape(pending[1..], fetch, universe);
      assert AnswersRequest(e.0, e.1, fetch(e.0, e.1), universe);
      assert Ids(pending) == {e.0} + Ids(pending[1..]) by {
        forall x | x in Ids(pending) ensures x in {e.0} + Ids(pending[1..]) {
          var f :| f in pending && f.0 == x;
          if f != e {
            assert f in pending[1..];
          }
        }
      }
    }
  }

  /** Popping the top of the stack, fetching its unseen dependencies, then applying the results. */
  ghost function Step(s: State, fetch: Fetcher): State
    requires s.todo != []
    requires NeverEmpty(fetch)
  {
    var top := s.todo[|s.todo| - 1];
    var pending := Unseen(top.dependencies, s.seen);
    var popped := s.(todo := s.todo[..|s.todo| - 1]);
    ApplyAll(Next(pending, fetch), popped).(fetched := s.fetched + pending)
  }

  /** A step either marks a new identifier of the universe or shrinks the stack. */
  lemma StepDecreases(s: State, fetch: Fetcher, universe: set<Identifier>)
    requires s.todo != []
    requires NeverEmpty(fetch) && NamedByRequest(fetch, universe)
    ensures var s' := Step(s, fetch);
      || |universe - s'.seen| < |universe - s.seen|
      || (|universe - s'.seen| == |universe - s.seen| && |s'.todo| < |s.todo|)
  {
    var top := s.todo[|s.todo| - 1];
    var pending := Unseen(top.dependencies, s.seen);
    var popped := s.(todo := s.todo[..|s.todo| - 1]);
    var items := Next(pending, fetch);
    ApplyAllShape(items, popped);
    NextShape(pending, fetch, universe);
    var s' := Step(s, fetch);
    assert s'.seen == s.seen + Ids(pending);
    if Pushed(items) == [] {
      assert universe - s'.seen <= universe - s.seen;
      SubsetCardinality(universe - s'.seen, universe - s.seen);
    } else {
      var e :| e in pending && e.0 in universe;
      assert universe - s'.seen <= (universe - s.seen) - {e.0};
      SubsetCardinality(universe - s'.seen, (universe - s.seen) - {e.0});
    }
  }

  lemma {:induction false} SubsetCardinality(a: set<Identifier>, b: set<Identifier>)
    requires a <= b
    ensures |a| <= |b|
  {
    if a != {} {
      var x :| x in a;
      SubsetCardinality(a - {x}, b - {x});
    }
  }

  /** The whole traversal: steps until the stack is empty. */
  ghost function Run(s: State, fetch: Fetcher, universe: set<Identifier>): (r: State)
    requires NeverEmpty(fetch) && NamedByRequest(fetch, universe)
    ensures r.todo == []
    decreases |universe - s.seen|, |s.todo|
  {
    if s.todo == [] then s
    else
      StepDecreases(s, fetch, universe);
      Run(Step(s, fetch), fetch, universe)
  }

  /** One exception per failed edge, carrying its identifier and requirement, in order. */
  function Exceptions(unresolved: seq<Edge>): (r: seq<DependencyResolverException>)
    ensures |r| == |unresolved|
    ensures forall i :: 0 <= i < |r| ==>
      r[i].identifier == unresolved[i].0 && r[i].requirement == unresolved[i].1
  {
    if unresolved == [] then []
    else [VersionRequirementNotSatisfied(unresolved[0].0, unresolved[0].1)] + Exceptions(unresolved[1..])
  }

  /**
   * The final conversion: any failure makes the outcome Left with one
   * exception per failure, and the chosen versions are returned only when
   * nothing failed.
   */
  function Finish(unresolved: seq<Edge>, deps: map<Project, Version>): (r: Outcome)
    ensures r.Left? <==> unresolved != []
    ensures r.Left? ==> |r.left| == |unresolved| && forall i :: 0 <= i < |r.left| ==>
      r.left[i] == VersionRequirementNotSatisfied(unresolved[i].0, unresolved[i].1)
    ensures r.Right? ==> r.right == deps
  {
    if unresolved != [] then Left(Exceptions(unresolved)) else Right(deps)
  }

  /** What resolving root against fetch returns. */
  ghost function ResolveSpec(root: Project, fetch: Fetcher, universe: set<Identifier>): Outcome
    requires NeverEmpty(fetch) && NamedByRequest(fetch, universe)
  {
    var final := Run(Init(root), fetch, universe);
    Finish(final.unresolved, final.deps)
  }
}

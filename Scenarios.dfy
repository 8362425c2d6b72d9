/**
 * Small registries on which the whole resolution is worked out: the latest
 * candidate is chosen, a refused edge fails the run, and an edge back to a
 * seen package is skipped.
 */
module Scenarios {
  import opened Types
  import opened Selection
  import opened Traversal

  const A := Identifier("A")
  const B := Identifier("B")
  const C := Identifier("C")
  const App := Identifier("app")
  const AtLeast1 := Requirement(">=1.0.0")
  const AtLeast2 := Requirement(">=2.0.0")
  const AtLeast3 := Requirement(">=3.0.0")
  const V1 := Version(1, 0, 0)
  const V2 := Version(2, 0, 0)

  /** Package A at version 2.0.0, which depends back on A. */
  const ProjA := Project(A, [(A, AtLeast2)])

  /** A registry that knows A at 1.0.0 and 2.0.0 and nothing else. */
  function Registry(id: Identifier, req: Requirement): FetchResult
  {
    if id == A then Right(map[V1 := ProjA, V2 := ProjA]) else Left((id, req))
  }

  lemma RegistryContract()
    ensures NeverEmpty(Registry) && NamedByRequest(Registry, {A})
  {
    forall id, req ensures Registry(id, req).Right? ==> Registry(id, req).right != map[] {
      if id == A {
        assert V1 in Registry(id, req).right;
      }
    }
    forall id, req ensures AnswersRequest(id, req, Registry(id, req), {A}) {
    }
  }

  lemma LatestOfRegistry()
    ensures GetLatest(map[V1 := ProjA, V2 := ProjA]) == Some((V2, ProjA))
  {
    var r := GetLatest(map[V1 := ProjA, V2 := ProjA]);
    assert Le(V2, r.value.0);
  }

  /**
   * app depends on A >= 1.0.0; A resolves to 2.0.0 and its edge back to A is
   * skipped as already seen, so the run succeeds with A at 2.0.0 alone.
   */
  lemma ResolvesLatestAndSkipsCycle()
    ensures NeverEmpty(Registry) && NamedByRequest(Registry, {A})
    ensures ResolveSpec(Project(App, [(A, AtLeast1)]), Registry, {A}) == Right(map[ProjA := V2])
    ensures Run(Init(Project(App, [(A, AtLeast1)])), Registry, {A}).fetched == [(A, AtLeast1)]
  {
    RegistryContract();
    LatestOfRegistry();
    var root := Project(App, [(A, AtLeast1)]);
    var s0 := Init(root);
    assert Unseen(root.dependencies, s0.seen) == [(A, AtLeast1)];
    assert Next([(A, AtLeast1)], Registry) == [Right((V2, ProjA))];
    var popped := s0.(todo := []);
    var s1 := Step(s0, Registry);
    assert ApplyAll([Right((V2, ProjA))], popped) == State([ProjA], {App, A}, map[ProjA := V2], [], []);
    assert s1 == State([ProjA], {App, A}, map[ProjA := V2], [], [(A, AtLeast1)]);
    assert Unseen(ProjA.dependencies, s1.seen) == [];
    var s2 := Step(s1, Registry);
    assert s2 == State([], {App, A}, map[ProjA := V2], [], [(A, AtLeast1)]);
    assert Run(s0, Registry, {A}) == Run(s1, Registry, {A}) == Run(s2, Registry, {A}) == s2;
  }

  /** The root's step: A resolves to 2.0.0 and B is refused; both are requested. */
  lemma MixedFirstStep()
    requires NeverEmpty(Registry)
    ensures Step(Init(Project(App, [(A, AtLeast1), (B, AtLeast3)])), Registry)
         == State([ProjA], {App, A, B}, map[ProjA := V2], [(B, AtLeast3)], [(A, AtLeast1), (B, AtLeast3)])
  {
    LatestOfRegistry();
    var root := Project(App, [(A, AtLeast1), (B, AtLeast3)]);
    var s0 := Init(root);
    assert Unseen(root.dependencies, s0.seen) == [(A, AtLeast1), (B, AtLeast3)];
    var items := [Right((V2, ProjA)), Left((B, AtLeast3))];
    assert Next([(A, AtLeast1), (B, AtLeast3)], Registry) == items;
    var popped := s0.(todo := []);
    var afterA := Apply(items[0], popped);
    assert afterA == State([ProjA], {App, A}, map[ProjA := V2], [], []);
    assert items[1..] == [items[1]];
    assert ApplyAll(items, popped) == ApplyAll([items[1]], afterA) == Apply(items[1], afterA);
  }

  /**
   * app depends on A >= 1.0.0 and B >= 3.0.0; the registry refuses B, so the
   * run fails with that one edge although A resolved.
   */
  lemma MixedBranchFails()
    ensures NeverEmpty(Registry) && NamedByRequest(Registry, {A})
    ensures ResolveSpec(Project(App, [(A, AtLeast1), (B, AtLeast3)]), Registry, {A})
         == Left([VersionRequirementNotSatisfied(B, AtLeast3)])
  {
    RegistryContract();
    MixedFirstStep();
    var s0 := Init(Project(App, [(A, AtLeast1), (B, AtLeast3)]));
    var s1 := Step(s0, Registry);
    assert Unseen(ProjA.dependencies, s1.seen) == [];
    var s2 := Step(s1, Registry);
    assert Run(s0, Registry, {A}) == Run(s1, Registry, {A}) == Run(s2, Registry, {A}) == s2;
    assert s2.unresolved == [(B, AtLeast3)];
    assert Exceptions(s2.unresolved) == [VersionRequirementNotSatisfied(B, AtLeast3)];
  }

  /** Packages for the stack-order scenario: A wants C >= 2.0.0, B wants C >= 1.0.0. */
  const ProjAC := Project(A, [(C, AtLeast2)])
  const ProjBC := Project(B, [(C, AtLeast1)])
  const ProjC := Project(C, [])

  /**
   * A registry with A, B and C at 1.0.0 only: a request for C is accepted
   * with requirement >= 1.0.0 and refused with any other.
   */
  function StackRegistry(id: Identifier, req: Requirement): FetchResult
  {
    if id == A then Right(map[V1 := ProjAC])
    else if id == B then Right(map[V1 := ProjBC])
    else if id == C && req == AtLeast1 then Right(map[V1 := ProjC])
    else Left((id, req))
  }

  lemma StackRegistryContract()
    ensures NeverEmpty(StackRegistry) && NamedByRequest(StackRegistry, {A, B, C})
  {
    forall id, req ensures StackRegistry(id, req).Right? ==> StackRegistry(id, req).right != map[] {
      if StackRegistry(id, req).Right? {
        assert V1 in StackRegistry(id, req).right;
      }
    }
    forall id, req ensures AnswersRequest(id, req, StackRegistry(id, req), {A, B, C}) {
    }
  }

  lemma StackRegistryLatest()
    ensures GetLatest(map[V1 := ProjAC]) == Some((V1, ProjAC))
    ensures GetLatest(map[V1 := ProjBC]) == Some((V1, ProjBC))
    ensures GetLatest(map[V1 := ProjC]) == Some((V1, ProjC))
  {
    assert V1 in map[V1 := ProjAC] && V1 in map[V1 := ProjBC] && V1 in map[V1 := ProjC];
  }

  /** The root's step: A and B are requested in declaration order, A pushed first. */
  lemma StackFirstStep()
    requires NeverEmpty(StackRegistry)
    ensures Step(Init(Project(App, [(A, AtLeast1), (B, AtLeast1)])), StackRegistry)
         == State([ProjAC, ProjBC], {App, A, B}, map[ProjAC := V1, ProjBC := V1], [],
                  [(A, AtLeast1), (B, AtLeast1)])
  {
    StackRegistryLatest();
    var root := Project(App, [(A, AtLeast1), (B, AtLeast1)]);
    var s0 := Init(root);
    assert Unseen(root.dependencies, s0.seen) == [(A, AtLeast1), (B, AtLeast1)];
    var items := [Right((V1, ProjAC)), Right((V1, ProjBC))];
    assert Next([(A, AtLeast1), (B, AtLeast1)], StackRegistry) == items;
    var popped := s0.(todo := []);
    var afterA := Apply(items[0], popped);
    assert afterA == State([ProjAC], {App, A}, map[ProjAC := V1], [], []);
    assert items[1..] == [items[1]];
    assert ApplyAll(items, popped) == ApplyAll([items[1]], afterA) == Apply(items[1], afterA);
  }

  /** B, on top, is popped next: C is requested with B's requirement and resolves. */
  lemma StackSecondStep()
    requires NeverEmpty(StackRegistry)
    ensures Step(State([ProjAC, ProjBC], {App, A, B}, map[ProjAC := V1, ProjBC := V1], [],
                       [(A, AtLeast1), (B, AtLeast1)]), StackRegistry)
         == State([ProjAC, ProjC], {App, A, B, C}, map[ProjAC := V1, ProjBC := V1, ProjC := V1], [],
                  [(A, AtLeast1), (B, AtLeast1), (C, AtLeast1)])
  {
    StackRegistryLatest();
    var s1 := State([ProjAC, ProjBC], {App, A, B}, map[ProjAC := V1, ProjBC := V1], [],
                    [(A, AtLeast1), (B, AtLeast1)]);
    assert s1.todo[|s1.todo| - 1] == ProjBC && s1.todo[..|s1.todo| - 1] == [ProjAC];
    assert Unseen(ProjBC.dependencies, s1.seen) == [(C, AtLeast1)];
    assert Next([(C, AtLeast1)], StackRegistry) == [Right((V1, ProjC))];
    assert s1.fetched + [(C, AtLeast1)] == [(A, AtLeast1), (B, AtLeast1), (C, AtLeast1)];
    var popped := s1.(todo := [ProjAC]);
    assert ApplyAll([Right((V1, ProjC))], popped) == Apply(Right((V1, ProjC)), popped);
    assert Apply(Right((V1, ProjC)), popped)
        == State([ProjAC, ProjC], {App, A, B, C}, map[ProjAC := V1, ProjBC := V1, ProjC := V1], [],
                 [(A, AtLeast1), (B, AtLeast1)]);
  }

  /** C, then A, are popped; C has no dependencies and A's edge to C is already seen. */
  lemma StackLastSteps()
    requires NeverEmpty(StackRegistry)
    ensures var s2 := State([ProjAC, ProjC], {App, A, B, C}, map[ProjAC := V1, ProjBC := V1, ProjC := V1], [],
                            [(A, AtLeast1), (B, AtLeast1), (C, AtLeast1)]);
      && Step(s2, StackRegistry) == s2.(todo := [ProjAC])
      && Step(s2.(todo := [ProjAC]), StackRegistry) == s2.(todo := [])
  {
    var s2 := State([ProjAC, ProjC], {App, A, B, C}, map[ProjAC := V1, ProjBC := V1, ProjC := V1], [],
                    [(A, AtLeast1), (B, AtLeast1), (C, AtLeast1)]);
    assert Unseen(ProjC.dependencies, s2.seen) == [];
    assert s2.fetched + [] == s2.fetched;
    assert Unseen(ProjAC.dependencies, s2.seen) == [];
  }

  /**
   * app depends on A and B, both found. The stack pops B (pushed last)
   * first, so C is requested with B's requirement >= 1.0.0 and resolves;
   * when A is popped, C is already seen and A's stricter edge is never
   * requested. A queue would have popped A first and failed on C >= 2.0.0.
   */
  lemma LastPushedExaminedFirst()
    ensures NeverEmpty(StackRegistry) && NamedByRequest(StackRegistry, {A, B, C})
    ensures ResolveSpec(Project(App, [(A, AtLeast1), (B, AtLeast1)]), StackRegistry, {A, B, C})
         == Right(map[ProjAC := V1, ProjBC := V1, ProjC := V1])
    ensures Run(Init(Project(App, [(A, AtLeast1), (B, AtLeast1)])), StackRegistry, {A, B, C}).fetched
         == [(A, AtLeast1), (B, AtLeast1), (C, AtLeast1)]
  {
    StackRegistryContract();
    var u := {A, B, C};
    var s0 := Init(Project(App, [(A, AtLeast1), (B, AtLeast1)]));
    StackFirstStep();
    StackSecondStep();
    StackLastSteps();
    var s1 := Step(s0, StackRegistry);
    var s2 := Step(s1, StackRegistry);
    var s3 := Step(s2, StackRegistry);
    var s4 := Step(s3, StackRegistry);
    assert Run(s0, StackRegistry, u) == Run(s1, StackRegistry, u) == Run(s2, StackRegistry, u)
        == Run(s3, StackRegistry, u) == Run(s4, StackRegistry, u) == s4;
  }

  /**
   * On the same registry A is resolved and declares C >= 2.0.0, yet that
   * edge is never passed to the fetcher: C was already requested under B's
   * requirement, and the first requirement met for an identifier wins.
   */
  lemma FirstRequirementWins()
    ensures NeverEmpty(StackRegistry) && NamedByRequest(StackRegistry, {A, B, C})
    ensures var final := Run(Init(Project(App, [(A, AtLeast1), (B, AtLeast1)])), StackRegistry, {A, B, C});
      && ProjAC in final.deps && (C, AtLeast2) in ProjAC.dependencies
      && (C, AtLeast2) !in final.fetched
      && (C, AtLeast1) in final.fetched
  {
    LastPushedExaminedFirst();
    StackRegistryContract();
    StackFirstStep();
    StackSecondStep();
    StackLastSteps();
  }
}

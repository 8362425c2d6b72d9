/**
 * The values the dependency resolver works on: versions and their order,
 * identifiers, requirements, projects, the fetcher's answers and the
 * resolver's outcome.
 */
module Types {

  datatype Option<T> = None | Some(value: T)

  /** The two-sided result used both by the fetcher and by the resolver. */
  datatype Either<L, R> = Left(left: L) | Right(right: R)

  /** A package name; compared by value. */
  datatype Identifier = Identifier(text: string)

  /**
   * A version constraint such as ">=1.2.0". The resolver never evaluates it:
   * it only hands it to the fetcher and reports it back on failure.
   */
  datatype Requirement = Requirement(text: string)

  /** A semantic version major.minor.patch. */
  datatype Version = Version(major: nat, minor: nat, patch: nat)

  /** The order used to pick the latest version: lexicographic on (major, minor, patch). */
  predicate Le(a: Version, b: Version)
  {
    || a.major < b.major
    || (a.major == b.major && a.minor < b.minor)
    || (a.major == b.major && a.minor == b.minor && a.patch <= b.patch)
  }

  lemma LeTotal(a: Version, b: Version)
    ensures Le(a, b) || Le(b, a)
  {
  }

  lemma LeAntisymmetric(a: Version, b: Version)
    requires Le(a, b) && Le(b, a)
    ensures a == b
  {
  }

  lemma LeTransitive(a: Version, b: Version, c: Version)
    requires Le(a, b) && Le(b, c)
    ensures Le(a, c)
  {
  }

  /** One declared dependency: the package and the requirement on its version. */
  type Edge = (Identifier, Requirement)

  /**
   * A project at one concrete version: its name and its declared dependencies.
   * The source keeps the dependencies in a map; here they are a sequence in
   * iteration order, and ValidProject says its keys are distinct.
   */
  datatype Project = Project(name: Identifier, dependencies: seq<Edge>)

  /** No identifier occurs twice among the edges. */
  predicate DistinctKeys(edges: seq<Edge>)
  {
    forall i, j :: 0 <= i < j < |edges| ==> edges[i].0 != edges[j].0
  }

  predicate ValidProject(p: Project)
  {
    DistinctKeys(p.dependencies)
  }

  /** The fetcher either reports the edge as unsatisfiable or lists the candidate versions. */
  type FetchResult = Either<Edge, map<Version, Project>>

  /** The fetcher, a pure query from (identifier, requirement) to its answer. */
  type Fetcher = (Identifier, Requirement) -> FetchResult

  /** The failure record the resolver reports for one unsatisfiable edge. */
  datatype DependencyResolverException =
    VersionRequirementNotSatisfied(identifier: Identifier, requirement: Requirement)

  /** What the resolver returns: every failure, or the chosen version of every project. */
  type Outcome = Either<seq<DependencyResolverException>, map<Project, Version>>

  /**
   * The resolver takes the latest entry of every successful answer, which
   * throws on an empty map: a fetcher may only answer Right with candidates.
   */
  ghost predicate NeverEmpty(fetch: Fetcher)
  {
    forall id, req :: fetch(id, req).Right? ==> fetch(id, req).right != map[]
  }

  /**
   * What the fetcher answers for one request, under the naming assumption:
   * a failure reports the requested edge itself; a success only names
   * identifiers of the finite universe, and every candidate is a well-formed
   * project named by the requested identifier.
   */
  predicate AnswersRequest(id: Identifier, req: Requirement, r: FetchResult, universe: set<Identifier>)
  {
    match r
    case Left(failed) => failed == (id, req)
    case Right(candidates) =>
      && id in universe
      && forall v :: v in candidates ==> candidates[v].name == id && ValidProject(candidates[v])
  }

  ghost predicate NamedByRequest(fetch: Fetcher, universe: set<Identifier>)
  {
    forall id, req :: AnswersRequest(id, req, fetch(id, req), universe)
  }
}

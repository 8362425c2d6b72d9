/**
 * The pure parts of DependencyResolver: picking the latest candidate of an
 * answer, and the fetch phase that turns one project's unseen dependencies
 * into a list of per-edge results before any bookkeeping changes.
 */
module Selection {
  import opened Types

  /** v is in versions and no member of versions is above it. */
  predicate IsLatest(v: Version, versions: set<Version>)
  {
    v in versions && forall w :: w in versions ==> Le(w, v)
  }

  /** Every non-empty finite set of versions has a greatest element. */
  lemma {:induction false} LatestExists(versions: set<Version>)
    requires versions != {}
    ensures exists v :: IsLatest(v, versions)
  {
    var x :| x in versions;
    if versions == {x} {
      assert IsLatest(x, versions);
    } else {
      var rest := versions - {x};
      LatestExists(rest);
      var m :| IsLatest(m, rest);
      LeTotal(x, m);
      if Le(x, m) {
        assert IsLatest(m, versions);
      } else {
        forall w | w in versions
          ensures Le(w, x)
        {
          if w != x {
            LeTransitive(w, m, x);
          }
        }
        assert IsLatest(x, versions);
      }
    }
  }

  /** The greatest version of a set is unique, so the entry getLatest picks is determined. */
  lemma LatestUnique(v: Version, w: Version, versions: set<Version>)
    requires IsLatest(v, versions) && IsLatest(w, versions)
    ensures v == w
  {
    LeAntisymmetric(v, w);
  }

  /**
   * The entry with the greatest version key, or None for an empty map
   * (a stream max under the version order).
   */
  function GetLatest(versions: map<Version, Project>): (r: Option<(Version, Project)>)
    ensures r.None? <==> versions == map[]
    ensures r.Some? ==> r.value.0 in versions && versions[r.value.0] == r.value.1
    ensures r.Some? ==> forall w :: w in versions ==> Le(w, r.value.0)
  {
    if versions == map[] then None
    else
      assert versions.Keys != {} by {
        var k :| k in versions;
      }
      LatestExists(versions.Keys);
      var v :| IsLatest(v, versions.Keys);
      Some((v, versions[v]))
  }

  /** The dependencies whose identifier has not been seen yet, in their order. */
  function Unseen(edges: seq<Edge>, seen: set<Identifier>): (r: seq<Edge>)
    ensures |r| <= |edges|
    ensures forall e :: e in r <==> e in edges && e.0 !in seen
    ensures DistinctKeys(edges) ==> DistinctKeys(r)
  {
    if edges == [] then []
    else if edges[0].0 in seen then Unseen(edges[1..], seen)
    else
      assert DistinctKeys(edges) ==> forall e :: e in edges[1..] ==> e.0 != edges[0].0;
      [edges[0]] + Unseen(edges[1..], seen)
  }

  /**
   * The filter keeps order: filtering a concatenation is filtering each part
   * and concatenating. With the contract of Unseen on one edge (kept exactly
   * when unseen), this determines the result on every list.
   */
  lemma {:induction false} UnseenConcat(a: seq<Edge>, b: seq<Edge>, seen: set<Identifier>)
    ensures Unseen(a + b, seen) == Unseen(a, seen) + Unseen(b, seen)
  {
    if a == [] {
      assert a + b == b;
    } else {
      assert (a + b)[0] == a[0] && (a + b)[1..] == a[1..] + b;
      UnseenConcat(a[1..], b, seen);
    }
  }

  /** One edge is kept exactly when its identifier is unseen. */
  lemma UnseenSingle(e: Edge, seen: set<Identifier>)
    ensures Unseen([e], seen) == if e.0 in seen then [] else [e]
  {
    var r := Unseen([e], seen);
    if e.0 !in seen {
      assert e in r;
    }
  }

  /** One fetch result as the loop sees it: the failed edge, or the latest candidate. */
  function Pick(answer: FetchResult): (r: Either<Edge, (Version, Project)>)
    requires answer.Right? ==> answer.right != map[]
    ensures r.Left? <==> answer.Left?
    ensures r.Left? ==> r.left == answer.left
    ensures r.Right? ==> r.right.0 in answer.right && answer.right[r.right.0] == r.right.1
    ensures r.Right? ==> forall w :: w in answer.right ==> Le(w, r.right.0)
  {
    match answer
    case Left(failed) => Left(failed)
    case Right(candidates) => Right(GetLatest(candidates).value)
  }

  /** The fetch phase for one project: fetch every pending edge, in order. */
  function Next(pending: seq<Edge>, fetch: Fetcher): (r: seq<Either<Edge, (Version, Project)>>)
    requires NeverEmpty(fetch)
    ensures |r| == |pending|
    ensures forall i :: 0 <= i < |pending| ==> r[i] == Pick(fetch(pending[i].0, pending[i].1))
  {
    if pending == [] then []
    else [Pick(fetch(pending[0].0, pending[0].1))] + Next(pending[1..], fetch)
  }
}

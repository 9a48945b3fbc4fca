/** Finite directed graphs: paths, cycles, and the rank that acyclicity provides. */
module Digraph {
  import opened FiniteSets

  // A vertex is mapped to the set of its successors.
  type Graph<T> = map<T, set<T>>

  ghost predicate Closed<T>(g: Graph<T>) {
    forall v, w :: v in g && w in g[v] ==> w in g
  }

  ghost predicate Path<T>(g: Graph<T>, p: seq<T>) {
    && |p| > 0
    && (forall i :: 0 <= i < |p| ==> p[i] in g)
    && (forall i :: 0 < i < |p| ==> p[i] in g[p[i - 1]])
  }

  ghost predicate IsCycle<T>(g: Graph<T>, p: seq<T>) {
    Path(g, p) && |p| >= 2 && p[0] == p[|p| - 1]
  }

  ghost predicate Acyclic<T(!new)>(g: Graph<T>) {
    forall p: seq<T> :: !IsCycle(g, p)
  }

  ghost predicate Distinct<T>(p: seq<T>) {
    forall i, j :: 0 <= i < j < |p| ==> p[i] != p[j]
  }

  // No path that starts at v ever meets a vertex twice.
  ghost predicate Safe<T(!new)>(g: Graph<T>, v: T) {
    forall p: seq<T> :: Path(g, p) && p[0] == v ==> Distinct(p)
  }

  // Going on through the start closes a loop that the second vertex is on.
  lemma ReturnIsUnsafe<T(!new)>(g: Graph<T>, p: seq<T>, j: nat)
    requires Path(g, p) && 0 < j < |p| && p[j] == p[0]
    ensures !Safe(g, p[1])
  {
    var r := p[1..j + 1] + [p[1]];
    assert Path(g, r);
    assert r[0] == p[1] == r[j];
    assert !Distinct(r);
  }

  lemma SafeFromSuccessors<T(!new)>(g: Graph<T>, v: T)
    requires Closed(g) && v in g
    requires forall w :: w in g[v] ==> Safe(g, w)
    ensures Safe(g, v)
  {
    forall p: seq<T>, i, j | Path(g, p) && p[0] == v && 0 <= i < j < |p|
      ensures p[i] != p[j]
    {
      var q := p[1..];
      assert Path(g, q) && q[0] == p[1] && p[1] in g[v];
      if i == 0 {
        if p[j] == v {
          ReturnIsUnsafe(g, p, j);
        }
      } else {
        assert Distinct(q) && q[i - 1] == p[i] && q[j - 1] == p[j];
      }
    }
  }

  lemma RepetitionIsCycle<T(!new)>(g: Graph<T>, p: seq<T>, i: nat, j: nat)
    requires Path(g, p) && i < j < |p| && p[i] == p[j]
    ensures !Acyclic(g)
  {
    assert IsCycle(g, p[i..j + 1]);
  }

  lemma AcyclicIffAllSafe<T(!new)>(g: Graph<T>)
    ensures Acyclic(g) <==> forall v :: v in g ==> Safe(g, v)
  {
    if !Acyclic(g) {
      var p :| IsCycle(g, p);
      assert p[0] in g && !Distinct(p);
    } else {
      forall v, p: seq<T>, i, j | v in g && Path(g, p) && p[0] == v && 0 <= i < j < |p|
        ensures p[i] != p[j]
      {
        if p[i] == p[j] {
          RepetitionIsCycle(g, p, i, j);
        }
      }
    }
  }

  ghost predicate Joins<T>(g: Graph<T>, p: seq<T>, u: T, v: T) {
    Path(g, p) && |p| >= 2 && p[0] == u && p[|p| - 1] == v
  }

  // Everything that can be reached from u in one step or more.
  ghost function Beyond<T(!new)>(g: Graph<T>, u: T): set<T> {
    set v | v in g && exists p :: Joins(g, p, u, v)
  }

  ghost function Rank<T(!new)>(g: Graph<T>, u: T): nat {
    |Beyond(g, u)|
  }

  // Where no cycle can be reached, every edge goes down in rank.
  lemma RankDecreases<T(!new)>(g: Graph<T>, u: T, w: T)
    requires Closed(g) && Safe(g, u) && u in g && w in g[u]
    ensures Rank(g, w) < Rank(g, u)
  {
    assert Joins(g, [u, w], u, w);
    forall v | v in Beyond(g, w)
      ensures v in Beyond(g, u)
    {
      var p :| Joins(g, p, w, v);
      assert Joins(g, [u] + p, u, v);
    }
    if w in Beyond(g, w) {
      var p :| Joins(g, p, w, w);
      var q := [u] + p;
      assert q[1] == q[|q| - 1];
      assert Path(g, q);
    }
    ProperSubsetSmaller(Beyond(g, w), Beyond(g, u));
  }

  lemma SuccessorsSafe<T(!new)>(g: Graph<T>, u: T, w: T)
    requires Safe(g, u) && u in g && w in g[u]
    ensures Safe(g, w)
  {
    forall p: seq<T> | Path(g, p) && p[0] == w
      ensures Distinct(p)
    {
      var q := [u] + p;
      assert Path(g, q) && Distinct(q);
      assert forall i :: 0 <= i < |p| ==> p[i] == q[i + 1];
    }
  }

  lemma RankBound<T(!new)>(g: Graph<T>, u: T)
    ensures Rank(g, u) <= |g.Keys|
  {
    SubsetNoLarger(Beyond(g, u), g.Keys);
  }

  // A number that decreases along every edge rules out cycles.
  lemma DecreasingIsAcyclic<T(!new)>(g: Graph<T>, rank: T -> int)
    requires forall v, w :: v in g && w in g[v] ==> rank(w) < rank(v)
    ensures Acyclic(g)
  {
    forall p: seq<T> | Path(g, p) && |p| >= 2
      ensures p[0] != p[|p| - 1]
    {
      DecreasingAlongPath(g, rank, p);
    }
  }

  lemma {:induction false} DecreasingAlongPath<T>(g: Graph<T>, rank: T -> int, p: seq<T>)
    requires forall v, w :: v in g && w in g[v] ==> rank(w) < rank(v)
    requires Path(g, p) && |p| >= 2
    ensures rank(p[|p| - 1]) < rank(p[0])
  {
    if |p| > 2 {
      var q := p[..|p| - 1];
      assert Path(g, q);
      DecreasingAlongPath(g, rank, q);
    }
    assert p[|p| - 1] in g[p[|p| - 2]];
  }
}

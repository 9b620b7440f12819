/**
 * The control centre's neighbour map as a value: station id to the ordered
 * list of its neighbours' ids. AddEdge is what one AddNeighbour call does to
 * the map; the lemmas say what every reachable map looks like.
 */
module NeighbourGraph {

  type Graph = map<string, seq<string>>

  /** The list recorded for `k`, empty when `k` has no entry. */
  function ListOf(g: Graph, k: string): seq<string> {
    if k in g then g[k] else []
  }

  /** `l` with `x` appended unless `x` is already in it. */
  function AppendIfAbsent(l: seq<string>, x: string): seq<string> {
    if x in l then l else l + [x]
  }

  /** `g` with an (empty) entry for `k` if it had none. */
  function EnsureKey(g: Graph, k: string): (r: Graph)
    ensures k in r
  {
    if k in g then g else g[k := []]
  }

  /** `g` with `v` appended to the list of `k` unless it is already there. */
  function Link(g: Graph, k: string, v: string): (r: Graph)
    requires k in g
    ensures r.Keys == g.Keys && r[k] == AppendIfAbsent(g[k], v)
    ensures forall x :: x in g && x != k ==> r[x] == g[x]
  {
    if v in g[k] then g else g[k := g[k] + [v]]
  }

  /**
   * One AddNeighbour call: create missing entries for both ends, then put
   * each end into the other's list if it is not there yet.
   */
  function AddEdge(g: Graph, a: string, b: string): (r: Graph)
    ensures a in r && b in r
  {
    var g1 := EnsureKey(EnsureKey(g, a), b);
    Link(Link(g1, a, b), b, a)
  }

  /** The map after AddNeighbour was called on each pair of `edges`, in order, starting from `g`. */
  function AddEdges(g: Graph, edges: seq<(string, string)>): Graph
    decreases |edges|
  {
    if edges == [] then g else AddEdges(AddEdge(g, edges[0].0, edges[0].1), edges[1..])
  }

  predicate NoDuplicates(l: seq<string>) {
    forall i, j :: 0 <= i < j < |l| ==> l[i] != l[j]
  }

  /** Every id that appears in a list has an entry of its own. */
  predicate Closed(g: Graph) {
    forall a, b :: a in g && b in g[a] ==> b in g
  }

  /** If b is listed as a's neighbour, a is listed as b's. */
  predicate Symmetric(g: Graph) {
    forall a, b :: a in g && b in g[a] ==> b in g && a in g[b]
  }

  predicate DuplicateFree(g: Graph) {
    forall a :: a in g ==> NoDuplicates(g[a])
  }

  /** The invariant of the control centre's neighbour map. */
  predicate WellFormed(g: Graph) {
    Closed(g) && Symmetric(g) && DuplicateFree(g)
  }

  lemma AppendIfAbsentFacts(l: seq<string>, x: string)
    ensures x in AppendIfAbsent(l, x)
    ensures forall y :: y in AppendIfAbsent(l, x) <==> y in l || y == x
    ensures NoDuplicates(l) ==> NoDuplicates(AppendIfAbsent(l, x))
    ensures l <= AppendIfAbsent(l, x) && |AppendIfAbsent(l, x)| <= |l| + 1
  {
  }

  /** After AddEdge(g, a, b) both ends are keys and each is in the other's list. */
  lemma AddEdgeConnects(g: Graph, a: string, b: string)
    ensures var r := AddEdge(g, a, b);
      a in r && b in r && b in r[a] && a in r[b]
  {
  }


  /**
   * AddEdge only ever appends: the two end lists are the old ones with the
   * other end appended when it was missing, and no other key changes.
   */
  lemma AddEdgeLists(g: Graph, a: string, b: string)
    ensures var r := AddEdge(g, a, b);
      && r.Keys == g.Keys + {a, b}
      && r[a] == AppendIfAbsent(ListOf(g, a), b)
      && r[b] == AppendIfAbsent(ListOf(g, b), a)
      && forall k :: k in g && k != a && k != b ==> r[k] == g[k]
  {
  }


  /** Existing list contents and order survive: each old list is a prefix of the new one, at most one longer. */
  lemma AddEdgeAppendsOnly(g: Graph, a: string, b: string)
    ensures var r := AddEdge(g, a, b);
      forall k :: k in g ==> k in r && g[k] <= r[k] && |r[k]| <= |g[k]| + 1
  {
  }


  /** AddEdge changes nothing on a map that already records the edge both ways. */
  lemma AddEdgePresent(g: Graph, a: string, b: string)
    requires a in g && b in g && b in g[a] && a in g[b]
    ensures AddEdge(g, a, b) == g
  {
  }

  /** Adding (a, b) and adding (b, a) give the same map. */
  lemma AddEdgeArgumentOrder(g: Graph, a: string, b: string)
    ensures AddEdge(g, a, b) == AddEdge(g, b, a)
  {
  }


  /** A second call with the same pair, or with the pair reversed, is a no-op. */
  lemma AddEdgeIdempotent(g: Graph, a: string, b: string)
    ensures AddEdge(AddEdge(g, a, b), a, b) == AddEdge(g, a, b)
    ensures AddEdge(AddEdge(g, a, b), b, a) == AddEdge(g, a, b)
  {
  }


  /** In a list without duplicates an element occurs at most once. */
  lemma {:induction false} OccursOnce(l: seq<string>, x: string)
    requires NoDuplicates(l)
    ensures multiset(l)[x] == if x in l then 1 else 0
  {
    if l != [] {
      assert l == [l[0]] + l[1..];
      assert NoDuplicates(l[1..]) by {
        forall i, j | 0 <= i < j < |l[1..]| ensures l[1..][i] != l[1..][j] {
          assert l[1..][i] == l[i + 1] && l[1..][j] == l[j + 1];
        }
      }
      OccursOnce(l[1..], x);
      assert multiset(l) == multiset{l[0]} + multiset(l[1..]);
      if x == l[0] {
        assert x !in l[1..] by {
          forall k | 0 <= k < |l[1..]| ensures l[1..][k] != x {
            assert l[1..][k] == l[k + 1];
          }
        }
      }
    }
  }

  /** A self-edge leaves `a` in its own list exactly once. */
  lemma AddEdgeSelf(g: Graph, a: string)
    requires WellFormed(g)
    ensures var r := AddEdge(g, a, a);
      a in r && multiset(r[a])[a] == 1
  {
    var l := ListOf(g, a);
    AddEdgeLists(g, a, a);
    AppendIfAbsentFacts(l, a);
    OccursOnce(AppendIfAbsent(l, a), a);
  }

  /** AddEdge keeps the invariant of the neighbour map. */
  lemma AddEdgeWellFormed(g: Graph, a: string, b: string)
    requires WellFormed(g)
    ensures WellFormed(AddEdge(g, a, b))
  {
    var r := AddEdge(g, a, b);
    var la, lb := ListOf(g, a), ListOf(g, b);
    AddEdgeLists(g, a, b);
    AppendIfAbsentFacts(la, b);
    AppendIfAbsentFacts(lb, a);
    forall x, y | x in r && y in r[x] ensures y in r && x in r[y] {
      if x == a {
        AddEdgeConnects(g, a, b);
        if y != b {
          assert y in la && y in g[a];
          if y != a {
            AppendIfAbsentFacts(ListOf(g, y), a);
          }
        }
      } else if x == b {
        AddEdgeConnects(g, a, b);
        if y != a {
          assert y in lb && y in g[b];
        }
      } else {
        assert y in g[x] && y in g && x in g[y];
        if y == a {
          assert x in la;
        } else if y == b {
          assert x in lb;
        }
      }
    }
    forall x | x in r ensures NoDuplicates(r[x]) {
      if x != a && x != b {
        assert r[x] == g[x];
      }
    }
  }


  /** What one AddNeighbour call is seen to do, gathered from the lemmas above. */
  lemma AddEdgeSummary(g: Graph, a: string, b: string)
    ensures var r := AddEdge(g, a, b);
      && a in r && b in r && b in r[a] && a in r[b]
      && r.Keys == g.Keys + {a, b}
      && (forall k :: k in g ==> g[k] <= r[k])
      && (forall k :: k in g && k != a && k != b ==> r[k] == g[k])
      && (WellFormed(g) ==> WellFormed(r))
  {
    AddEdgeConnects(g, a, b);
    AddEdgeLists(g, a, b);
    AddEdgeAppendsOnly(g, a, b);
    if WellFormed(g) {
      AddEdgeWellFormed(g, a, b);
    }
  }

  /** Every map reached from a well-formed one (in particular the empty map) by AddEdge calls is well-formed. */
  lemma {:induction false} AddEdgesWellFormed(g: Graph, edges: seq<(string, string)>)
    requires WellFormed(g)
    ensures WellFormed(AddEdges(g, edges))
    decreases |edges|
  {
    if edges != [] {
      AddEdgeWellFormed(g, edges[0].0, edges[0].1);
      AddEdgesWellFormed(AddEdge(g, edges[0].0, edges[0].1), edges[1..]);
    }
  }

  /** The neighbour map starts empty, and the empty map is well-formed. */
  lemma ReachableWellFormed(edges: seq<(string, string)>)
    ensures WellFormed(AddEdges(map[], edges))
  {
    AddEdgesWellFormed(map[], edges);
  }
}

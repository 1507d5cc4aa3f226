/** Transaction graphs as lists of undirected edges, and what a partition of the vertices
    does to them: the meaning of CLPA's statistics (partition/graph.go, partition_CLPA.go). */
module GraphCuts {

  type Vertex = nat
  type Edge = (Vertex, Vertex)
  type Partition = map<Vertex, int>

  /** A Go map read: zero when absent. */
  function Of(p: Partition, v: Vertex): int {
    if v in p then p[v] else 0
  }

  function B(b: bool): nat {
    if b then 1 else 0
  }

  // ----- adjacency lists -----

  /** EdgeSet[v] after the edges were added one by one, each in both directions. */
  function Adj(es: seq<Edge>, v: Vertex): seq<Vertex> {
    if es == [] then []
    else
      var (a, b) := es[|es| - 1];
      Adj(es[..|es| - 1], v) + (if a == v then [b] else []) + (if b == v then [a] else [])
  }

  function Loops(es: seq<Edge>, v: Vertex): nat {
    if es == [] then 0
    else Loops(es[..|es| - 1], v) + B(es[|es| - 1] == (v, v))
  }

  // ----- what the statistics mean -----

  /** Edges between different shards. */
  function Cut(es: seq<Edge>, p: Partition): nat {
    if es == [] then 0
    else
      var (a, b) := es[|es| - 1];
      Cut(es[..|es| - 1], p) + B(Of(p, a) != Of(p, b))
  }

  /** Edges with at least one end in shard k. */
  function Touching(es: seq<Edge>, p: Partition, k: int): nat {
    if es == [] then 0
    else
      var (a, b) := es[|es| - 1];
      Touching(es[..|es| - 1], p, k) + B(Of(p, a) == k || Of(p, b) == k)
  }

  /** Edges with both ends in shard k. */
  function Inside(es: seq<Edge>, p: Partition, k: int): nat {
    if es == [] then 0
    else
      var (a, b) := es[|es| - 1];
      Inside(es[..|es| - 1], p, k) + B(Of(p, a) == k && Of(p, b) == k)
  }

  // ----- counting along adjacency lists -----

  /** Neighbours in shard k, when the vertex itself is in another shard. */
  function CrossTo(us: seq<Vertex>, p: Partition, s: int, k: int): nat {
    if us == [] then 0
    else CrossTo(us[..|us| - 1], p, s, k) + B(s != Of(p, us[|us| - 1]) && Of(p, us[|us| - 1]) == k)
  }

  /** Neighbours in shard k, when the vertex is there too. */
  function InterTo(us: seq<Vertex>, p: Partition, s: int, k: int): nat {
    if us == [] then 0
    else InterTo(us[..|us| - 1], p, s, k) + B(s == Of(p, us[|us| - 1]) && Of(p, us[|us| - 1]) == k)
  }

  /** Both counts summed over the vertices visited so far, edge by edge. */
  function CrossSeen(es: seq<Edge>, p: Partition, seen: set<Vertex>, k: int): nat {
    if es == [] then 0
    else
      var (a, b) := es[|es| - 1];
      CrossSeen(es[..|es| - 1], p, seen, k)
      + B(a in seen && Of(p, a) != Of(p, b) && Of(p, b) == k)
      + B(b in seen && Of(p, a) != Of(p, b) && Of(p, a) == k)
  }

  function InterSeen(es: seq<Edge>, p: Partition, seen: set<Vertex>, k: int): nat {
    if es == [] then 0
    else
      var (a, b) := es[|es| - 1];
      InterSeen(es[..|es| - 1], p, seen, k)
      + B(a in seen && Of(p, a) == Of(p, b) && Of(p, b) == k)
      + B(b in seen && Of(p, a) == Of(p, b) && Of(p, a) == k)
  }

  lemma {:induction false} CrossToConcat(us: seq<Vertex>, vs: seq<Vertex>, p: Partition, s: int, k: int)
    ensures CrossTo(us + vs, p, s, k) == CrossTo(us, p, s, k) + CrossTo(vs, p, s, k)
    ensures InterTo(us + vs, p, s, k) == InterTo(us, p, s, k) + InterTo(vs, p, s, k)
    decreases |vs|
  {
    if vs == [] {
      assert us + vs == us;
    } else {
      var n := |vs| - 1;
      assert (us + vs)[..|us + vs| - 1] == us + vs[..n];
      CrossToConcat(us, vs[..n], p, s, k);
    }
  }

  lemma OneCross(u: Vertex, p: Partition, s: int, k: int)
    ensures CrossTo([u], p, s, k) == B(s != Of(p, u) && Of(p, u) == k)
    ensures InterTo([u], p, s, k) == B(s == Of(p, u) && Of(p, u) == k)
  {
    assert [u][..0] == [];
  }

  /** Visiting one more vertex adds what its adjacency list counts. */
  lemma {:induction false} VisitVertex(es: seq<Edge>, p: Partition, seen: set<Vertex>, v: Vertex, k: int)
    requires v !in seen
    ensures CrossSeen(es, p, seen + {v}, k) == CrossSeen(es, p, seen, k) + CrossTo(Adj(es, v), p, Of(p, v), k)
    ensures InterSeen(es, p, seen + {v}, k) == InterSeen(es, p, seen, k) + InterTo(Adj(es, v), p, Of(p, v), k)
    decreases |es|
  {
    if es != [] {
      VisitVertex(es[..|es| - 1], p, seen, v, k);
      LastNeighbours(es, p, v, k);
      var (a, b) := es[|es| - 1];
      assert a in seen + {v} <==> a in seen || a == v;
      assert b in seen + {v} <==> b in seen || b == v;
    }
  }

  /** What the last edge adds to the counts along v's adjacency list. */
  lemma LastNeighbours(es: seq<Edge>, p: Partition, v: Vertex, k: int)
    requires es != []
    ensures var (a, b) := es[|es| - 1];
            var front, s := Adj(es[..|es| - 1], v), Of(p, v);
            && CrossTo(Adj(es, v), p, s, k) == CrossTo(front, p, s, k)
               + B(a == v && s != Of(p, b) && Of(p, b) == k) + B(b == v && s != Of(p, a) && Of(p, a) == k)
            && InterTo(Adj(es, v), p, s, k) == InterTo(front, p, s, k)
               + B(a == v && s == Of(p, b) && Of(p, b) == k) + B(b == v && s == Of(p, a) && Of(p, a) == k)
  {
    var (a, b) := es[|es| - 1];
    var front := Adj(es[..|es| - 1], v);
    var first := if a == v then [b] else [];
    var second := if b == v then [a] else [];
    CrossToConcat(front, first, p, Of(p, v), k);
    CrossToConcat(front + first, second, p, Of(p, v), k);
    OneCross(b, p, Of(p, v), k);
    OneCross(a, p, Of(p, v), k);
  }

  ghost predicate Ends(es: seq<Edge>, vs: set<Vertex>) {
    forall i :: 0 <= i < |es| ==> es[i].0 in vs && es[i].1 in vs
  }

  /** Once every end is visited: each inner edge was counted twice, so halving is exact,
      and the rest is the cut. */
  lemma {:induction false} AllSeen(es: seq<Edge>, p: Partition, seen: set<Vertex>, k: int)
    requires Ends(es, seen)
    ensures InterSeen(es, p, seen, k) == 2 * Inside(es, p, k)
    ensures CrossSeen(es, p, seen, k) + Inside(es, p, k) == Touching(es, p, k)
    decreases |es|
  {
    if es != [] { AllSeen(es[..|es| - 1], p, seen, k); }
  }

  function Sum(s: seq<int>): int {
    if s == [] then 0 else Sum(s[..|s| - 1]) + s[|s| - 1]
  }

  function CrossColumn(es: seq<Edge>, p: Partition, seen: set<Vertex>, n: nat): seq<int> {
    seq(n, k => CrossSeen(es, p, seen, k))
  }

  function Indicator(n: nat, x: int, on: bool): seq<int> {
    seq(n, k => B(on && x == k))
  }

  lemma {:induction false} SumIndicator(n: nat, x: int, on: bool)
    ensures Sum(Indicator(n, x, on)) == B(on && 0 <= x < n)
  {
    if n > 0 {
      SumIndicator(n - 1, x, on);
      var all := Indicator(n, x, on);
      assert all[..n - 1] == Indicator(n - 1, x, on);
      assert all[n - 1] == B(on && x == n - 1);
      assert Sum(all) == Sum(all[..n - 1]) + all[n - 1];
    }
  }

  lemma {:induction false} SumAdd(a: seq<int>, b: seq<int>, c: seq<int>)
    requires |a| == |b| == |c| && forall k :: 0 <= k < |a| ==> a[k] == b[k] + c[k]
    ensures Sum(a) == Sum(b) + Sum(c)
    decreases |a|
  {
    if a != [] {
      var n := |a| - 1;
      SumAdd(a[..n], b[..n], c[..n]);
    }
  }

  /** Every cut edge is counted once at each end, so its halving is exact too. */
  lemma {:induction false} CrossSum(es: seq<Edge>, p: Partition, seen: set<Vertex>, n: nat)
    requires Ends(es, seen) && forall v :: v in seen ==> 0 <= Of(p, v) < n
    ensures Sum(CrossColumn(es, p, seen, n)) == 2 * Cut(es, p)
    decreases |es|
  {
    if es == [] {
      SumIndicator(n, 0, false);
      assert CrossColumn(es, p, seen, n) == Indicator(n, 0, false);
    } else {
      var m := |es| - 1;
      var (a, b) := es[m];
      var on := Of(p, a) != Of(p, b);
      assert es[m].0 in seen && es[m].1 in seen;
      CrossSum(es[..m], p, seen, n);
      var left, right := Indicator(n, Of(p, b), on), Indicator(n, Of(p, a), on);
      SumIndicator(n, Of(p, b), on);
      SumIndicator(n, Of(p, a), on);
      var half := seq(n, k requires 0 <= k < n => left[k] + right[k]);
      SumAdd(half, left, right);
      SumAdd(CrossColumn(es, p, seen, n), CrossColumn(es[..m], p, seen, n), half);
    }
  }

  // ----- moving one vertex -----

  /** Neighbours outside shard s. */
  function NotIn(us: seq<Vertex>, p: Partition, s: int): nat {
    if us == [] then 0 else NotIn(us[..|us| - 1], p, s) + B(Of(p, us[|us| - 1]) != s)
  }

  lemma {:induction false} NotInConcat(us: seq<Vertex>, vs: seq<Vertex>, p: Partition, s: int)
    ensures NotIn(us + vs, p, s) == NotIn(us, p, s) + NotIn(vs, p, s)
    decreases |vs|
  {
    if vs == [] {
      assert us + vs == us;
    } else {
      var n := |vs| - 1;
      assert (us + vs)[..|us + vs| - 1] == us + vs[..n];
      NotInConcat(us, vs[..n], p, s);
    }
  }

  lemma OneNotIn(u: Vertex, p: Partition, s: int)
    ensures NotIn([u], p, s) == B(Of(p, u) != s)
  {
    assert [u][..0] == [];
  }

  /** The neighbours that the incremental update looks at, edge by edge. */
  lemma NotInAdj(es: seq<Edge>, p: Partition, v: Vertex, s: int)
    requires es != []
    ensures var n := |es| - 1;
            var (a, b) := es[n];
            NotIn(Adj(es, v), p, s)
            == NotIn(Adj(es[..n], v), p, s) + B(a == v && Of(p, b) != s) + B(b == v && Of(p, a) != s)
  {
    var n := |es| - 1;
    var (a, b) := es[n];
    var first := if a == v then [b] else [];
    var second := if b == v then [a] else [];
    NotInConcat(Adj(es[..n], v), first, p, s);
    NotInConcat(Adj(es[..n], v) + first, second, p, s);
    OneNotIn(b, p, s);
    OneNotIn(a, p, s);
  }

  /** MAIN: what moving v from one shard to another does to the true statistics, in terms
      of the counts that changeShardRecompute makes over v's adjacency list.  Each
      self-loop of v is off by one at both shards and by two in the cut. */
  lemma {:induction false} MoveVertex(es: seq<Edge>, p: Partition, v: Vertex, to: int, k: int)
    requires Of(p, v) != to
    ensures var q, us, from := p[v := to], Adj(es, v), Of(p, v);
            && Touching(es, q, k)
               == Touching(es, p, k) + (if k == to then NotIn(us, q, to) + Loops(es, v) else 0)
                                     - (if k == from then NotIn(us, q, from) - Loops(es, v) else 0)
            && Cut(es, q) == Cut(es, p) + NotIn(us, q, to) - NotIn(us, q, from) + 2 * Loops(es, v)
    decreases |es|
  {
    if es != [] {
      var n, q, from := |es| - 1, p[v := to], Of(p, v);
      var (a, b) := es[n];
      MoveVertex(es[..n], p, v, to, k);
      NotInAdj(es, q, v, to);
      NotInAdj(es, q, v, from);
    }
  }
}

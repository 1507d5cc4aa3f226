/** CLPAState: the constrained label propagation of partition/partition_CLPA.go, with the
    score left as any function and map ranges in any order. */
module Clpa {
  import opened GraphCuts

  const MAX_INT: int := 0x7fff_ffff_ffff_ffff

  function MinOf(s: seq<int>): int {
    if s == [] then MAX_INT
    else if s[|s| - 1] < MinOf(s[..|s| - 1]) then s[|s| - 1] else MinOf(s[..|s| - 1])
  }

  function Members(vs: set<Vertex>, p: Partition, k: int): set<Vertex> {
    set v | v in vs && Of(p, v) == k
  }

  function Neighbours(edgeSet: map<Vertex, seq<Vertex>>, v: Vertex): seq<Vertex> {
    if v in edgeSet then edgeSet[v] else []
  }

  lemma AdjacencyGrows(m: map<Vertex, seq<Vertex>>, es: seq<Edge>, u: Vertex, v: Vertex, x: Vertex)
    requires Neighbours(m, x) == Adj(es, x)
    ensures var m1 := m[u := Neighbours(m, u) + [v]];
            Neighbours(m1[v := Neighbours(m1, v) + [u]], x) == Adj(es + [(u, v)], x)
  {
    assert (es + [(u, v)])[..|es|] == es;
  }

  lemma {:induction false} AdjEnds(es: seq<Edge>, vs: set<Vertex>, v: Vertex)
    requires Ends(es, vs)
    ensures forall u :: u in Adj(es, v) ==> u in vs
    decreases |es|
  {
    if es != [] { AdjEnds(es[..|es| - 1], vs, v); }
  }

  /** A move takes v out of one shard's members and into another's. */
  lemma MembersMove(vs: set<Vertex>, p: Partition, v: Vertex, to: int, k: int)
    requires v in vs && Of(p, v) != to
    ensures |Members(vs, p[v := to], k)| == |Members(vs, p, k)| + B(k == to) - B(k == Of(p, v))
  {
    var q, from := p[v := to], Of(p, v);
    if k == to {
      assert Members(vs, q, k) == Members(vs, p, k) + {v};
    } else if k == from {
      assert Members(vs, q, k) == Members(vs, p, k) - {v};
    } else {
      assert Members(vs, q, k) == Members(vs, p, k);
    }
  }

  /** The statistics of a partition, counted edge by edge. */
  ghost predicate Exact(es: seq<Edge>, p: Partition, n: nat, touching: seq<int>, cut: int) {
    && |touching| == n && cut == Cut(es, p)
    && forall k :: 0 <= k < n ==> touching[k] == Touching(es, p, k)
  }

  datatype Move = Move(v: Vertex, to: int)

  /** Any score of putting a vertex into a shard, given the partition and its statistics. */
  type Score = (Vertex, int, Partition, seq<int>, int) -> real

  /** The partition after a list of moves. */
  function Replay(p: Partition, ms: seq<Move>): Partition {
    if ms == [] then p else Replay(p, ms[..|ms| - 1])[ms[|ms| - 1].v := ms[|ms| - 1].to]
  }

  function MovesOf(ms: seq<Move>, v: Vertex): nat {
    if ms == [] then 0 else MovesOf(ms[..|ms| - 1], v) + B(ms[|ms| - 1].v == v)
  }

  lemma MoveMade(p: Partition, ms: seq<Move>, v: Vertex, to: int)
    ensures Replay(p, ms + [Move(v, to)]) == Replay(p, ms)[v := to]
    ensures forall x :: MovesOf(ms + [Move(v, to)], x) == MovesOf(ms, x) + if x == v then 1 else 0
  {
    assert (ms + [Move(v, to)])[..|ms|] == ms;
  }

  /** `res` overlaid on the old partition is the new one, and the moves led there. */
  ghost predicate Recorded(vs: set<Vertex>, p0: Partition, p: Partition, res: map<Vertex, int>,
                           counts: map<Vertex, nat>, ms: seq<Move>)
  {
    (forall v :: v in vs ==> v in p && p[v] == if v in res then res[v] else Of(p0, v)) &&
    p == Replay(p0, ms) &&
    (forall v :: MovesOf(ms, v) == (if v in counts then counts[v] else 0) <= 50)
  }

  lemma RecordMove(vs: set<Vertex>, p0: Partition, p: Partition, res: map<Vertex, int>, counts: map<Vertex, nat>,
                   ms: seq<Move>, v: Vertex, to: int)
    requires Recorded(vs, p0, p, res, counts, ms) && (if v in counts then counts[v] else 0) < 50
    ensures Recorded(vs, p0, p[v := to], res[v := to], counts[v := (if v in counts then counts[v] else 0) + 1],
                     ms + [Move(v, to)])
  {
    MoveMade(p0, ms, v, to);
  }

  lemma {:induction false} NoneSeen(es: seq<Edge>, p: Partition, k: int)
    ensures CrossSeen(es, p, {}, k) == 0 && InterSeen(es, p, {}, k) == 0
    decreases |es|
  {
    if es != [] { NoneSeen(es[..|es| - 1], p, k); }
  }

  // ----- the inner loops -----

  method SumUp(s: seq<int>) returns (total: int)
    ensures total == Sum(s)
  {
    total := 0;
    for i := 0 to |s|
      invariant total == Sum(s[..i])
    {
      assert s[..i + 1][..i] == s[..i];
      total := total + s[i];
    }
    assert s[..|s|] == s;
  }

  method Smallest(s: seq<int>) returns (m: int)
    ensures m == MinOf(s)
  {
    m := MAX_INT;
    for i := 0 to |s|
      invariant m == MinOf(s[..i])
    {
      assert s[..i + 1][..i] == s[..i];
      if m > s[i] { m := s[i]; }
    }
    assert s[..|s|] == s;
  }

  /** ComputeEdges2Shard's inner loop: one vertex's neighbours. */
  method CountList(lst: seq<Vertex>, p: Partition, vShard: int, c0: seq<int>, i0: seq<int>)
    returns (cross: seq<int>, inter: seq<int>)
    requires |c0| == |i0| && forall i :: 0 <= i < |lst| ==> 0 <= Of(p, lst[i]) < |c0|
    ensures |cross| == |inter| == |c0|
    ensures forall k :: 0 <= k < |c0| ==>
      cross[k] == c0[k] + CrossTo(lst, p, vShard, k) && inter[k] == i0[k] + InterTo(lst, p, vShard, k)
  {
    cross, inter := c0, i0;
    for i := 0 to |lst|
      invariant |cross| == |inter| == |c0|
      invariant forall k :: 0 <= k < |c0| ==>
        cross[k] == c0[k] + CrossTo(lst[..i], p, vShard, k) && inter[k] == i0[k] + InterTo(lst[..i], p, vShard, k)
    {
      assert lst[..i + 1][..i] == lst[..i];
      var uShard := Of(p, lst[i]);
      if vShard != uShard {
        cross := cross[uShard := cross[uShard] + 1];
      } else {
        inter := inter[uShard := inter[uShard] + 1];
      }
    }
    assert lst[..|lst|] == lst;
  }

  /** changeShardRecompute's loop: the neighbours of a vertex that moved. */
  method ShiftList(us: seq<Vertex>, p: Partition, to: int, from: int, e0: seq<int>, c0: int)
    returns (e: seq<int>, c: int)
    requires 0 <= to < |e0| && 0 <= from < |e0| && to != from
    ensures |e| == |e0| && e[to] == e0[to] + NotIn(us, p, to) && e[from] == e0[from] - NotIn(us, p, from)
    ensures forall k :: 0 <= k < |e0| && k != to && k != from ==> e[k] == e0[k]
    ensures c == c0 + NotIn(us, p, to) - NotIn(us, p, from)
  {
    e, c := e0, c0;
    for i := 0 to |us|
      invariant |e| == |e0| && e[to] == e0[to] + NotIn(us[..i], p, to) && e[from] == e0[from] - NotIn(us[..i], p, from)
      invariant forall k :: 0 <= k < |e0| && k != to && k != from ==> e[k] == e0[k]
      invariant c == c0 + NotIn(us[..i], p, to) - NotIn(us[..i], p, from)
    {
      assert us[..i + 1][..i] == us[..i];
      var neighborShard := Of(p, us[i]);
      if neighborShard != to && neighborShard != from {
        e := e[to := e[to] + 1];
        e := e[from := e[from] - 1];
      } else if neighborShard == to {
        e := e[from := e[from] - 1];
        c := c - 1;
      } else {
        e := e[to := e[to] + 1];
        c := c + 1;
      }
    }
    assert us[..|us|] == us;
  }

  /** The shifted statistics differ from the old ones as the true ones do, self-loops apart. */
  ghost predicate Shifted(es: seq<Edge>, p: Partition, v: Vertex, to: int, e0: seq<int>, c0: int, e: seq<int>, c: int) {
    var q, loops := p[v := to], Loops(es, v);
    && |e| == |e0|
    && (forall k :: 0 <= k < |e0| ==>
          e[k] - e0[k] == Touching(es, q, k) - Touching(es, p, k) - (if k == Of(p, v) || k == to then loops else 0))
    && c - c0 == Cut(es, q) - Cut(es, p) - 2 * loops
  }

  lemma ShiftIsExact(es: seq<Edge>, p: Partition, v: Vertex, to: int, e0: seq<int>, c0: int, e: seq<int>, c: int)
    requires var us, q, from := Adj(es, v), p[v := to], Of(p, v);
             && 0 <= to < |e0| && 0 <= from < |e0| && to != from && |e| == |e0|
             && e[to] == e0[to] + NotIn(us, q, to) && e[from] == e0[from] - NotIn(us, q, from)
             && (forall k :: 0 <= k < |e0| && k != to && k != from ==> e[k] == e0[k])
             && c == c0 + NotIn(us, q, to) - NotIn(us, q, from)
    ensures Shifted(es, p, v, to, e0, c0, e, c)
    ensures Exact(es, p, |e0|, e0, c0) ==> (Exact(es, p[v := to], |e0|, e, c) <==> Loops(es, v) == 0)
  {
    forall k | 0 <= k < |e0|
      ensures e[k] - e0[k] == Touching(es, p[v := to], k) - Touching(es, p, k)
                            - (if k == Of(p, v) || k == to then Loops(es, v) else 0)
    {
      MoveVertex(es, p, v, to, k);
    }
    MoveVertex(es, p, v, to, 0);
  }

  method ShiftStats(us: seq<Vertex>, q: Partition, to: int, from: int, e0: seq<int>, c0: int,
                    ghost es: seq<Edge>, ghost p: Partition, v: Vertex) returns (e: seq<int>, c: int)
    requires 0 <= to < |e0| && 0 <= from < |e0| && to != from
    requires us == Adj(es, v) && q == p[v := to] && from == Of(p, v)
    ensures Shifted(es, p, v, to, e0, c0, e, c)
    ensures Exact(es, p, |e0|, e0, c0) ==> (Exact(es, q, |e0|, e, c) <==> Loops(es, v) == 0)
  {
    e, c := ShiftList(us, q, to, from, e0, c0);
    ShiftIsExact(es, p, v, to, e0, c0, e, c);
  }

  // ----- dealing out in turn -----

  lemma Product(a: nat, b: nat)
    ensures a * b >= 0
  {
  }

  lemma LargeMultiple(n: int, d: int)
    requires n > 0 && d != 0
    ensures n * d >= n || n * d <= -n
  {
    if d > 0 {
      Product(n, d - 1);
      assert n * d == n * (d - 1) + n;
    } else {
      Product(n, -d - 1);
      assert n * d == -(n * (-d - 1)) - n;
    }
  }

  lemma Remainder(rounds: nat, n: nat, r: nat)
    requires r < n
    ensures (rounds * n + r) % n == r
  {
    var x := rounds * n + r;
    var q := x / n;
    assert x == n * q + x % n;
    assert n * (q - rounds) == n * q - n * rounds;
    if q != rounds { LargeMultiple(n, q - rounds); }
  }

  /** The vertices dealt in so many full rounds. */
  function Full(rounds: nat, n: nat): nat {
    if rounds == 0 then 0 else Full(rounds - 1, n) + n
  }

  lemma {:induction false} FullIs(rounds: nat, n: nat)
    ensures Full(rounds, n) == rounds * n
  {
    if rounds > 0 {
      FullIs(rounds - 1, n);
      assert rounds * n == (rounds - 1) * n + n;
    }
  }

  lemma MembersAdd(vs: set<Vertex>, p: Partition, v: Vertex, s: int, k: int)
    requires v !in vs && v !in p
    ensures |Members(vs + {v}, p[v := s], k)| == |Members(vs, p, k)| + B(k == s)
  {
    if k == s {
      assert Members(vs + {v}, p[v := s], k) == Members(vs, p, k) + {v};
    } else {
      assert Members(vs + {v}, p[v := s], k) == Members(vs, p, k);
    }
  }

  /** `rounds` full rounds over n shards and r vertices more have been dealt. */
  ghost predicate Dealt(done: set<Vertex>, p: Partition, sizes: seq<int>, n: nat, rounds: nat, r: nat) {
    && p.Keys == done && |done| == Full(rounds, n) + r && r < n && |sizes| == n
    && (forall v :: v in done ==> 0 <= p[v] < n)
    && (forall k :: 0 <= k < n ==> sizes[k] == rounds + B(k < r) && sizes[k] == |Members(done, p, k)|)
  }

  lemma DealNone(sizes: seq<int>, n: nat)
    requires n > 0 && |sizes| == n && forall k :: 0 <= k < n ==> sizes[k] == 0
    ensures Dealt({}, map[], sizes, n, 0, 0)
  {
    forall k | 0 <= k < n ensures |Members({}, map[], k)| == 0 {
      assert Members({}, map[], k) == {};
    }
  }

  lemma DealOne(done: set<Vertex>, p: Partition, sizes: seq<int>, n: nat, rounds: nat, r: nat, v: Vertex)
    requires Dealt(done, p, sizes, n, rounds, r) && v !in done
    ensures |done| % n == r
    ensures Dealt(done + {v}, p[v := r], sizes[r := sizes[r] + 1], n,
                  if r + 1 < n then rounds else rounds + 1, if r + 1 < n then r + 1 else 0)
  {
    FullIs(rounds, n);
    Remainder(rounds, n, r);
    forall k | 0 <= k < n ensures |Members(done + {v}, p[v := r], k)| == |Members(done, p, k)| + B(k == r) {
      MembersAdd(done, p, v, r, k);
    }
  }

  lemma DealtEvenly(done: set<Vertex>, p: Partition, sizes: seq<int>, n: nat, rounds: nat, r: nat)
    requires Dealt(done, p, sizes, n, rounds, r) && |done| >= n
    ensures forall j, k :: 0 <= j < n && 0 <= k < n ==> 1 <= sizes[j] <= sizes[k] + 1
  {
    assert rounds == 0 ==> Full(rounds, n) == 0;
  }

  /** What has been dealt, as the loop's variables show it. */
  ghost predicate Dealing(p: Partition, sizes: seq<int>, cnt: nat, n: nat, rounds: nat, r: nat) {
    Dealt(p.Keys, p, sizes, n, rounds, r) && cnt == |p.Keys|
  }

  method DealTo(v: Vertex, p0: Partition, sizes0: seq<int>, cnt: nat, n: nat, ghost rounds: nat, ghost r: nat)
    returns (p: Partition, sizes: seq<int>)
    requires Dealing(p0, sizes0, cnt, n, rounds, r) && v !in p0
    ensures forall x :: x in p <==> x in p0 || x == v
    ensures Dealing(p, sizes, cnt + 1, n, if r + 1 < n then rounds else rounds + 1, if r + 1 < n then r + 1 else 0)
  {
    DealOne(p0.Keys, p0, sizes0, n, rounds, r, v);
    var k := cnt % n;
    p, sizes := p0[v := k], sizes0[k := sizes0[k] + 1];
    assert p.Keys == p0.Keys + {v};
  }

  /** The dealing loop of Stable_Init_Partition. */
  method DealOut(vertices: set<Vertex>, n: nat) returns (p: Partition, sizes: seq<int>)
    requires 0 < n <= |vertices|
    ensures forall v :: v in vertices ==> v in p && 0 <= p[v] < n
    ensures |sizes| == n && forall k :: 0 <= k < n ==> sizes[k] == |Members(vertices, p, k)|
    ensures forall j, k :: 0 <= j < n && 0 <= k < n ==> 1 <= sizes[j] <= sizes[k] + 1
  {
    p, sizes := map[], seq(n, _ => 0);
    var cnt := 0;
    ghost var rounds, r := 0, 0;
    var todo := vertices;
    DealNone(sizes, n);
    while todo != {}
      invariant forall x :: x in vertices <==> x in p || x in todo
      invariant forall x :: x in todo ==> x !in p
      invariant cnt >= 0 && rounds >= 0 && r >= 0 && Dealing(p, sizes, cnt, n, rounds, r)
      decreases todo
    {
      var v :| v in todo;
      p, sizes := DealTo(v, p, sizes, cnt, n, rounds, r);
      cnt, todo := cnt + 1, todo - {v};
      rounds, r := if r + 1 < n then rounds else rounds + 1, if r + 1 < n then r + 1 else 0;
    }
    assert p.Keys == vertices;
    DealtEvenly(vertices, p, sizes, n, rounds, r);
  }

  /** The score of the shard of the j-th neighbour. */
  ghost function ScoreAt(v: Vertex, us: seq<Vertex>, p: Partition, stats: seq<int>, least: int, score: Score,
                         j: nat): real
    requires j < |us|
  {
    score(v, Of(p, us[j]), p, stats, least)
  }

  /**
   * `best` is the shard of the first neighbour, number `at`, with the highest score above
   * -9999; with no such neighbour `at` is -1 and `best` the vertex's own shard.
   */
  ghost predicate FirstBest(v: Vertex, us: seq<Vertex>, p: Partition, stats: seq<int>, least: int, score: Score,
                            best: int, maxScore: real, at: int)
  {
    -1 <= at < |us| &&
    (forall j :: 0 <= j < |us| ==> ScoreAt(v, us, p, stats, least, score, j) <= maxScore) &&
    (forall j :: 0 <= j < at ==> ScoreAt(v, us, p, stats, least, score, j) < maxScore) &&
    if at == -1 then best == Of(p, v) && maxScore == -9999.0
    else best == Of(p, us[at]) && maxScore == ScoreAt(v, us, p, stats, least, score, at) > -9999.0
  }

  function TrueStats(es: seq<Edge>, p: Partition, n: nat): seq<int> {
    seq(n, k requires 0 <= k < n => Touching(es, p, k))
  }

  /** A move to the first best shard, scored with the true statistics of the partition. */
  ghost predicate Greedy(es: seq<Edge>, p: Partition, n: nat, score: Score, m: Move) {
    exists maxScore, at ::
      FirstBest(m.v, Adj(es, m.v), p, TrueStats(es, p, n), MinOf(TrueStats(es, p, n)), score, m.to, maxScore, at)
  }

  ghost predicate AllGreedy(es: seq<Edge>, p0: Partition, n: nat, score: Score, ms: seq<Move>) {
    forall i :: 0 <= i < |ms| ==> Greedy(es, Replay(p0, ms[..i]), n, score, ms[i])
  }

  lemma GreedyNext(es: seq<Edge>, p0: Partition, n: nat, score: Score, ms: seq<Move>, m: Move)
    requires AllGreedy(es, p0, n, score, ms) && Greedy(es, Replay(p0, ms), n, score, m)
    ensures AllGreedy(es, p0, n, score, ms + [m])
  {
    var more := ms + [m];
    forall i | 0 <= i < |more| ensures Greedy(es, Replay(p0, more[..i]), n, score, more[i]) {
      assert more[..i] == if i < |ms| then ms[..i] else ms;
    }
  }

  /** Vertex 7 has a self-loop and a neighbour in shard 1; vertex 9 keeps shard 0 from being
      emptied. */
  const LOOPED: seq<Edge> := [(7, 7), (7, 8), (9, 9)]
  const SPLIT: Partition := map[7 := 0, 8 := 1, 9 := 0]

  function PreferOne(v: Vertex, s: int, p: Partition, stats: seq<int>, least: int): real {
    if s == 1 then 1.0 else 0.0
  }

  /** The counts of a graph of three edges, whatever the partition. */
  lemma ThreeEdges(e: Edge, f: Edge, g: Edge, p: Partition, k: int)
    ensures Cut([e, f, g], p) == B(Of(p, e.0) != Of(p, e.1)) + B(Of(p, f.0) != Of(p, f.1)) + B(Of(p, g.0) != Of(p, g.1))
    ensures Touching([e, f, g], p, k) ==
      B(Of(p, e.0) == k || Of(p, e.1) == k) + B(Of(p, f.0) == k || Of(p, f.1) == k) +
      B(Of(p, g.0) == k || Of(p, g.1) == k)
  {
    var one, two := [e], [e, f];
    assert [e, f, g][..2] == two && two[..1] == one && one[..0] == [];
    assert Cut(one, p) == B(Of(p, e.0) != Of(p, e.1));
    assert Touching(one, p, k) == B(Of(p, e.0) == k || Of(p, e.1) == k);
  }

  lemma LoopedNeighbours()
    ensures Adj(LOOPED, 7) == [7, 7, 8] && Loops(LOOPED, 7) == 1
  {
    var one: seq<Edge>, two: seq<Edge> := [(7, 7)], [(7, 7), (7, 8)];
    assert LOOPED[..2] == two && two[..1] == one && one[..0] == [];
    assert Adj(one, 7) == [7, 7] && Loops(one, 7) == 1;
    assert Adj(two, 7) == [7, 7, 8] && Loops(two, 7) == 1;
  }

  lemma LoopedStats()
    ensures TrueStats(LOOPED, SPLIT, 2) == [3, 1] && Cut(LOOPED, SPLIT) == 1
    ensures TrueStats(LOOPED, SPLIT[7 := 1], 2) == [1, 2] && Cut(LOOPED, SPLIT[7 := 1]) == 0
  {
    LoopedAt(0);
    LoopedAt(1);
  }

  lemma LoopedAt(k: nat)
    requires k < 2
    ensures Touching(LOOPED, SPLIT, k) == [3, 1][k] && Cut(LOOPED, SPLIT) == 1
    ensures Touching(LOOPED, SPLIT[7 := 1], k) == [1, 2][k] && Cut(LOOPED, SPLIT[7 := 1]) == 0
  {
    ThreeEdges((7, 7), (7, 8), (9, 9), SPLIT, k);
    ThreeEdges((7, 7), (7, 8), (9, 9), SPLIT[7 := 1], k);
  }

  /**
   * A greedy move that empties no shard, after which the incremental statistics, the number
   * of cut edges below zero included, are not the true ones.
   */
  lemma SelfLoopMiscounted(e: seq<int>, c: int)
    requires Shifted(LOOPED, SPLIT, 7, 1, [3, 1], 1, e, c)
    ensures Exact(LOOPED, SPLIT, 2, [3, 1], 1)
    ensures Greedy(LOOPED, SPLIT, 2, PreferOne, Move(7, 1))
    ensures Members({7, 8, 9}, SPLIT, 0) == {7, 9}
    ensures e == [0, 1] && c == -2
    ensures TrueStats(LOOPED, SPLIT[7 := 1], 2) == [1, 2] && Cut(LOOPED, SPLIT[7 := 1]) == 0
  {
    LoopedStats();
    LoopedNeighbours();
    forall k | 0 <= k < 2
      ensures Touching(LOOPED, SPLIT, k) == [3, 1][k] && Touching(LOOPED, SPLIT[7 := 1], k) == [1, 2][k]
    {
      assert TrueStats(LOOPED, SPLIT, 2)[k] == [3, 1][k];
      assert TrueStats(LOOPED, SPLIT[7 := 1], 2)[k] == [1, 2][k];
    }
    assert e[0] == 0 && e[1] == 1;
    var stats := TrueStats(LOOPED, SPLIT, 2);
    assert FirstBest(7, Adj(LOOPED, 7), SPLIT, stats, MinOf(stats), PreferOne, 1, 1.0, 2);
  }

  /** There is one first best shard. */
  lemma BestUnique(v: Vertex, us: seq<Vertex>, p: Partition, stats: seq<int>, least: int, score: Score,
                   best: int, max: real, at: int, best': int, max': real, at': int)
    requires FirstBest(v, us, p, stats, least, score, best, max, at)
    requires FirstBest(v, us, p, stats, least, score, best', max', at')
    ensures best == best' && max == max' && at == at'
  {
    if at >= 0 { assert ScoreAt(v, us, p, stats, least, score, at) <= max'; }
    if at' >= 0 { assert ScoreAt(v, us, p, stats, least, score, at') <= max; }
  }

  // ----- a run of the partition loop, visit by visit -----

  /** The moves made so far and the incremental statistics. */
  datatype Moment = Moment(moves: seq<Move>, stats: seq<int>, cut: int)

  datatype Visited = Visited(v: Vertex, start: Moment, end: Moment)

  /** Where the scores of the moment would put a vertex. */
  ghost predicate BestAt(es: seq<Edge>, p0: Partition, score: Score, m: Moment, v: Vertex, best: int) {
    exists maxScore, at ::
      FirstBest(v, Adj(es, v), Replay(p0, m.moves), m.stats, MinOf(m.stats), score, best, maxScore, at)
  }

  /** A vertex that the loop leaves where it is: it has moved 50 times, or its first best
      shard is its own, or it is alone in its shard. */
  ghost predicate Stays(es: seq<Edge>, vs: set<Vertex>, p0: Partition, score: Score, m: Moment, v: Vertex) {
    var p := Replay(p0, m.moves);
    MovesOf(m.moves, v) >= 50 || BestAt(es, p0, score, m, v, Of(p, v)) || |Members(vs, p, Of(p, v))| <= 1
  }

  ghost predicate Moved(es: seq<Edge>, p0: Partition, score: Score, x: Visited) {
    exists best :: MovedTo(es, p0, score, x, best)
  }

  /** Moved to the first best shard, with the statistics updated. */
  ghost predicate MovedTo(es: seq<Edge>, p0: Partition, score: Score, x: Visited, best: int) {
    && BestAt(es, p0, score, x.start, x.v, best)
    && x.end.moves == x.start.moves + [Move(x.v, best)]
    && Shifted(es, Replay(p0, x.start.moves), x.v, best, x.start.stats, x.start.cut, x.end.stats, x.end.cut)
  }

  ghost predicate VisitOk(es: seq<Edge>, vs: set<Vertex>, p0: Partition, score: Score, x: Visited) {
    if Stays(es, vs, p0, score, x.start, x.v) then x.end == x.start else Moved(es, p0, score, x)
  }

  ghost predicate Chain(xs: seq<Visited>, from: Moment, to: Moment) {
    if xs == [] then from == to else xs[|xs| - 1].end == to && Chain(xs[..|xs| - 1], from, xs[|xs| - 1].start)
  }

  function Vertices(xs: seq<Visited>): set<Vertex> {
    set x | x in xs :: x.v
  }

  /** One iteration: every vertex once, each visit from where the last one ended. */
  ghost predicate SweepOk(es: seq<Edge>, vs: set<Vertex>, p0: Partition, score: Score, xs: seq<Visited>,
                          from: Moment, to: Moment)
  {
    Chain(xs, from, to) && Vertices(xs) == vs && |xs| == |vs| &&
    forall i :: 0 <= i < |xs| ==> VisitOk(es, vs, p0, score, xs[i])
  }

  /** An iteration under way, with `todo` still to be visited. */
  ghost predicate Sweeping(es: seq<Edge>, vs: set<Vertex>, p0: Partition, score: Score, xs: seq<Visited>,
                           from: Moment, to: Moment, todo: set<Vertex>)
  {
    Chain(xs, from, to) && todo <= vs && Vertices(xs) == vs - todo && |xs| + |todo| == |vs| &&
    forall i :: 0 <= i < |xs| ==> VisitOk(es, vs, p0, score, xs[i])
  }

  lemma SweepMore(es: seq<Edge>, vs: set<Vertex>, p0: Partition, score: Score, xs: seq<Visited>, from: Moment,
                  x: Visited, todo: set<Vertex>)
    requires Sweeping(es, vs, p0, score, xs, from, x.start, todo) && x.v in todo && VisitOk(es, vs, p0, score, x)
    ensures Sweeping(es, vs, p0, score, xs + [x], from, x.end, todo - {x.v})
  {
    assert (xs + [x])[..|xs|] == xs;
    assert Vertices(xs + [x]) == Vertices(xs) + {x.v};
  }

  lemma StayOk(es: seq<Edge>, vs: set<Vertex>, p0: Partition, score: Score, m: Moment, v: Vertex, best: int)
    requires var p := Replay(p0, m.moves);
             MovesOf(m.moves, v) >= 50 ||
             (BestAt(es, p0, score, m, v, best) && (best == Of(p, v) || |Members(vs, p, Of(p, v))| <= 1))
    ensures VisitOk(es, vs, p0, score, Visited(v, m, m))
  {
  }

  lemma MoveOk(es: seq<Edge>, vs: set<Vertex>, p0: Partition, score: Score, x: Visited, best: int)
    requires var p := Replay(p0, x.start.moves);
             MovesOf(x.start.moves, x.v) < 50 && best != Of(p, x.v) && |Members(vs, p, Of(p, x.v))| > 1
    requires MovedTo(es, p0, score, x, best)
    ensures VisitOk(es, vs, p0, score, x)
  {
    var m, p := x.start, Replay(p0, x.start.moves);
    if BestAt(es, p0, score, m, x.v, Of(p, x.v)) {
      var max, at :| FirstBest(x.v, Adj(es, x.v), p, m.stats, MinOf(m.stats), score, best, max, at);
      var max', at' :| FirstBest(x.v, Adj(es, x.v), p, m.stats, MinOf(m.stats), score, Of(p, x.v), max', at');
      BestUnique(x.v, Adj(es, x.v), p, m.stats, MinOf(m.stats), score, best, max, at, Of(p, x.v), max', at');
    }
  }

  /** Moves are only ever added; if none was, nothing changed. */
  lemma {:induction false} ChainGrows(es: seq<Edge>, vs: set<Vertex>, p0: Partition, score: Score, xs: seq<Visited>,
                                      from: Moment, to: Moment)
    requires Chain(xs, from, to) && forall i :: 0 <= i < |xs| ==> VisitOk(es, vs, p0, score, xs[i])
    ensures from.moves <= to.moves
    ensures from.moves == to.moves ==> from == to && forall i :: 0 <= i < |xs| ==> xs[i].start == xs[i].end == from
  {
    if xs != [] {
      var front, x := xs[..|xs| - 1], xs[|xs| - 1];
      assert forall i :: 0 <= i < |front| ==> front[i] == xs[i];
      ChainGrows(es, vs, p0, score, front, from, x.start);
      assert VisitOk(es, vs, p0, score, x) && x.start.moves <= x.end.moves;
    }
  }

  /** MAIN: an iteration without a move ends with every vertex staying where it is. */
  lemma QuietSweepSettles(es: seq<Edge>, vs: set<Vertex>, p0: Partition, score: Score, xs: seq<Visited>,
                          from: Moment, to: Moment)
    requires SweepOk(es, vs, p0, score, xs, from, to) && from.moves == to.moves
    ensures from == to && forall v :: v in vs ==> Stays(es, vs, p0, score, from, v)
  {
    ChainGrows(es, vs, p0, score, xs, from, to);
    forall v | v in vs ensures Stays(es, vs, p0, score, from, v) {
      assert v in Vertices(xs);
      var x :| x in xs && x.v == v;
      var i :| 0 <= i < |xs| && xs[i] == x;
      assert VisitOk(es, vs, p0, score, xs[i]) && xs[i].start == xs[i].end;
      assert Moved(es, p0, score, x) ==> |x.end.moves| == |x.start.moves| + 1;
    }
  }

  /** All iterations, each from where the last one ended. */
  ghost predicate RunOk(es: seq<Edge>, vs: set<Vertex>, p0: Partition, score: Score, sweeps: seq<seq<Visited>>,
                        marks: seq<Moment>)
  {
    |marks| == |sweeps| + 1 &&
    forall t :: 0 <= t < |sweeps| ==> SweepOk(es, vs, p0, score, sweeps[t], marks[t], marks[t + 1])
  }

  lemma RunMore(es: seq<Edge>, vs: set<Vertex>, p0: Partition, score: Score, sweeps: seq<seq<Visited>>,
                marks: seq<Moment>, xs: seq<Visited>, to: Moment)
    requires RunOk(es, vs, p0, score, sweeps, marks) && SweepOk(es, vs, p0, score, xs, marks[|sweeps|], to)
    ensures RunOk(es, vs, p0, score, sweeps + [xs], marks + [to])
  {
    var sweeps', marks' := sweeps + [xs], marks + [to];
    forall t | 0 <= t < |sweeps'| ensures SweepOk(es, vs, p0, score, sweeps'[t], marks'[t], marks'[t + 1]) {
      if t < |sweeps| { assert SweepOk(es, vs, p0, score, sweeps[t], marks[t], marks[t + 1]); }
    }
  }

  lemma {:induction false} RunGrows(es: seq<Edge>, vs: set<Vertex>, p0: Partition, score: Score,
                                    sweeps: seq<seq<Visited>>, marks: seq<Moment>, t: nat)
    requires RunOk(es, vs, p0, score, sweeps, marks) && t <= |sweeps|
    ensures marks[t].moves <= marks[|sweeps|].moves
    decreases |sweeps| - t
  {
    if t < |sweeps| {
      assert SweepOk(es, vs, p0, score, sweeps[t], marks[t], marks[t + 1]);
      ChainGrows(es, vs, p0, score, sweeps[t], marks[t], marks[t + 1]);
      RunGrows(es, vs, p0, score, sweeps, marks, t + 1);
    }
  }

  /** MAIN: a run of at least one iteration that moves nothing found every vertex at its
      first best shard or alone in its shard. */
  lemma NoMoveSettled(es: seq<Edge>, vs: set<Vertex>, p0: Partition, score: Score, sweeps: seq<seq<Visited>>,
                      marks: seq<Moment>, v: Vertex)
    requires RunOk(es, vs, p0, score, sweeps, marks) && sweeps != [] && marks[|sweeps|].moves == [] && v in vs
    ensures BestAt(es, p0, score, marks[0], v, Of(p0, v)) || |Members(vs, p0, Of(p0, v))| <= 1
  {
    RunGrows(es, vs, p0, score, sweeps, marks, 0);
    RunGrows(es, vs, p0, score, sweeps, marks, 1);
    assert SweepOk(es, vs, p0, score, sweeps[0], marks[0], marks[1]);
    QuietSweepSettles(es, vs, p0, score, sweeps[0], marks[0], marks[1]);
    assert Stays(es, vs, p0, score, marks[0], v);
  }

  /** The scoring loop of CLPA_Partition: every neighbouring shard is scored once. */
  method BestNeighbour(v: Vertex, us: seq<Vertex>, p: Partition, stats: seq<int>, least: int, score: Score)
    returns (best: int, maxScore: real, ghost at: int)
    ensures FirstBest(v, us, p, stats, least, score, best, maxScore, at)
  {
    var scores: map<int, real> := map[];
    maxScore, best, at := -9999.0, Of(p, v), -1;
    for i := 0 to |us|
      invariant -1 <= at < i
      invariant forall s :: s in scores ==> scores[s] == score(v, s, p, stats, least) && scores[s] <= maxScore
      invariant forall j :: 0 <= j < i ==> Of(p, us[j]) in scores
      invariant forall j :: 0 <= j < at ==> ScoreAt(v, us, p, stats, least, score, j) < maxScore
      invariant if at == -1 then best == Of(p, v) && maxScore == -9999.0
                else best == Of(p, us[at]) && maxScore == ScoreAt(v, us, p, stats, least, score, at) > -9999.0
    {
      var uShard := Of(p, us[i]);
      if uShard !in scores {
        scores := scores[uShard := score(v, uShard, p, stats, least)];
        if maxScore < scores[uShard] {
          maxScore, best, at := scores[uShard], uShard, i;
        }
      }
    }
  }

  class CLPAState {
    const shardNum: nat
    const maxIterations: nat
    var vertexSet: set<Vertex>
    var edgeSet: map<Vertex, seq<Vertex>>
    ghost var edges: seq<Edge>
    var partitionMap: Partition
    var edges2Shard: seq<int>
    var vertexsNumInShard: seq<int>
    var minEdges2Shard: int
    var crossShardEdgeNum: int

    /** The adjacency map is what adding the edges one by one builds. */
    ghost predicate GraphOk()
      reads this
    {
      && (forall v :: Neighbours(edgeSet, v) == Adj(edges, v))
      && Ends(edges, edgeSet.Keys) && edgeSet.Keys <= vertexSet
    }

    ghost predicate InRange()
      reads this
    {
      forall v :: v in vertexSet ==> v in partitionMap && 0 <= partitionMap[v] < shardNum
    }

    /** What ComputeEdges2Shard would compute from scratch. */
    ghost predicate StatsExact()
      reads this
    {
      Exact(edges, partitionMap, shardNum, edges2Shard, crossShardEdgeNum) && minEdges2Shard == MinOf(edges2Shard)
    }

    ghost predicate LoopFree()
      reads this
    {
      forall v :: v in vertexSet ==> Loops(edges, v) == 0
    }

    ghost predicate SizesExact()
      reads this
    {
      && |vertexsNumInShard| == shardNum
      && forall k :: 0 <= k < shardNum ==> vertexsNumInShard[k] == |Members(vertexSet, partitionMap, k)|
    }

    constructor (shards: nat, iterations: nat)
      ensures shardNum == shards && maxIterations == iterations
      ensures GraphOk() && edges == [] && vertexSet == {}
    {
      shardNum, maxIterations := shards, iterations;
      vertexSet, edgeSet, edges, partitionMap := {}, map[], [], map[];
      edges2Shard, vertexsNumInShard, minEdges2Shard, crossShardEdgeNum := [], [], 0, 0;
    }

    /** Graph.AddEdge: both ends are added if missing, and the edge in both directions. */
    method AddEdge(u: Vertex, v: Vertex)
      requires GraphOk()
      modifies this`vertexSet, this`edgeSet, this`edges
      ensures GraphOk() && edges == old(edges) + [(u, v)] && vertexSet == old(vertexSet) + {u, v}
    {
      vertexSet := vertexSet + {u} + {v};
      ghost var before := edgeSet;
      edgeSet := edgeSet[u := Neighbours(edgeSet, u) + [v]];
      edgeSet := edgeSet[v := Neighbours(edgeSet, v) + [u]];
      edges := edges + [(u, v)];
      forall x ensures Neighbours(edgeSet, x) == Adj(edges, x) {
        assert Neighbours(before, x) == Adj(old(edges), x);
        AdjacencyGrows(before, old(edges), u, v, x);
      }
    }

    /** One pass over the directed adjacency lists. */
    method CountDirected() returns (cross: seq<int>, inter: seq<int>)
      requires GraphOk() && InRange()
      ensures |cross| == |inter| == shardNum
      ensures forall k :: 0 <= k < shardNum ==>
        cross[k] == CrossSeen(edges, partitionMap, edgeSet.Keys, k) &&
        inter[k] == InterSeen(edges, partitionMap, edgeSet.Keys, k)
    {
      cross, inter := seq(shardNum, _ => 0), seq(shardNum, _ => 0);
      var todo := edgeSet.Keys;
      ghost var seen := {};
      forall k ensures CrossSeen(edges, partitionMap, {}, k) == 0 && InterSeen(edges, partitionMap, {}, k) == 0 {
        NoneSeen(edges, partitionMap, k);
      }
      while todo != {}
        invariant |cross| == |inter| == shardNum && todo <= edgeSet.Keys && seen == edgeSet.Keys - todo
        invariant forall k :: 0 <= k < shardNum ==>
          cross[k] == CrossSeen(edges, partitionMap, seen, k) && inter[k] == InterSeen(edges, partitionMap, seen, k)
        decreases todo
      {
        var v :| v in todo;
        var lst, vShard := edgeSet[v], Of(partitionMap, v);
        assert lst == Neighbours(edgeSet, v);
        AdjEnds(edges, edgeSet.Keys, v);
        forall i | 0 <= i < |lst| ensures 0 <= Of(partitionMap, lst[i]) < shardNum {
          assert lst[i] in vertexSet;
        }
        cross, inter := CountList(lst, partitionMap, vShard, cross, inter);
        forall k | 0 <= k < shardNum
          ensures cross[k] == CrossSeen(edges, partitionMap, seen + {v}, k)
               && inter[k] == InterSeen(edges, partitionMap, seen + {v}, k)
        {
          VisitVertex(edges, partitionMap, seen, v, k);
        }
        seen, todo := seen + {v}, todo - {v};
      }
      assert seen == edgeSet.Keys;
    }

    /** MAIN: the pass over directed lists, halved, counts undirected edges exactly. */
    method ComputeEdges2Shard()
      requires GraphOk() && InRange()
      modifies this`edges2Shard, this`minEdges2Shard, this`crossShardEdgeNum
      ensures StatsExact()
    {
      var cross, inter := CountDirected();
      CrossSum(edges, partitionMap, edgeSet.Keys, shardNum);
      assert cross == CrossColumn(edges, partitionMap, edgeSet.Keys, shardNum);
      var total := SumUp(cross);
      crossShardEdgeNum := total / 2;
      var both := cross;
      for i := 0 to shardNum
        invariant |both| == shardNum
        invariant forall k :: 0 <= k < shardNum ==> both[k] == cross[k] + if k < i then inter[k] / 2 else 0
      {
        both := both[i := both[i] + inter[i] / 2];
      }
      edges2Shard := both;
      forall k | 0 <= k < shardNum ensures edges2Shard[k] == Touching(edges, partitionMap, k) {
        AllSeen(edges, partitionMap, edgeSet.Keys, k);
      }
      minEdges2Shard := Smallest(edges2Shard);
    }

    /** MAIN: the incremental update after v left shard `from` moves each statistic by
        exactly what a recomputation would, less an error for each self-loop of v; so from
        exact statistics it leaves exact ones if and only if v has no self-loop. */
    method ChangeShardRecompute(v: Vertex, from: int, ghost p: Partition)
      requires GraphOk() && InRange() && v in vertexSet && |edges2Shard| == shardNum
      requires 0 <= from < shardNum && Of(p, v) == from
      requires partitionMap == p[v := partitionMap[v]] && partitionMap[v] != from
      modifies this`edges2Shard, this`minEdges2Shard, this`crossShardEdgeNum
      ensures |edges2Shard| == shardNum && minEdges2Shard == MinOf(edges2Shard)
      ensures Shifted(edges, p, v, partitionMap[v], old(edges2Shard), old(crossShardEdgeNum),
                      edges2Shard, crossShardEdgeNum)
      ensures Exact(edges, p, shardNum, old(edges2Shard), old(crossShardEdgeNum)) ==>
        (Exact(edges, partitionMap, shardNum, edges2Shard, crossShardEdgeNum) <==> Loops(edges, v) == 0)
    {
      var to, us := partitionMap[v], if v in edgeSet then edgeSet[v] else [];
      assert us == Neighbours(edgeSet, v) == Adj(edges, v) && partitionMap == p[v := to];
      var e, c := ShiftStats(us, partitionMap, to, from, edges2Shard, crossShardEdgeNum, edges, p, v);
      edges2Shard, crossShardEdgeNum := e, c;
      minEdges2Shard := Smallest(edges2Shard);
    }

    /** Stable_Init_Partition: vertices dealt out in turn, in any order.  With too many
        shards it refuses; otherwise no shard is empty and sizes differ by at most one. */
    method StableInitPartition() returns (ok: bool)
      requires GraphOk() && shardNum > 0
      modifies this
      ensures ok <==> shardNum <= |vertexSet|
      ensures GraphOk() && vertexSet == old(vertexSet) && edges == old(edges)
      ensures ok ==> InRange() && SizesExact() && StatsExact()
      ensures ok ==> forall j, k :: 0 <= j < shardNum && 0 <= k < shardNum ==>
        1 <= vertexsNumInShard[j] <= vertexsNumInShard[k] + 1
    {
      if shardNum > |vertexSet| { return false; }
      partitionMap, vertexsNumInShard := DealOut(vertexSet, shardNum);
      ComputeEdges2Shard();
      return true;
    }

    /** The first neighbouring shard of the highest score above -9999, or v's own shard when
        there is none. */
    method BestShard(v: Vertex, score: Score) returns (best: int, maxScore: real, ghost at: int)
      requires GraphOk() && InRange() && v in vertexSet
      ensures 0 <= best < shardNum
      ensures FirstBest(v, Adj(edges, v), partitionMap, edges2Shard, minEdges2Shard, score, best, maxScore, at)
      ensures StatsExact() ==> Greedy(edges, partitionMap, shardNum, score, Move(v, best))
    {
      var us := if v in edgeSet then edgeSet[v] else [];
      assert us == Neighbours(edgeSet, v) == Adj(edges, v);
      AdjEnds(edges, edgeSet.Keys, v);
      best, maxScore, at := BestNeighbour(v, us, partitionMap, edges2Shard, minEdges2Shard, score);
      assert at >= 0 ==> us[at] in vertexSet;
      assert StatsExact() ==> edges2Shard == TrueStats(edges, partitionMap, shardNum);
    }

    /** The guarded move of one vertex; everything stays exact and no shard is emptied. */
    method MoveTo(v: Vertex, to: int)
      requires GraphOk() && InRange() && SizesExact() && v in vertexSet && 0 <= to < shardNum
      requires partitionMap[v] != to && vertexsNumInShard[partitionMap[v]] > 1
      requires |edges2Shard| == shardNum
      modifies this`partitionMap, this`vertexsNumInShard, this`edges2Shard, this`minEdges2Shard, this`crossShardEdgeNum
      ensures partitionMap == old(partitionMap)[v := to]
      ensures InRange() && SizesExact() && |edges2Shard| == shardNum && minEdges2Shard == MinOf(edges2Shard)
      ensures Shifted(edges, old(partitionMap), v, to, old(edges2Shard), old(crossShardEdgeNum),
                      edges2Shard, crossShardEdgeNum)
      ensures old(StatsExact()) && Loops(edges, v) == 0 ==> StatsExact()
      ensures forall k :: 0 <= k < shardNum && old(vertexsNumInShard[k]) > 0 ==> vertexsNumInShard[k] > 0
    {
      ghost var p := partitionMap;
      var now := partitionMap[v];
      partitionMap := partitionMap[v := to];
      vertexsNumInShard := vertexsNumInShard[now := vertexsNumInShard[now] - 1];
      vertexsNumInShard := vertexsNumInShard[to := vertexsNumInShard[to] + 1];
      forall k | 0 <= k < shardNum ensures vertexsNumInShard[k] == |Members(vertexSet, partitionMap, k)| {
        MembersMove(vertexSet, p, v, to, k);
      }
      ChangeShardRecompute(v, now, p);
    }

    /** What holds between any two moves. */
    ghost predicate Progress(p0: GraphCuts.Partition, sizes0: seq<int>, res: map<Vertex, int>,
                             counts: map<Vertex, nat>, moves: seq<Move>)
      reads this
    {
      && InRange() && SizesExact() && |edges2Shard| == shardNum && minEdges2Shard == MinOf(edges2Shard)
      && |sizes0| == shardNum
      && (forall k :: 0 <= k < shardNum && sizes0[k] > 0 ==> vertexsNumInShard[k] > 0)
      && Recorded(vertexSet, p0, partitionMap, res, counts, moves)
    }

    /** On a graph without self-loops the statistics are exact, and every move was greedy. */
    ghost predicate WellScored(p0: GraphCuts.Partition, score: Score, moves: seq<Move>)
      reads this
    {
      LoopFree() ==> StatsExact() && AllGreedy(edges, p0, shardNum, score, moves)
    }

    ghost function Now(moves: seq<Move>): Moment
      reads this
    {
      Moment(moves, edges2Shard, crossShardEdgeNum)
    }

    /** One visit of the main loop: the vertex stays, or moves to its first best shard. */
    method Visit(v: Vertex, score: Score, res: map<Vertex, int>, counts: map<Vertex, nat>,
                 ghost moves: seq<Move>, ghost p0: GraphCuts.Partition, ghost sizes0: seq<int>)
      returns (res': map<Vertex, int>, counts': map<Vertex, nat>, ghost moves': seq<Move>)
      requires GraphOk() && v in vertexSet && Progress(p0, sizes0, res, counts, moves) && WellScored(p0, score, moves)
      modifies this`partitionMap, this`vertexsNumInShard, this`edges2Shard, this`minEdges2Shard,
        this`crossShardEdgeNum
      ensures GraphOk() && Progress(p0, sizes0, res', counts', moves') && WellScored(p0, score, moves')
      ensures VisitOk(edges, vertexSet, p0, score, Visited(v, old(Now(moves)), Now(moves')))
    {
      res', counts', moves' := res, counts, moves;
      var moved := if v in counts then counts[v] else 0;
      ghost var start := Now(moves);
      if moved >= 50 {
        StayOk(edges, vertexSet, p0, score, start, v, 0);
        return;
      }
      var best, _, _ := BestShard(v, score);
      assert BestAt(edges, p0, score, start, v, best);
      if partitionMap[v] != best && vertexsNumInShard[partitionMap[v]] > 1 {
        res', counts', moves' := Relocate(v, best, score, res, counts, moves, p0, sizes0);
      } else {
        StayOk(edges, vertexSet, p0, score, start, v, best);
      }
    }

    /** The move of a visit, and its records. */
    method Relocate(v: Vertex, best: int, score: Score, res: map<Vertex, int>, counts: map<Vertex, nat>,
                    ghost moves: seq<Move>, ghost p0: GraphCuts.Partition, ghost sizes0: seq<int>)
      returns (res': map<Vertex, int>, counts': map<Vertex, nat>, ghost moves': seq<Move>)
      requires GraphOk() && v in vertexSet && Progress(p0, sizes0, res, counts, moves) && WellScored(p0, score, moves)
      requires (if v in counts then counts[v] else 0) < 50 && 0 <= best < shardNum
      requires partitionMap[v] != best && vertexsNumInShard[partitionMap[v]] > 1
      requires BestAt(edges, p0, score, Now(moves), v, best)
      requires StatsExact() ==> Greedy(edges, partitionMap, shardNum, score, Move(v, best))
      modifies this`partitionMap, this`vertexsNumInShard, this`edges2Shard, this`minEdges2Shard,
        this`crossShardEdgeNum
      ensures GraphOk() && Progress(p0, sizes0, res', counts', moves') && WellScored(p0, score, moves')
      ensures VisitOk(edges, vertexSet, p0, score, Visited(v, old(Now(moves)), Now(moves')))
    {
      ghost var start := Now(moves);
      if LoopFree() { GreedyNext(edges, p0, shardNum, score, moves, Move(v, best)); }
      RecordMove(vertexSet, p0, partitionMap, res, counts, moves, v, best);
      MoveTo(v, best);
      res' := res[v := best];
      counts' := counts[v := (if v in counts then counts[v] else 0) + 1];
      moves' := moves + [Move(v, best)];
      MoveOk(edges, vertexSet, p0, score, Visited(v, start, Now(moves')), best);
    }

    /** One iteration: every vertex is visited, in any order. */
    method Sweep(score: Score, res: map<Vertex, int>, counts: map<Vertex, nat>,
                 ghost moves: seq<Move>, ghost p0: GraphCuts.Partition, ghost sizes0: seq<int>)
      returns (res': map<Vertex, int>, counts': map<Vertex, nat>, ghost moves': seq<Move>, ghost xs: seq<Visited>)
      requires GraphOk() && Progress(p0, sizes0, res, counts, moves) && WellScored(p0, score, moves)
      modifies this`partitionMap, this`vertexsNumInShard, this`edges2Shard, this`minEdges2Shard,
        this`crossShardEdgeNum
      ensures GraphOk() && Progress(p0, sizes0, res', counts', moves') && WellScored(p0, score, moves')
      ensures SweepOk(edges, vertexSet, p0, score, xs, old(Now(moves)), Now(moves'))
    {
      res', counts', moves', xs := res, counts, moves, [];
      var todo := vertexSet;
      while todo != {}
        invariant todo <= vertexSet && GraphOk()
        invariant Progress(p0, sizes0, res', counts', moves') && WellScored(p0, score, moves')
        invariant Sweeping(edges, vertexSet, p0, score, xs, old(Now(moves)), Now(moves'), todo)
        decreases todo
      {
        var v :| v in todo;
        ghost var start := Now(moves');
        res', counts', moves' := Visit(v, score, res', counts', moves', p0, sizes0);
        ghost var x := Visited(v, start, Now(moves'));
        SweepMore(edges, vertexSet, p0, score, xs, old(Now(moves)), x, todo);
        xs, todo := xs + [x], todo - {v};
      }
    }

    /** MAIN: for any score function and any visiting order, CLPA_Partition keeps the shard
        sizes exact, empties no shard that had a vertex, moves no vertex more than 50 times,
        and returns the map that overlaid on the old partition gives the new one, with its
        exact cut.  Each of maxIterations sweeps visits every vertex once, and a visited vertex
        stays or moves exactly as VisitOk says; on a graph without self-loops every move goes to the first best shard,
        scored with the true statistics of that moment. */
    method Partition(score: Score)
      returns (res: map<Vertex, int>, cut: int, ghost moves: seq<Move>,
               ghost sweeps: seq<seq<Visited>>, ghost marks: seq<Moment>)
      requires GraphOk() && InRange() && SizesExact()
      modifies this`partitionMap, this`vertexsNumInShard, this`edges2Shard, this`minEdges2Shard, this`crossShardEdgeNum
      ensures InRange() && SizesExact() && StatsExact() && cut == Cut(edges, partitionMap)
      ensures forall v :: v in vertexSet ==> partitionMap[v] == if v in res then res[v] else Of(old(partitionMap), v)
      ensures forall k :: 0 <= k < shardNum && old(vertexsNumInShard)[k] > 0 ==> vertexsNumInShard[k] > 0
      ensures partitionMap == Replay(old(partitionMap), moves) && forall v :: MovesOf(moves, v) <= 50
      ensures LoopFree() ==> AllGreedy(edges, old(partitionMap), shardNum, score, moves)
      ensures RunOk(edges, vertexSet, old(partitionMap), score, sweeps, marks) && |sweeps| == maxIterations
      ensures marks[0] == Moment([], TrueStats(edges, old(partitionMap), shardNum), Cut(edges, old(partitionMap)))
      ensures marks[maxIterations].moves == moves
    {
      ghost var p0, sizes0 := partitionMap, vertexsNumInShard;
      ComputeEdges2Shard();
      res, moves, sweeps, marks := Iterate(score, p0, sizes0);
      ComputeEdges2Shard();
      cut := crossShardEdgeNum;
    }

    /** The loop over iterations. */
    method Iterate(score: Score, ghost p0: GraphCuts.Partition, ghost sizes0: seq<int>)
      returns (res: map<Vertex, int>, ghost moves: seq<Move>,
               ghost sweeps: seq<seq<Visited>>, ghost marks: seq<Moment>)
      requires GraphOk() && InRange() && SizesExact() && StatsExact()
      requires p0 == partitionMap && sizes0 == vertexsNumInShard
      modifies this`partitionMap, this`vertexsNumInShard, this`edges2Shard, this`minEdges2Shard, this`crossShardEdgeNum
      ensures exists counts :: Progress(p0, sizes0, res, counts, moves)
      ensures GraphOk() && WellScored(p0, score, moves)
      ensures RunOk(edges, vertexSet, p0, score, sweeps, marks) && |sweeps| == maxIterations
      ensures marks[0] == Moment([], TrueStats(edges, p0, shardNum), Cut(edges, p0))
      ensures marks[maxIterations].moves == moves
    {
      res, moves := map[], [];
      sweeps, marks := [], [Now([])];
      var updateTreshold: map<Vertex, nat> := map[];
      for iter := 0 to maxIterations
        invariant GraphOk() && Progress(p0, sizes0, res, updateTreshold, moves) && WellScored(p0, score, moves)
        invariant RunOk(edges, vertexSet, p0, score, sweeps, marks) && |sweeps| == iter
        invariant marks[0] == Moment([], TrueStats(edges, p0, shardNum), Cut(edges, p0)) && marks[iter] == Now(moves)
      {
        ghost var xs;
        res, updateTreshold, moves, xs := Sweep(score, res, updateTreshold, moves, p0, sizes0);
        RunMore(edges, vertexSet, p0, score, sweeps, marks, xs, Now(moves));
        sweeps, marks := sweeps + [xs], marks + [Now(moves)];
      }
    }
  }
}

/** Trie nodes, their paths, and the pre-order walk that nodeIterator must produce
    (vm/trie/iterator.go:558-602). */
module TriePreOrder {

  /** The terminator nibble at the end of a leaf's path. */
  const TERM: nat := 16

  type Path = seq<nat>

  /** Hash nodes are replaced by what they resolve to. */
  datatype Node =
    | Nil
    | Value(v: nat)
    | Short(key: Path, val: Node)
    | Full(children: seq<Node>)

  datatype Visit = Visit(path: Path, node: Node)

  function HasTerm(p: Path): bool {
    |p| > 0 && p[|p| - 1] == TERM
  }

  predicate Nibbles(p: Path) {
    forall i :: 0 <= i < |p| ==> p[i] < TERM
  }

  /** Sixteen children and a value slot; a short node's key ends in the terminator
      exactly when it leads to a value. */
  predicate WellFormed(n: Node) {
    match n
    case Nil => false
    case Value(_) => true
    case Short(key, val) =>
      && key != [] && WellFormed(val) && Nibbles(key[..|key| - 1])
      && (if val.Value? then key[|key| - 1] == TERM else key[|key| - 1] < TERM)
    case Full(children) =>
      && |children| == 17 && (children[16].Nil? || children[16].Value?)
      && forall i :: 0 <= i < 16 ==> children[i].Nil? || (WellFormed(children[i]) && !children[i].Value?)
  }

  // ----- the order of a full node's slots: the value first, then 0 to 15 -----

  function NextChildIndex(i: int): int {
    if i == -1 then 16 else if i == 15 then 17 else if i == 16 then 0 else i + 1
  }

  function PrevChildIndex(i: int): int {
    if i == 0 then 16 else if i == 16 then -1 else if i == 17 then 15 else i - 1
  }

  predicate SlotIndex(i: int) {
    -1 <= i <= 16
  }

  function SlotsLeft(i: int): nat {
    if i == -1 then 17 else if i == 16 then 16 else if 0 <= i < 16 then 15 - i else 0
  }

  // ----- the walk -----

  /** A node, then everything below it. */
  function PreOrder(n: Node, path: Path): seq<Visit>
    requires WellFormed(n)
    decreases n, 19
  {
    [Visit(path, n)] + Rest(n, path, -1)
  }

  /** What is below a node whose slots up to i have been walked. */
  function Rest(n: Node, path: Path, i: int): seq<Visit>
    requires WellFormed(n) && SlotIndex(i)
    decreases n, SlotsLeft(i)
  {
    match n
    case Nil => []
    case Value(_) => []
    case Short(key, val) => if i < 0 then PreOrder(val, path + key) else []
    case Full(children) =>
      var j := NextChildIndex(i);
      if j == 17 then [] else Sub(n, path, j) + Rest(n, path, j)
  }

  function Sub(n: Node, path: Path, j: int): seq<Visit>
    requires n.Full? && WellFormed(n) && 0 <= j < 17
    decreases n, 0
  {
    if n.children[j].Nil? then [] else PreOrder(n.children[j], path + [j])
  }

  // ----- path order -----

  /** bytes.Compare(a, b) < 0. */
  predicate Less(a: Path, b: Path) {
    if b == [] then false
    else if a == [] then true
    else a[0] < b[0] || (a[0] == b[0] && Less(a[1..], b[1..]))
  }

  function Trunc(p: Path): Path {
    if HasTerm(p) then p[..|p| - 1] else p
  }

  predicate ReachedPath(p: Path, target: Path) {
    !Less(Trunc(p), target)
  }

  /** The suffix that starts at the first visit that reached the target. */
  function FromTarget(vs: seq<Visit>, target: Path): seq<Visit> {
    if vs == [] || ReachedPath(vs[0].path, target) then vs else FromTarget(vs[1..], target)
  }

  predicate NoneReached(vs: seq<Visit>, target: Path) {
    forall i :: 0 <= i < |vs| ==> !ReachedPath(vs[i].path, target)
  }

  lemma {:induction false} DropUnreached(a: seq<Visit>, b: seq<Visit>, target: Path)
    requires NoneReached(a, target)
    ensures FromTarget(a + b, target) == FromTarget(b, target)
  {
    if a == [] {
      assert a + b == b;
    } else {
      assert (a + b)[1..] == a[1..] + b;
      DropUnreached(a[1..], b, target);
    }
  }

  lemma {:induction false} LessPrefix(p: Path, a: Path, b: Path)
    ensures Less(p + a, p + b) == Less(a, b)
  {
    if p == [] {
      assert p + a == a && p + b == b;
    } else {
      assert (p + a)[1..] == p[1..] + a && (p + b)[1..] == p[1..] + b;
      LessPrefix(p[1..], a, b);
    }
  }

  lemma {:induction false} LessTransitive(a: Path, b: Path, c: Path)
    requires !Less(b, a) && Less(b, c)
    ensures Less(a, c)
  {
    if a != [] && b != [] && a[0] == b[0] && b[0] == c[0] {
      LessTransitive(a[1..], b[1..], c[1..]);
    }
  }

  /** Below a path that is smaller than the target and no prefix of it, all is smaller. */
  lemma {:induction false} BelowUnreached(p: Path, s: Path, target: Path)
    requires Less(p, target) && !(p <= target)
    ensures Less(p + s, target)
  {
    if p[0] == target[0] {
      assert (p + s)[1..] == p[1..] + s;
      BelowUnreached(p[1..], s, target[1..]);
    }
  }

  // ----- where a walk's paths lie -----

  lemma {:induction false} TruncBelow(p: Path, s: Path)
    requires Nibbles(p)
    ensures p <= Trunc(p + s)
  {
    if s == [] {
      assert p + s == p;
    }
  }

  ghost predicate AllBelow(vs: seq<Visit>, p: Path) {
    forall i :: 0 <= i < |vs| ==> p <= vs[i].path && p <= Trunc(vs[i].path)
  }

  /** Every path of a walk from a proper path p extends p. */
  lemma {:induction false} PreOrderBelow(n: Node, p: Path)
    requires WellFormed(n) && !n.Value? && Nibbles(p)
    ensures AllBelow(PreOrder(n, p), p)
    decreases n, 19
  {
    RestBelow(n, p, -1);
    TruncBelow(p, []);
    assert p + [] == p;
  }

  lemma {:induction false} RestBelow(n: Node, p: Path, i: int)
    requires WellFormed(n) && !n.Value? && Nibbles(p) && SlotIndex(i)
    ensures AllBelow(Rest(n, p, i), p)
    decreases n, SlotsLeft(i)
  {
    match n {
      case Short(key, val) =>
        if i < 0 { StepBelow(val, p, key); }
      case Full(children) =>
        var j := NextChildIndex(i);
        if j != 17 {
          if !children[j].Nil? { StepBelow(children[j], p, [j]); }
          RestBelow(n, p, j);
        }
    }
  }

  /** One step down, over a key that ends in the terminator exactly at a value. */
  lemma {:induction false} StepBelow(n: Node, p: Path, key: Path)
    requires WellFormed(n) && Nibbles(p) && key != [] && Nibbles(key[..|key| - 1])
    requires if n.Value? then key[|key| - 1] == TERM else key[|key| - 1] < TERM
    ensures AllBelow(PreOrder(n, p + key), p)
    decreases n, 20
  {
    TruncBelow(p, key);
    if n.Value? {
      assert PreOrder(n, p + key) == [Visit(p + key, n)];
    } else {
      assert Nibbles(key) && Nibbles(p + key);
      PreOrderBelow(n, p + key);
      var vs := PreOrder(n, p + key);
      forall i | 0 <= i < |vs| ensures p <= vs[i].path && p <= Trunc(vs[i].path) {
        assert p + key <= vs[i].path && p + key <= Trunc(vs[i].path);
        assert p <= p + key;
      }
    }
  }

  // ----- the walk is sorted -----

  /** Paths never decrease, terminators apart. */
  ghost predicate Sorted(vs: seq<Visit>) {
    forall i, j :: 0 <= i < j < |vs| ==> !Less(Trunc(vs[j].path), Trunc(vs[i].path))
  }

  ghost predicate NeverBefore(a: seq<Visit>, b: seq<Visit>) {
    forall i, j :: 0 <= i < |a| && 0 <= j < |b| ==> !Less(Trunc(b[j].path), Trunc(a[i].path))
  }

  lemma SortedConcat(a: seq<Visit>, b: seq<Visit>)
    requires Sorted(a) && Sorted(b) && NeverBefore(a, b)
    ensures Sorted(a + b)
  {
    forall i, j | 0 <= i < j < |a + b|
      ensures !Less(Trunc((a + b)[j].path), Trunc((a + b)[i].path))
    {
      if i < |a| <= j {
        assert (a + b)[i] == a[i] && (a + b)[j] == b[j - |a|];
      }
    }
  }

  /** Every path leaves p through a slot from lo on. */
  ghost predicate AllFrom(vs: seq<Visit>, p: Path, lo: int) {
    forall i :: 0 <= i < |vs| ==> p < Trunc(vs[i].path) && Trunc(vs[i].path)[|p|] >= lo
  }

  lemma {:induction false} SubFrom(n: Node, p: Path, j: nat)
    requires n.Full? && WellFormed(n) && Nibbles(p) && j < 16
    ensures AllFrom(Sub(n, p, j), p, j)
    ensures forall i :: 0 <= i < |Sub(n, p, j)| ==> Trunc(Sub(n, p, j)[i].path)[|p|] == j
  {
    if !n.children[j].Nil? {
      PreOrderBelow(n.children[j], p + [j]);
      var vs := Sub(n, p, j);
      forall i | 0 <= i < |vs| ensures p < Trunc(vs[i].path) && Trunc(vs[i].path)[|p|] == j {
        assert p + [j] <= Trunc(vs[i].path);
        assert (p + [j])[|p|] == j;
      }
    }
  }

  lemma {:induction false} RestFrom(n: Node, p: Path, i: nat)
    requires n.Full? && WellFormed(n) && Nibbles(p) && i < 16
    ensures AllFrom(Rest(n, p, i), p, i + 1)
    decreases 16 - i
  {
    if i < 15 {
      SubFrom(n, p, i + 1);
      RestFrom(n, p, i + 1);
    }
  }

  lemma FromNeverBefore(a: seq<Visit>, b: seq<Visit>, p: Path, j: int)
    requires forall i :: 0 <= i < |a| ==> p < Trunc(a[i].path) && Trunc(a[i].path)[|p|] == j
    requires AllFrom(b, p, j + 1)
    ensures NeverBefore(a, b)
  {
    forall i, k | 0 <= i < |a| && 0 <= k < |b| ensures !Less(Trunc(b[k].path), Trunc(a[i].path)) {
      var x, y := Trunc(a[i].path), Trunc(b[k].path);
      assert x == p + x[|p|..] && y == p + y[|p|..];
      LessPrefix(p, y[|p|..], x[|p|..]);
    }
  }

  lemma {:induction false} NotLessPrefix(p: Path, x: Path)
    requires p <= x
    ensures !Less(x, p)
  {
    if p != [] { NotLessPrefix(p[1..], x[1..]); }
  }

  lemma BelowNeverBefore(v: Visit, b: seq<Visit>, p: Path)
    requires Trunc(v.path) == p && AllBelow(b, p)
    ensures NeverBefore([v], b)
  {
    forall k | 0 <= k < |b| ensures !Less(Trunc(b[k].path), p) {
      NotLessPrefix(p, Trunc(b[k].path));
    }
  }

  lemma {:induction false} PreOrderSorted(n: Node, p: Path)
    requires WellFormed(n) && (n.Value? || Nibbles(p))
    ensures Sorted(PreOrder(n, p))
    decreases n, 19
  {
    if !n.Value? {
      RestBelow(n, p, -1);
      RestSorted(n, p, -1);
      assert Trunc(p) == p;
      BelowNeverBefore(Visit(p, n), Rest(n, p, -1), p);
      SortedConcat([Visit(p, n)], Rest(n, p, -1));
    }
  }

  lemma {:induction false} RestSorted(n: Node, p: Path, i: int)
    requires WellFormed(n) && !n.Value? && Nibbles(p) && SlotIndex(i)
    ensures Sorted(Rest(n, p, i))
    decreases n, SlotsLeft(i)
  {
    match n {
      case Short(key, val) =>
        if i < 0 { PreOrderSorted(val, p + key); }
      case Full(children) =>
        var j := NextChildIndex(i);
        if j != 17 {
          RestSorted(n, p, j);
          if !children[j].Nil? {
            PreOrderSorted(children[j], p + [j]);
            if j == 16 {
              RestBelow(n, p, 16);
              assert Trunc(p + [16]) == p;
              assert Rest(children[16], p + [16], -1) == [];
              assert PreOrder(children[16], p + [16]) == [Visit(p + [16], children[16])];
              BelowNeverBefore(Visit(p + [16], children[16]), Rest(n, p, 16), p);
            } else {
              SubFrom(n, p, j);
              RestFrom(n, p, j);
              FromNeverBefore(Sub(n, p, j), Rest(n, p, j), p, j);
            }
            SortedConcat(Sub(n, p, j), Rest(n, p, j));
          }
        }
    }
  }

  /** In a sorted walk, the suffix from the first visit that reached the target holds
      exactly the visits that reached it. */
  lemma {:induction false} FromTargetExact(vs: seq<Visit>, target: Path)
    requires Sorted(vs)
    ensures var k := |vs| - |FromTarget(vs, target)|;
            && 0 <= k <= |vs| && FromTarget(vs, target) == vs[k..]
            && forall i :: 0 <= i < |vs| ==> (ReachedPath(vs[i].path, target) <==> i >= k)
  {
    if vs != [] {
      if ReachedPath(vs[0].path, target) {
        forall i | 0 < i < |vs| ensures ReachedPath(vs[i].path, target) {
          if Less(Trunc(vs[i].path), target) {
            LessTransitive(Trunc(vs[0].path), Trunc(vs[i].path), target);
          }
        }
      } else {
        FromTargetExact(vs[1..], target);
      }
    }
  }

  // ----- every node once -----

  ghost predicate DistinctPaths(vs: seq<Visit>) {
    forall i, j :: 0 <= i < j < |vs| ==> vs[i].path != vs[j].path
  }

  /** Every path of a walk from `p` starts with `p`. */
  ghost predicate AllStart(vs: seq<Visit>, p: Path) {
    forall i :: 0 <= i < |vs| ==> p <= vs[i].path
  }

  /** Slot `s` comes after slot `i` in a full node. */
  predicate SlotAfter(i: int, s: nat) {
    s <= 16 && (i == -1 || (s < 16 && (i == 16 || i < s)))
  }

  /** Every path leaves `p` through a slot after `i`. */
  ghost predicate AllAfter(vs: seq<Visit>, p: Path, i: int) {
    forall k :: 0 <= k < |vs| ==> p < vs[k].path && SlotAfter(i, vs[k].path[|p|])
  }

  lemma {:induction false} PreOrderStarts(n: Node, p: Path)
    requires WellFormed(n)
    ensures AllStart(PreOrder(n, p), p)
    decreases n, 19
  {
    RestStarts(n, p, -1);
  }

  lemma {:induction false} RestStarts(n: Node, p: Path, i: int)
    requires WellFormed(n) && SlotIndex(i)
    ensures AllStart(Rest(n, p, i), p)
    ensures n.Full? ==> AllAfter(Rest(n, p, i), p, i)
    decreases n, SlotsLeft(i)
  {
    match n {
      case Value(_) =>
      case Short(key, val) =>
        if i < 0 { PreOrderStarts(val, p + key); }
      case Full(children) =>
        var j := NextChildIndex(i);
        if j != 17 {
          RestStarts(n, p, j);
          SubStarts(n, p, j);
        }
    }
  }

  lemma {:induction false} SubStarts(n: Node, p: Path, j: nat)
    requires n.Full? && WellFormed(n) && j < 17
    ensures forall k :: 0 <= k < |Sub(n, p, j)| ==> p < Sub(n, p, j)[k].path && Sub(n, p, j)[k].path[|p|] == j
    decreases n, 0
  {
    if !n.children[j].Nil? {
      PreOrderStarts(n.children[j], p + [j]);
      var vs := Sub(n, p, j);
      forall k | 0 <= k < |vs| ensures p < vs[k].path && vs[k].path[|p|] == j {
        assert p + [j] <= vs[k].path;
        assert (p + [j])[|p|] == j;
      }
    }
  }

  /** No node of a walk is visited twice: all paths differ. */
  lemma {:induction false} PreOrderDistinct(n: Node, p: Path)
    requires WellFormed(n)
    ensures DistinctPaths(PreOrder(n, p))
    decreases n, 19
  {
    RestDistinct(n, p, -1);
    RestStarts(n, p, -1);
    if n.Short? {
      PreOrderStarts(n.val, p + n.key);
      assert forall k :: 0 <= k < |Rest(n, p, -1)| ==> p + n.key <= Rest(n, p, -1)[k].path;
    }
  }

  lemma {:induction false} RestDistinct(n: Node, p: Path, i: int)
    requires WellFormed(n) && SlotIndex(i)
    ensures DistinctPaths(Rest(n, p, i))
    decreases n, SlotsLeft(i)
  {
    match n {
      case Value(_) =>
      case Short(key, val) =>
        if i < 0 { PreOrderDistinct(val, p + key); }
      case Full(children) =>
        var j := NextChildIndex(i);
        if j != 17 {
          if !children[j].Nil? { PreOrderDistinct(children[j], p + [j]); }
          RestDistinct(n, p, j);
          SubStarts(n, p, j);
          RestStarts(n, p, j);
          var a, b := Sub(n, p, j), Rest(n, p, j);
          forall x, y | 0 <= x < |a| && 0 <= y < |b| ensures a[x].path != b[y].path {
            assert SlotAfter(j, b[y].path[|p|]);
          }
        }
    }
  }
}

/**
 * What a walk is a walk of: the nodes that a path leads to, and the pairs of key and value
 * that a lookup finds (vm/trie/trie.go).
 */
module TrieReach {
  import opened Basics
  import opened TriePreOrder

  /** From `n`, the path leads to `m`, over short keys and slots of full nodes. */
  predicate Leads(n: Node, path: Path, m: Node) {
    (path == [] && m == n) ||
    match n
    case Short(key, val) => key <= path && Leads(val, path[|key|..], m)
    case Full(children) =>
      path != [] && path[0] < |children| && !children[path[0]].Nil? && Leads(children[path[0]], path[1..], m)
    case _ => false
  }

  /** Trie.get. */
  function Get(n: Node, key: Path): Option<nat> {
    match n
    case Nil => None
    case Value(v) => Some(v)
    case Short(k, val) => if k <= key then Get(val, key[|k|..]) else None
    case Full(children) => if key != [] && key[0] < |children| then Get(children[key[0]], key[1..]) else None
  }

  /** keybytesToHex's result: nibbles and the terminator. */
  predicate LeafKey(key: Path) {
    HasTerm(key) && Nibbles(key[..|key| - 1])
  }

  // ----- the walk and the paths -----------------------------------------------------------

  /** MAIN: a walk visits a node under a path if and only if the path leads there. */
  lemma {:induction false} PreOrderExact(n: Node, p: Path, v: Visit)
    requires WellFormed(n)
    ensures v in PreOrder(n, p) <==> p <= v.path && Leads(n, v.path[|p|..], v.node)
    decreases n, 19
  {
    RestExact(n, p, -1, v);
    assert v == Visit(p, n) ==> v.path[|p|..] == [];
    assert v.path == p <==> p <= v.path && v.path[|p|..] == [];
  }

  /** The part of a walk below a node leads out through the slots that are left. */
  ghost predicate LeadsOut(n: Node, i: int, path: Path, m: Node) {
    path != [] && Leads(n, path, m) && (n.Short? ==> i < 0) && (n.Full? ==> SlotAfter(i, path[0]))
  }

  lemma {:induction false} RestExact(n: Node, p: Path, i: int, v: Visit)
    requires WellFormed(n) && SlotIndex(i)
    ensures v in Rest(n, p, i) <==> p <= v.path && LeadsOut(n, i, v.path[|p|..], v.node)
    decreases n, SlotsLeft(i)
  {
    match n {
      case Value(_) =>
      case Short(key, val) =>
        if i < 0 {
          PreOrderExact(val, p + key, v);
          Further(p, key, v.path);
        }
      case Full(children) =>
        var j := NextChildIndex(i);
        if j != 17 {
          SubExact(n, p, j, v);
          RestExact(n, p, j, v);
        }
    }
  }

  lemma {:induction false} SubExact(n: Node, p: Path, j: int, v: Visit)
    requires n.Full? && WellFormed(n) && 0 <= j < 17
    ensures v in Sub(n, p, j) <==> p < v.path && v.path[|p|] == j && Leads(n, v.path[|p|..], v.node)
    decreases n, 0
  {
    if !n.children[j].Nil? {
      PreOrderExact(n.children[j], p + [j], v);
      Further(p, [j], v.path);
    }
  }

  /** Two steps down a path are one. */
  lemma Further(p: Path, key: Path, path: Path)
    ensures p + key <= path <==> p <= path && key <= path[|p|..]
    ensures p + key <= path ==> path[|p|..][|key|..] == path[|p + key|..]
  {
    if p <= path && key <= path[|p|..] {
      assert path == p + path[|p|..];
      assert p + key <= path;
    }
    if p + key <= path {
      assert p <= path && key == path[|p|..][..|key|];
    }
  }

  // ----- the leaves and the lookup --------------------------------------------------------

  /** Values lie exactly at the ends of terminated paths. */
  lemma {:induction false} LeavesTerminate(n: Node, path: Path, m: Node)
    requires WellFormed(n) && Leads(n, path, m) && (path != [] || !n.Value?)
    ensures WellFormed(m) && (m.Value? <==> HasTerm(path)) && (if m.Value? then LeafKey(path) else Nibbles(path))
    decreases n, 0
  {
    match n {
      case Short(key, val) =>
        if path != [] {
          StepTerminates(val, path, |key|, m);
          assert path[..|key|] == key;
        }
      case Full(children) =>
        if path != [] { StepTerminates(children[path[0]], path, 1, m); }
      case _ =>
    }
  }

  lemma {:induction false} StepTerminates(n: Node, path: Path, k: nat, m: Node)
    requires 0 < k <= |path| && WellFormed(n) && Leads(n, path[k..], m)
    requires Nibbles(path[..k - 1]) && if n.Value? then path[k - 1] == TERM else path[k - 1] < TERM
    ensures WellFormed(m) && (m.Value? <==> HasTerm(path)) && (if m.Value? then LeafKey(path) else Nibbles(path))
    decreases n, 1
  {
    if path[k..] == [] {
      assert path[..k] == path;
    } else {
      assert !n.Value?;
      LeavesTerminate(n, path[k..], m);
      assert path == path[..k - 1] + [path[k - 1]] + path[k..];
      if m.Value? { assert path[..|path| - 1] == path[..k - 1] + [path[k - 1]] + path[k..][..|path| - k - 1]; }
    }
  }

  /** A lookup of a key finds the value that the key leads to, and nothing else. */
  lemma {:induction false} GetIffLeads(n: Node, key: Path, v: nat)
    requires WellFormed(n) && (if n.Value? then key == [] else LeafKey(key))
    ensures Get(n, key) == Some(v) <==> Leads(n, key, Value(v))
    decreases n
  {
    match n {
      case Value(_) =>
      case Short(k, val) =>
        if k <= key {
          RestOfKey(key, |k|);
          if val.Value? == (key[|k|..] == []) { GetIffLeads(val, key[|k|..], v); }
        }
      case Full(children) =>
        RestOfKey(key, 1);
        var child := children[key[0]];
        if !child.Nil? { GetIffLeads(child, key[1..], v); }
    }
  }

  lemma RestOfKey(key: Path, k: nat)
    requires LeafKey(key) && 0 < k <= |key|
    ensures key[k - 1] == TERM <==> k == |key|
    ensures k < |key| ==> LeafKey(key[k..])
  {
    if k < |key| {
      assert key[..|key| - 1][k - 1] < TERM;
      assert key[k..][..|key| - k - 1] == key[..|key| - 1][k..];
    }
  }

  /** MAIN: the leaves of a walk are the pairs of key and value that lookups find. */
  lemma LeavesAreEntries(trie: Node, key: Path, v: nat)
    requires WellFormed(trie) && !trie.Value? && LeafKey(key)
    ensures Visit(key, Value(v)) in PreOrder(trie, []) <==> Get(trie, key) == Some(v)
  {
    PreOrderExact(trie, [], Visit(key, Value(v)));
    assert key[0..] == key;
    GetIffLeads(trie, key, v);
  }
}

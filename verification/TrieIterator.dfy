/** nodeIterator: an explicit stack, the current path and a child index per frame
    (vm/trie/iterator.go:284-556), proved to walk the trie in pre-order. */
module TrieIterator {
  import opened Basics
  import opened TriePreOrder
  import opened TrieReach

  datatype Frame = Frame(node: Node, index: int, pathLen: nat)

  /** The child that peek found, not pushed yet. */
  datatype Peeked = End | Child(node: Node, pathLen: nat, path: Path, hasParent: bool)

  ghost predicate StackOk(stack: seq<Frame>, path: Path)
    decreases |stack|
  {
    stack != [] ==>
      var top := stack[|stack| - 1];
      && WellFormed(top.node) && SlotIndex(top.index) && (top.node.Value? || Nibbles(path))
      && top.pathLen <= |path| && StackOk(stack[..|stack| - 1], path[..top.pathLen])
  }

  /** What the frames still have to yield, innermost first. */
  ghost function Remaining(stack: seq<Frame>, path: Path): seq<Visit>
    requires StackOk(stack, path)
    decreases |stack|
  {
    if stack == [] then []
    else
      var top := stack[|stack| - 1];
      Rest(top.node, path, top.index) + Remaining(stack[..|stack| - 1], path[..top.pathLen])
  }

  /** Opening a stack at its top. */
  lemma TopFrame(below: seq<Frame>, f: Frame, path: Path)
    requires WellFormed(f.node) && SlotIndex(f.index) && (f.node.Value? || Nibbles(path))
    requires f.pathLen <= |path| && StackOk(below, path[..f.pathLen])
    ensures StackOk(below + [f], path)
    ensures Remaining(below + [f], path) == Rest(f.node, path, f.index) + Remaining(below, path[..f.pathLen])
  {
    assert (below + [f])[..|below|] == below;
  }

  lemma Assoc(a: seq<Visit>, b: seq<Visit>, c: seq<Visit>)
    ensures (a + b) + c == a + (b + c)
  {
  }

  lemma SkipPrefix(a: seq<Visit>, b: seq<Visit>, c: seq<Visit>, target: Path)
    requires NoneReached(a, target)
    ensures FromTarget((a + b) + c, target) == FromTarget(b + c, target)
  {
    Assoc(a, b, c);
    DropUnreached(a, b + c, target);
  }

  // ----- finding children -----

  function FirstChild(children: seq<Node>, i: int): (j: int)
    requires |children| == 17 && 0 <= i <= 17
    ensures 0 <= j <= 17 && (j < 17 ==> !children[j].Nil?) && (i < 16 ==> i <= j != 16)
    decreases if i == 17 then 0 else SlotsLeft(i) + 1
  {
    if i == 17 || !children[i].Nil? then i else FirstChild(children, NextChildIndex(i))
  }

  /** Skipping empty slots skips nothing of the walk. */
  lemma {:induction false} RestFromChild(n: Node, path: Path, i: int)
    requires n.Full? && WellFormed(n) && SlotIndex(i)
    ensures var j := FirstChild(n.children, NextChildIndex(i));
            if j == 17 then Rest(n, path, i) == []
            else && SlotIndex(PrevChildIndex(j))
                 && Rest(n, path, i) == Rest(n, path, PrevChildIndex(j))
                 && Rest(n, path, i) == PreOrder(n.children[j], path + [j]) + Rest(n, path, j)
    decreases SlotsLeft(i)
  {
    var j := NextChildIndex(i);
    if j != 17 && n.children[j].Nil? {
      RestFromChild(n, path, j);
    }
  }

  /** c is the next thing to walk: the root, or a child of the innermost frame, whose
      index stands just before it. */
  ghost predicate IsNext(c: Peeked, root: Node, stack: seq<Frame>, path: Path)
    requires StackOk(stack, path) && WellFormed(root)
  {
    && c.Child? && WellFormed(c.node) && (c.node.Value? || Nibbles(c.path))
    && if !c.hasParent then stack == [] && c == Child(root, 0, [], false)
       else
         && stack != [] && c.pathLen == |path| && path <= c.path
         && var top := stack[|stack| - 1];
            && SlotIndex(NextChildIndex(top.index))
            && Rest(top.node, path, top.index)
               == PreOrder(c.node, c.path) + Rest(top.node, path, NextChildIndex(top.index))
  }

  /** With the index just before child j of a full node, that child is next. */
  lemma FullChildNext(below: seq<Frame>, f: Frame, path: Path, j: int, root: Node)
    requires f.node.Full? && WellFormed(f.node) && Nibbles(path) && WellFormed(root)
    requires f.pathLen <= |path| && StackOk(below, path[..f.pathLen])
    requires 0 <= j < 17 && !f.node.children[j].Nil?
    ensures var st := below + [f.(index := PrevChildIndex(j))];
            && StackOk(st, path)
            && IsNext(Child(f.node.children[j], |path|, path + [j], true), root, st, path)
            && Remaining(st, path) == Rest(f.node, path, PrevChildIndex(j)) + Remaining(below, path[..f.pathLen])
  {
    TopFrame(below, f.(index := PrevChildIndex(j)), path);
    assert NextChildIndex(PrevChildIndex(j)) == j;
    assert Rest(f.node, path, PrevChildIndex(j)) == Sub(f.node, path, j) + Rest(f.node, path, j);
  }

  /** The stack after push. */
  function Pushed(c: Peeked, stack: seq<Frame>): seq<Frame>
    requires c.Child? && (c.hasParent ==> stack != [])
  {
    var n := |stack| - 1;
    (if c.hasParent then stack[..n] + [stack[n].(index := NextChildIndex(stack[n].index))] else stack)
    + [Frame(c.node, -1, c.pathLen)]
  }

  lemma PushedYields(c: Peeked, root: Node, stack: seq<Frame>, path: Path)
    requires StackOk(stack, path) && WellFormed(root) && IsNext(c, root, stack, path)
    ensures StackOk(Pushed(c, stack), c.path)
    ensures (if c.hasParent then Remaining(stack, path) else PreOrder(root, []))
            == [Visit(c.path, c.node)] + Remaining(Pushed(c, stack), c.path)
  {
    var f := Frame(c.node, -1, c.pathLen);
    assert c.path[..c.pathLen] == if c.hasParent then path else [];
    if c.hasParent {
      var m := |stack| - 1;
      var below, top := stack[..m], stack[m].(index := NextChildIndex(stack[m].index));
      TopFrame(below, top, path);
      TopFrame(below + [top], f, c.path);
      var rest, tail := Rest(top.node, path, top.index), Remaining(below, path[..top.pathLen]);
      Assoc(PreOrder(c.node, c.path), rest, tail);
      Assoc([Visit(c.path, c.node)], Rest(c.node, c.path, -1), rest + tail);
    } else {
      TopFrame([], f, c.path);
      assert [] + [f] == [f];
      assert Rest(c.node, c.path, -1) + [] == Rest(c.node, c.path, -1);
    }
  }

  // ----- what seek may skip -----

  lemma AllSmaller(vs: seq<Visit>, p: Path, target: Path)
    requires AllBelow(vs, p) && Less(p, target) && !(p <= target)
    ensures NoneReached(vs, target)
  {
    forall i | 0 <= i < |vs| ensures !ReachedPath(vs[i].path, target) {
      var t := Trunc(vs[i].path);
      assert t == p + t[|p|..];
      BelowUnreached(p, t[|p|..], target);
    }
  }

  /** The children of a node that lies before the target, off its path. */
  lemma ChildrenUnreached(n: Node, path: Path, i: int, target: Path)
    requires WellFormed(n) && SlotIndex(i) && (n.Value? || Nibbles(path)) && Nibbles(target)
    requires !ReachedPath(path, target) && !(path <= target)
    ensures NoneReached(Rest(n, path, i), target)
  {
    if !n.Value? {
      assert Trunc(path) == path;
      RestBelow(n, path, i);
      AllSmaller(Rest(n, path, i), path, target);
    }
  }

  lemma SiblingOffPath(path: Path, j: nat, k: nat, target: Path)
    requires j < k && Less(path + [k], target)
    ensures !(path + [j] <= target)
  {
    if path + [j] <= target {
      assert target == path + target[|path|..];
      LessPrefix(path, [k], target[|path|..]);
    }
  }

  /** A child whose next sibling is still before the target. */
  lemma SiblingUnreached(n: Node, path: Path, j: int, target: Path)
    requires n.Full? && WellFormed(n) && Nibbles(path) && 0 <= j < 17 && !n.children[j].Nil?
    requires var k := FirstChild(n.children, NextChildIndex(j));
             k < 17 && !ReachedPath(path + [j], target) && !ReachedPath(path + [k], target)
    ensures NoneReached(Sub(n, path, j), target)
  {
    if j == 16 {
      assert Rest(n.children[16], path + [16], -1) == [];
      assert Sub(n, path, j) == [Visit(path + [16], n.children[16])];
    } else {
      var k := FirstChild(n.children, NextChildIndex(j));
      var q := path + [j];
      assert j < k < 16;
      assert Trunc(q) == q && Trunc(path + [k]) == path + [k];
      SiblingOffPath(path, j, k, target);
      PreOrderBelow(n.children[j], q);
      AllSmaller(Sub(n, path, j), q, target);
    }
  }

  lemma SkipSibling(n: Node, path: Path, j: int, tail: seq<Visit>, target: Path)
    requires n.Full? && WellFormed(n) && Nibbles(path) && 0 <= j < 17 && !n.children[j].Nil?
    requires var k := FirstChild(n.children, NextChildIndex(j));
             k < 17 && !ReachedPath(path + [j], target) && !ReachedPath(path + [k], target)
    ensures var k := FirstChild(n.children, NextChildIndex(j));
            && SlotsLeft(k) < SlotsLeft(j)
            && |Rest(n, path, PrevChildIndex(k))| <= |Rest(n, path, PrevChildIndex(j))|
            && FromTarget(Rest(n, path, PrevChildIndex(k)) + tail, target)
               == FromTarget(Rest(n, path, PrevChildIndex(j)) + tail, target)
  {
    SiblingUnreached(n, path, j, target);
    RestFromChild(n, path, j);
    assert NextChildIndex(PrevChildIndex(j)) == j;
    SkipPrefix(Sub(n, path, j), Rest(n, path, j), tail, target);
  }

  class NodeIterator {
    const root: Node
    var stack: seq<Frame>
    var path: Path
    var ended: bool

    ghost predicate Valid()
      reads this
    {
      && (if root.Nil? then ended else WellFormed(root) && !root.Value?)
      && StackOk(stack, path)
      && (ended ==> stack == [])
    }

    /** What the iterator will still yield. */
    ghost function Rem(): seq<Visit>
      requires Valid()
      reads this
    {
      if ended then [] else if stack == [] then PreOrder(root, []) else Remaining(stack, path)
    }

    method FindChild(children: seq<Node>, start: int) returns (index: int)
      requires |children| == 17 && 0 <= start <= 17
      ensures index == FirstChild(children, start)
    {
      index := start;
      while index < 17
        invariant 0 <= index <= 17 && FirstChild(children, index) == FirstChild(children, start)
        decreases if index == 17 then 0 else SlotsLeft(index) + 1
      {
        if !children[index].Nil? { return; }
        index := NextChildIndex(index);
      }
    }

    /** The frame's next child; the index is left just before it. */
    method NextChild() returns (c: Peeked)
      requires Valid() && stack != []
      modifies this`stack
      ensures Valid() && |stack| == |old(stack)| && Remaining(stack, path) == old(Remaining(stack, path))
      ensures c.Child? ==> c.hasParent && IsNext(c, root, stack, path)
      ensures c.End? ==> stack == old(stack) && Rest(stack[|stack| - 1].node, path, stack[|stack| - 1].index) == []
    {
      var n := |stack| - 1;
      var top := stack[n];
      if top.node.Full? {
        RestFromChild(top.node, path, top.index);
        var j := FindChild(top.node.children, NextChildIndex(top.index));
        if j == 17 { return End; }
        FullChildNext(stack[..n], top, path, j, root);
        stack := stack[..n] + [top.(index := PrevChildIndex(j))];
        c := Child(top.node.children[j], |path|, path + [j], true);
      } else if top.node.Short? && top.index < 0 {
        assert top.index == -1;
        assert Rest(top.node, path, 16) == [];
        assert PreOrder(top.node.val, path + top.node.key) + [] == PreOrder(top.node.val, path + top.node.key);
        c := Child(top.node.val, |path|, path + top.node.key, true);
        assert !c.node.Value? ==> Nibbles(top.node.key);
      } else {
        c := End;
      }
    }

    method Pop()
      requires Valid() && stack != []
      modifies this`stack, this`path
      ensures var n := |old(stack)| - 1;
              stack == old(stack)[..n] && path == old(path)[..old(stack)[n].pathLen] && Valid()
    {
      var last := stack[|stack| - 1];
      path := path[..last.pathLen];
      stack := stack[..|stack| - 1];
    }

    method Push(c: Peeked)
      requires Valid() && !ended && IsNext(c, root, stack, path)
      modifies this`stack, this`path
      ensures Valid() && stack != [] && old(Rem()) == [Visit(c.path, c.node)] + Rem()
      ensures path == c.path && stack[|stack| - 1].node == c.node
    {
      PushedYields(c, root, stack, path);
      path := c.path;
      if c.hasParent {
        var n := |stack| - 1;
        stack := stack[..n] + [stack[n].(index := NextChildIndex(stack[n].index))];
      }
      stack := stack + [Frame(c.node, -1, c.pathLen)];
      assert stack == Pushed(c, old(stack));
    }

    /** What is left once the current node's subtree is skipped. */
    ghost function Beside(): seq<Visit>
      requires Valid()
      reads this
    {
      if stack == [] then Rem() else Remaining(stack[..|stack| - 1], path[..stack[|stack| - 1].pathLen])
    }

    method Peek(descend: bool) returns (c: Peeked)
      requires Valid() && !ended
      modifies this`stack, this`path
      ensures Valid()
      ensures var rest := if descend then old(Rem()) else old(Beside());
              if c.End? then rest == [] && stack == []
              else IsNext(c, root, stack, path) && Rem() == rest
    {
      if stack == [] { return Child(root, 0, [], false); }
      if !descend { Pop(); }
      ghost var rest := Remaining(stack, path);
      while stack != []
        invariant Valid() && Remaining(stack, path) == rest
        decreases |stack|
      {
        c := NextChild();
        if c.Child? { return; }
        Pop();
      }
      c := End;
    }

    /** MAIN: each call yields the next node of the pre-order walk, or, with descend off,
        the next node beside the current one's subtree. */
    method Next(descend: bool) returns (ok: bool)
      requires Valid()
      modifies this
      ensures Valid()
      ensures var rest := if descend || old(ended) then old(Rem()) else old(Beside());
              && (ok <==> rest != [])
              && (ok ==> stack != [] && rest == [Visit(path, stack[|stack| - 1].node)] + Rem())
              && (!ok ==> Rem() == [])
    {
      if ended { return false; }
      ghost var rest := if descend then Rem() else Beside();
      var c := Peek(descend);
      if c.End? {
        ended := true;
        return false;
      }
      assert Rem() == rest;
      Push(c);
      assert rest == [Visit(path, stack[|stack| - 1].node)] + Rem();
      return true;
    }

    /** The last child before the target, or the first child if it reached the target. */
    method ClosestChild(n: Node, start: int, key: Path, ghost tail: seq<Visit>) returns (index: int)
      requires n.Full? && WellFormed(n) && Nibbles(path) && Nibbles(key)
      requires 0 <= start < 17 && !n.children[start].Nil?
      ensures 0 <= index < 17 && !n.children[index].Nil?
      ensures |Rest(n, path, PrevChildIndex(index))| <= |Rest(n, path, PrevChildIndex(start))|
      ensures FromTarget(Rest(n, path, PrevChildIndex(index)) + tail, key)
           == FromTarget(Rest(n, path, PrevChildIndex(start)) + tail, key)
    {
      index := start;
      if ReachedPath(path + [index], key) { return; }
      var next := FindChild(n.children, NextChildIndex(index));
      while next < 17 && !ReachedPath(path + [next], key)
        invariant 0 <= index < 17 && !n.children[index].Nil? && !ReachedPath(path + [index], key)
        invariant next == FirstChild(n.children, NextChildIndex(index))
        invariant |Rest(n, path, PrevChildIndex(index))| <= |Rest(n, path, PrevChildIndex(start))|
        invariant FromTarget(Rest(n, path, PrevChildIndex(index)) + tail, key)
               == FromTarget(Rest(n, path, PrevChildIndex(start)) + tail, key)
        decreases SlotsLeft(index)
      {
        SkipSibling(n, path, index, tail, key);
        index := next;
        next := FindChild(n.children, NextChildIndex(index));
      }
    }

    /** Like NextChild, but passes over children that end before the target. */
    method NextChildAt(key: Path) returns (c: Peeked)
      requires Valid() && stack != [] && Nibbles(key)
      modifies this`stack
      ensures Valid() && |stack| == |old(stack)| && |Remaining(stack, path)| <= |old(Remaining(stack, path))|
      ensures FromTarget(Remaining(stack, path), key) == FromTarget(old(Remaining(stack, path)), key)
      ensures c.Child? ==> c.hasParent && IsNext(c, root, stack, path)
      ensures c.End? ==> stack == old(stack) && Rest(stack[|stack| - 1].node, path, stack[|stack| - 1].index) == []
    {
      if stack[|stack| - 1].node.Full? {
        c := FullChildAt(key);
      } else {
        c := NextChild();
      }
    }

    /** The full node's case. */
    method FullChildAt(key: Path) returns (c: Peeked)
      requires Valid() && stack != [] && Nibbles(key) && stack[|stack| - 1].node.Full?
      modifies this`stack
      ensures Valid() && |stack| == |old(stack)| && |Remaining(stack, path)| <= |old(Remaining(stack, path))|
      ensures FromTarget(Remaining(stack, path), key) == FromTarget(old(Remaining(stack, path)), key)
      ensures c.Child? ==> c.hasParent && IsNext(c, root, stack, path)
      ensures c.End? ==> stack == old(stack) && Rest(stack[|stack| - 1].node, path, stack[|stack| - 1].index) == []
    {
      var n := |stack| - 1;
      var top := stack[n];
      RestFromChild(top.node, path, top.index);
      var start := FindChild(top.node.children, NextChildIndex(top.index));
      if start == 17 { return End; }
      var index := ClosestChild(top.node, start, key, Remaining(stack[..n], path[..top.pathLen]));
      FullChildNext(stack[..n], top, path, index, root);
      stack := stack[..n] + [top.(index := PrevChildIndex(index))];
      c := Child(top.node.children[index], |path|, path + [index], true);
    }

    method PeekSeek(key: Path) returns (c: Peeked)
      requires Valid() && !ended && Nibbles(key) && (stack != [] ==> !ReachedPath(path, key))
      modifies this`stack, this`path
      ensures Valid()
      ensures if c.End? then FromTarget(old(Rem()), key) == [] && stack == []
              else && IsNext(c, root, stack, path) && |Rem()| <= |old(Rem())|
                   && FromTarget(Rem(), key) == FromTarget(old(Rem()), key)
    {
      if stack == [] { return Child(root, 0, [], false); }
      ghost var rest := Remaining(stack, path);
      if !(path <= key) {
        var top := stack[|stack| - 1];
        ChildrenUnreached(top.node, path, top.index, key);
        DropUnreached(Rest(top.node, path, top.index), Remaining(stack[..|stack| - 1], path[..top.pathLen]), key);
        Pop();
      }
      while stack != []
        invariant Valid() && |Remaining(stack, path)| <= |rest|
        invariant FromTarget(Remaining(stack, path), key) == FromTarget(rest, key)
        decreases |stack|
      {
        c := NextChildAt(key);
        if c.Child? { return; }
        ghost var top := stack[|stack| - 1];
        assert Rest(top.node, path, top.index) == [];
        assert [] + Remaining(stack[..|stack| - 1], path[..top.pathLen])
            == Remaining(stack[..|stack| - 1], path[..top.pathLen]);
        Pop();
      }
      c := End;
    }

    /** MAIN: seek leaves exactly the part of the walk from the first node at or past the key. */
    method Seek(key: Path)
      requires Valid() && !ended && Nibbles(key) && stack == []
      modifies this
      ensures Valid() && Rem() == FromTarget(old(Rem()), key)
    {
      while true
        invariant Valid() && !ended && (stack != [] ==> !ReachedPath(path, key))
        invariant FromTarget(Rem(), key) == FromTarget(old(Rem()), key)
        decreases |Rem()|
      {
        var c := PeekSeek(key);
        if c.End? {
          ended := true;
          return;
        }
        if ReachedPath(c.path, key) {
          PushedYields(c, root, stack, path);
          return;
        }
        Push(c);
        DropUnreached([Visit(c.path, c.node)], Rem(), key);
      }
    }

    /** newNodeIterator: an empty trie is at its end. */
    constructor (trie: Node, start: Path)
      requires (trie.Nil? || (WellFormed(trie) && !trie.Value?)) && Nibbles(start)
      ensures Valid() && root == trie
      ensures Rem() == if trie.Nil? then [] else FromTarget(PreOrder(trie, []), start)
    {
      root, stack, path, ended := trie, [], [], trie.Nil?;
      new;
      if !trie.Nil? {
        Seek(start);
      }
    }
  }

  /** MAIN: a new iterator yields a node of the walk if and only if the node's path is at
      or past the start key, so no leaf from the start key on is skipped. */
  lemma SeekExact(trie: Node, start: Path)
    requires WellFormed(trie) && !trie.Value?
    ensures var all := PreOrder(trie, []);
            var k := |all| - |FromTarget(all, start)|;
            && 0 <= k <= |all| && FromTarget(all, start) == all[k..]
            && forall i :: 0 <= i < |all| ==> (ReachedPath(all[i].path, start) <==> i >= k)
  {
    PreOrderSorted(trie, []);
    FromTargetExact(PreOrder(trie, []), start);
  }

  /** A node is in what a new iterator yields if and only if a path leads to it that is at
      or past the start key. */
  lemma YieldedIff(trie: Node, start: Path, v: Visit)
    requires WellFormed(trie) && !trie.Value?
    ensures v in FromTarget(PreOrder(trie, []), start) <==>
            Leads(trie, v.path, v.node) && ReachedPath(v.path, start)
  {
    var all := PreOrder(trie, []);
    SeekExact(trie, start);
    PreOrderExact(trie, [], v);
    assert v.path[0..] == v.path;
    var k := |all| - |FromTarget(all, start)|;
    if v in all {
      var i :| 0 <= i < |all| && all[i] == v;
      if i >= k { assert all[k..][i - k] == v; }
    }
  }

  /** MAIN: exactly the nodes at or past the start key are yielded, each once, paths never
      decreasing; the leaves among them are the entries that lookups find. */
  lemma YieldsExactly(trie: Node, start: Path)
    requires WellFormed(trie) && !trie.Value?
    ensures var vs := FromTarget(PreOrder(trie, []), start);
            && (forall v :: v in vs <==> Leads(trie, v.path, v.node) && ReachedPath(v.path, start))
            && (forall key: Path, x: nat :: LeafKey(key) && ReachedPath(key, start) ==>
                  (Visit(key, Value(x)) in vs <==> Get(trie, key) == Some(x)))
            && (forall v :: v in vs ==> (v.node.Value? <==> HasTerm(v.path)))
            && Sorted(vs) && DistinctPaths(vs)
  {
    var all, vs := PreOrder(trie, []), FromTarget(PreOrder(trie, []), start);
    forall v ensures v in vs <==> Leads(trie, v.path, v.node) && ReachedPath(v.path, start) {
      YieldedIff(trie, start, v);
    }
    forall v | v in vs ensures v.node.Value? <==> HasTerm(v.path) { LeavesTerminate(trie, v.path, v.node); }
    forall key: Path, x: nat | LeafKey(key) && ReachedPath(key, start)
      ensures Visit(key, Value(x)) in vs <==> Get(trie, key) == Some(x)
    {
      GetIffLeads(trie, key, x);
    }
    PreOrderSorted(trie, []);
    PreOrderDistinct(trie, []);
    SeekExact(trie, start);
  }

  /** Draining a new iterator: the whole rest of the walk, each node once. */
  method Walk(trie: Node, start: Path) returns (vs: seq<Visit>)
    requires (trie.Nil? || (WellFormed(trie) && !trie.Value?)) && Nibbles(start)
    ensures trie.Nil? ==> vs == []
    ensures !trie.Nil? ==> vs == FromTarget(PreOrder(trie, []), start)
    ensures forall v :: v in vs <==> !trie.Nil? && Leads(trie, v.path, v.node) && ReachedPath(v.path, start)
    ensures forall key: Path, x: nat :: LeafKey(key) && ReachedPath(key, start) ==>
      (Visit(key, Value(x)) in vs <==> Get(trie, key) == Some(x))
    ensures forall v :: v in vs ==> (v.node.Value? <==> HasTerm(v.path))
    ensures Sorted(vs) && DistinctPaths(vs)
  {
    var it := new NodeIterator(trie, start);
    vs := [];
    ghost var all := it.Rem();
    if !trie.Nil? { YieldsExactly(trie, start); }
    while true
      invariant it.Valid() && fresh(it) && vs + it.Rem() == all
      decreases |it.Rem()|
    {
      var more := it.Next(true);
      if !more {
        assert vs + [] == vs;
        return;
      }
      var v := Visit(it.path, it.stack[|it.stack| - 1].node);
      Assoc(vs, [v], it.Rem());
      vs := vs + [v];
    }
  }
}

/** stateObject's storage methods, loop by loop, against StorageLayers.  Go's map ranges
    visit keys in no fixed order, so each loop takes any remaining key. */
module StateObjects {
  import opened StorageLayers

  /** Two maps agree at one key. */
  predicate SameAt(a: map<Key, Value>, b: map<Key, Value>, k: Key) {
    (k in a <==> k in b) && (k in a ==> a[k] == b[k])
  }

  lemma Extensional(a: map<Key, Value>, b: map<Key, Value>)
    requires forall k :: SameAt(a, b, k)
    ensures a == b
  {
    forall k ensures k in a <==> k in b { assert SameAt(a, b, k); }
    forall k | k in a ensures a[k] == b[k] { assert SameAt(a, b, k); }
  }

  /** Half-way through finalise: the keys still to visit look as in l, the others as in f. */
  predicate Moving(cur: Layers, l: Layers, f: Layers, todo: set<Key>, k: Key) {
    var goal := if k in todo then l else f;
    SameAt(cur.pending, goal.pending, k) && SameAt(cur.uncommitted, goal.uncommitted, k)
  }

  /** Half-way through updateTrie, deletions still to come. */
  predicate Flushing(cur: map<Key, Value>, refused: set<Key>, deletions: set<Key>,
                     l: Layers, f: Layers, todo: set<Key>, k: Key) {
    if k in todo then k !in refused && k !in deletions && SameAt(cur, l.trie, k)
    else
      && (k in refused <==> k in Refused(l))
      && (if k in deletions then k !in f.trie else SameAt(cur, f.trie, k))
  }

  /** The body of finalise's loop. */
  function MoveKey(l: Layers, k: Key): Layers
    requires k in l.dirty
  {
    l.(uncommitted := if k in l.uncommitted && l.uncommitted[k] == l.dirty[k] then l.uncommitted - {k}
                      else if k in l.uncommitted then l.uncommitted
                      else l.uncommitted[k := Committed(l, k)],
       pending := l.pending[k := l.dirty[k]])
  }

  lemma MoveStep(cur: Layers, l: Layers, todo: set<Key>, k: Key, x: Key)
    requires k in todo && todo <= l.dirty.Keys && cur == l.(pending := cur.pending, uncommitted := cur.uncommitted)
    requires Moving(cur, l, Finalise(l), todo, k) && Moving(cur, l, Finalise(l), todo, x)
    ensures Moving(MoveKey(cur, k), l, Finalise(l), todo - {k}, x)
  {
  }

  /** What updateTrie's loop does with one key: the trie, the refused keys, the deletions. */
  function FlushKey(l: Layers, t: map<Key, Value>, r: set<Key>, d: set<Key>, k: Key)
    : (map<Key, Value>, set<Key>, set<Key>)
    requires k in l.uncommitted
  {
    var value := At(l.pending, k);
    if value == l.uncommitted[k] || k !in l.pending then (t, r + {k}, d)
    else if value != ZERO then (t[k := value], r, d)
    else (t, r, d + {k})
  }

  lemma FlushStep(l: Layers, t: map<Key, Value>, r: set<Key>, d: set<Key>, todo: set<Key>, k: Key, x: Key)
    requires k in todo && todo <= l.uncommitted.Keys && (k in l.trie ==> l.trie[k] != ZERO)
    requires Flushing(t, r, d, l, UpdateTrie(l), todo, k) && Flushing(t, r, d, l, UpdateTrie(l), todo, x)
    ensures var (t1, r1, d1) := FlushKey(l, t, r, d, k);
            Flushing(t1, r1, d1, l, UpdateTrie(l), todo - {k}, x)
  {
  }

  lemma FlushStart(l: Layers, x: Key)
    requires x in l.trie ==> l.trie[x] != ZERO
    ensures Flushing(l.trie, {}, {}, l, UpdateTrie(l), l.uncommitted.Keys, x)
  {
  }

  lemma FlushEnd(l: Layers, t: map<Key, Value>, r: set<Key>, d: set<Key>)
    requires forall k :: Flushing(t, r, d, l, UpdateTrie(l), {}, k)
    ensures t - d == UpdateTrie(l).trie && r == Refused(l)
  {
    forall k ensures SameAt(t - d, UpdateTrie(l).trie, k) && (k in r <==> k in Refused(l)) {
      assert Flushing(t, r, d, l, UpdateTrie(l), {}, k);
    }
    Extensional(t - d, UpdateTrie(l).trie);
  }

  /** Half-way through commitStorage: the visited keys that differ are cleaned and handed out. */
  predicate Cleaning(origin: map<Key, Value>, op: Diff, l: Layers, todo: set<Key>, k: Key) {
    if k !in todo && Emits(l, k) then
      && k in origin && origin[k] == l.pending[k]
      && k in op.storages && op.storages[k] == l.pending[k]
      && k in op.storagesOrigin && op.storagesOrigin[k] == At(l.origin, k)
    else SameAt(origin, l.origin, k) && k !in op.storages && k !in op.storagesOrigin
  }

  function CleanKey(l: Layers, origin: map<Key, Value>, op: Diff, k: Key): (map<Key, Value>, Diff)
    requires k in l.pending
  {
    var val := l.pending[k];
    if val == At(origin, k) then (origin, op)
    else (origin[k := val], Diff(op.storages[k := val], op.storagesOrigin[k := At(origin, k)]))
  }

  lemma CleanStep(l: Layers, origin: map<Key, Value>, op: Diff, todo: set<Key>, k: Key, x: Key)
    requires k in todo && todo <= l.pending.Keys
    requires Cleaning(origin, op, l, todo, k) && Cleaning(origin, op, l, todo, x)
    ensures var (origin1, op1) := CleanKey(l, origin, op, k); Cleaning(origin1, op1, l, todo - {k}, x)
  {
  }

  lemma CleanEnd(l: Layers, origin: map<Key, Value>, op: Diff)
    requires forall k :: Cleaning(origin, op, l, {}, k)
    ensures origin == CommitStorage(l).origin && op == Emitted(l)
  {
    forall k ensures SameAt(origin, CommitStorage(l).origin, k) && SameAt(op.storages, Emitted(l).storages, k)
                  && SameAt(op.storagesOrigin, Emitted(l).storagesOrigin, k) {
      assert Cleaning(origin, op, l, {}, k);
    }
    Extensional(origin, CommitStorage(l).origin);
    Extensional(op.storages, Emitted(l).storages);
    Extensional(op.storagesOrigin, Emitted(l).storagesOrigin);
  }

  class StateObject {
    const reader: map<Key, Value>
    const destructed: bool
    var originStorage: map<Key, Value>
    var pendingStorage: map<Key, Value>
    var dirtyStorage: map<Key, Value>
    var uncommittedStorage: map<Key, Value>
    var trie: map<Key, Value>

    ghost function View(): Layers
      reads this
    {
      Layers(if destructed then map[] else reader, originStorage, pendingStorage, dirtyStorage,
             uncommittedStorage, trie)
    }

    /** A freshly loaded object: its trie holds what the reader answers. */
    constructor (onDisk: map<Key, Value>, destructed: bool)
      requires forall k :: k in onDisk ==> onDisk[k] != ZERO
      ensures Inv(View()) && dirtyStorage == map[] && pendingStorage == map[]
      ensures forall k :: Flat(View(), k) == if destructed then ZERO else At(onDisk, k)
    {
      this.reader, this.destructed := onDisk, destructed;
      originStorage, pendingStorage, dirtyStorage, uncommittedStorage := map[], map[], map[], map[];
      trie := if destructed then map[] else onDisk;
    }

    method GetCommittedState(k: Key) returns (v: Value)
      modifies this
      ensures View() == Load(old(View()), k) && v == Committed(old(View()), k)
    {
      if k in pendingStorage { return pendingStorage[k]; }
      if k in originStorage { return originStorage[k]; }
      if destructed {
        originStorage := originStorage[k := ZERO];
        return ZERO;
      }
      v := At(reader, k);
      originStorage := originStorage[k := v];
    }

    method GetState(k: Key) returns (v: Value, origin: Value)
      modifies this
      ensures View() == Load(old(View()), k) && v == Flat(old(View()), k) && origin == Committed(old(View()), k)
    {
      origin := GetCommittedState(k);
      v := if k in dirtyStorage then dirtyStorage[k] else origin;
    }

    method SetState(k: Key, v: Value)
      modifies this
      ensures View() == StorageLayers.SetState(old(View()), k, v)
    {
      LoadKeeps(View(), k, k);
      var prev, origin := GetState(k);
      if prev == v { return; }
      if v == origin {
        dirtyStorage := dirtyStorage - {k};
      } else {
        dirtyStorage := dirtyStorage[k := v];
      }
    }

    /** The slots of the current transaction become pending. */
    method FinaliseStorage()
      requires forall k :: Cached(View(), k)
      modifies this
      ensures View() == Finalise(old(View()))
    {
      ghost var l, f := View(), Finalise(View());
      var todo := dirtyStorage.Keys;
      while todo != {}
        invariant todo <= l.dirty.Keys
        invariant View() == l.(pending := pendingStorage, uncommitted := uncommittedStorage)
        invariant forall k :: Moving(View(), l, f, todo, k)
        decreases todo
      {
        var k :| k in todo;
        ghost var before := View();
        assert Cached(l, k) && Moving(before, l, f, todo, k);
        var value := dirtyStorage[k];
        if k in uncommittedStorage && uncommittedStorage[k] == value {
          uncommittedStorage := uncommittedStorage - {k};
        } else if k !in uncommittedStorage {
          var committed := GetCommittedState(k);
          uncommittedStorage := uncommittedStorage[k := committed];
        }
        pendingStorage := pendingStorage[k := value];
        assert View() == MoveKey(before, k);
        forall x ensures Moving(View(), l, f, todo - {k}, x) {
          assert Moving(before, l, f, todo, x);
          MoveStep(before, l, todo, k, x);
        }
        todo := todo - {k};
      }
      dirtyStorage := map[];
      forall k ensures SameAt(pendingStorage, f.pending, k) && SameAt(uncommittedStorage, f.uncommitted, k) {
        assert Moving(View().(dirty := l.dirty), l, f, todo, k);
      }
      Extensional(pendingStorage, f.pending);
      Extensional(uncommittedStorage, f.uncommitted);
    }

    /** Updates first, deletions after; `refused` collects the keys logged as errors. */
    method UpdateTrieStorage() returns (refused: set<Key>)
      requires forall k :: k in trie ==> trie[k] != ZERO
      modifies this
      ensures View() == UpdateTrie(old(View())) && refused == Refused(old(View()))
    {
      ghost var l, f := View(), UpdateTrie(View());
      refused := {};
      var deletions := {};
      var todo := uncommittedStorage.Keys;
      forall k ensures Flushing(trie, refused, deletions, l, f, todo, k) { FlushStart(l, k); }
      while todo != {}
        invariant todo <= l.uncommitted.Keys && View() == l.(trie := trie)
        invariant forall k :: Flushing(trie, refused, deletions, l, f, todo, k)
        decreases todo
      {
        var k :| k in todo;
        ghost var t, r, d := trie, refused, deletions;
        assert Flushing(t, r, d, l, f, todo, k) && k in l.uncommitted;
        var value := At(pendingStorage, k);
        if value == uncommittedStorage[k] || k !in pendingStorage {
          refused := refused + {k};
        } else if value != ZERO {
          trie := trie[k := value];
        } else {
          deletions := deletions + {k};
        }
        assert (trie, refused, deletions) == FlushKey(l, t, r, d, k);
        forall x ensures Flushing(trie, refused, deletions, l, f, todo - {k}, x) {
          assert Flushing(t, r, d, l, f, todo, x);
          FlushStep(l, t, r, d, todo, k, x);
        }
        todo := todo - {k};
      }
      FlushEnd(l, trie, refused, deletions);
      trie := trie - deletions;
      uncommittedStorage := map[];
    }

    /** The clean values take the pending ones, and the difference is handed out. */
    method CommitStorage() returns (op: Diff)
      modifies this
      ensures View() == StorageLayers.CommitStorage(old(View())) && op == Emitted(old(View()))
    {
      ghost var l := View();
      op := Diff(map[], map[]);
      var todo := pendingStorage.Keys;
      while todo != {}
        invariant todo <= l.pending.Keys && View() == l.(origin := originStorage)
        invariant forall k :: Cleaning(originStorage, op, l, todo, k)
        decreases todo
      {
        var k :| k in todo;
        ghost var o, d := originStorage, op;
        assert Cleaning(o, d, l, todo, k) && k in l.pending;
        var val := pendingStorage[k];
        if val != At(originStorage, k) {
          op := Diff(op.storages[k := val], op.storagesOrigin[k := At(originStorage, k)]);
          originStorage := originStorage[k := val];
        }
        assert (originStorage, op) == CleanKey(l, o, d, k);
        forall x ensures Cleaning(originStorage, op, l, todo - {k}, x) {
          assert Cleaning(o, d, l, todo, x);
          CleanStep(l, o, d, todo, k, x);
        }
        todo := todo - {k};
      }
      CleanEnd(l, originStorage, op);
      pendingStorage := map[];
    }
  }
}

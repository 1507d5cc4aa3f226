/** What the getters answer after any run with snapshots and reverts: what they would
    answer had only the mutators run that no revert took back. */
module JournalReads {
  import opened Basics
  import opened EvmWorld
  import opened Journal
  import opened JournalProofs
  import opened EvmReads

  /** A snapshot's id, and how many mutators it keeps. */
  datatype Mark = Mark(id: nat, kept: nat)

  /** The surviving mutators and the snapshots that can still be reverted to. */
  datatype History = History(ops: seq<Op>, marks: seq<Mark>, nextId: nat)

  /** The position of an id among the marks. */
  function Find(marks: seq<Mark>, id: nat): (i: nat)
    ensures i <= |marks|
  {
    if marks == [] || marks[0].id == id then 0 else Find(marks[1..], id) + 1
  }

  function Keep(h: History, s: Step): History {
    match s
    case Mutate(op) => h.(ops := h.ops + [op])
    case Snapshot => h.(marks := h.marks + [Mark(h.nextId, |h.ops|)], nextId := h.nextId + 1)
    case RevertTo(id) =>
      var i := Find(h.marks, id);
      if i < |h.marks| && h.marks[i].kept <= |h.ops|
      then h.(ops := h.ops[..h.marks[i].kept], marks := h.marks[..i]) else h
  }

  function Surviving(nextId: nat, steps: seq<Step>): History {
    if steps == [] then History([], [], nextId) else Keep(Surviving(nextId, steps[..|steps| - 1]), steps[|steps| - 1])
  }

  /** The world is that of the surviving mutators, and so is every world within reach. */
  ghost predicate Mirrors(w: World, h: History, l: Ledger) {
    && PerformAll(w, h.ops) == Some(l.world)
    && h.nextId == l.nextId && |h.marks| == |l.revisions|
    && (forall i, j :: 0 <= i < j < |h.marks| ==> h.marks[i].kept <= h.marks[j].kept)
    && forall j :: 0 <= j < |h.marks| ==> MarkMirrors(w, h, l, j)
  }

  ghost predicate MarkMirrors(w: World, h: History, l: Ledger, j: nat)
    requires j < |h.marks| && j < |l.revisions|
  {
    && h.marks[j].id == l.revisions[j].id && h.marks[j].kept <= |h.ops| && l.revisions[j].index <= |l.entries|
    && PerformAll(w, h.ops[..h.marks[j].kept]) == Some(Past(l, l.revisions[j].index))
  }

  lemma {:induction false} FindIs(marks: seq<Mark>, id: nat, i: nat)
    requires i < |marks| && marks[i].id == id && forall j :: 0 <= j < i ==> marks[j].id != id
    ensures Find(marks, id) == i
  {
    if i > 0 { FindIs(marks[1..], id, i - 1); }
  }

  lemma MutateMirrors(w: World, h: History, l: Ledger, op: Op, extra: nat)
    requires Mirrors(w, h, l) && Sound(l, extra) && Take(l, Mutate(op)).Some? && Undoable(l.world, op)
    ensures Mirrors(w, Keep(h, Mutate(op)), Take(l, Mutate(op)).value)
  {
    var k, m := Keep(h, Mutate(op)), Take(l, Mutate(op)).value;
    MutateIs(l, op, extra);
    assert k.ops[..|h.ops|] == h.ops;
    forall j | 0 <= j < |k.marks| ensures MarkMirrors(w, k, m, j) {
      assert MarkMirrors(w, h, l, j);
      assert k.ops[..h.marks[j].kept] == h.ops[..h.marks[j].kept];
    }
  }

  lemma SnapshotMirrors(w: World, h: History, l: Ledger)
    requires Mirrors(w, h, l)
    ensures Mirrors(w, Keep(h, Snapshot), Take(l, Snapshot).value)
  {
    var k, m := Keep(h, Snapshot), Take(l, Snapshot).value;
    forall j | 0 <= j < |h.marks| ensures h.marks[j].kept <= |h.ops| { assert MarkMirrors(w, h, l, j); }
    assert h.ops[..|h.ops|] == h.ops && m.entries[|m.entries|..] == [];
    forall j | 0 <= j < |k.marks| ensures MarkMirrors(w, k, m, j) {
      if j < |h.marks| {
        assert MarkMirrors(w, h, l, j);
        assert Past(m, l.revisions[j].index) == Past(l, l.revisions[j].index);
      }
    }
  }

  lemma RevertMirrors(w: World, h: History, l: Ledger, id: nat, extra: nat)
    requires Mirrors(w, h, l) && Sound(l, extra) && Take(l, RevertTo(id)).Some?
    ensures Mirrors(w, Keep(h, RevertTo(id)), Take(l, RevertTo(id)).value)
  {
    var i, m := FirstAtLeast(l.revisions, id), Take(l, RevertTo(id)).value;
    RevertRewinds(l, id, extra);
    forall j | 0 <= j <= i
      ensures MarkMirrors(w, h, l, j) && h.marks[j].id == l.revisions[j].id && h.marks[j].kept <= |h.ops|
    {
      assert MarkMirrors(w, h, l, j);
    }
    FindIs(h.marks, id, i);
    var k := Keep(h, RevertTo(id));
    forall j | 0 <= j < |k.marks| ensures MarkMirrors(w, k, m, j) {
      assert h.marks[j].kept <= h.marks[i].kept;
      assert k.ops[..h.marks[j].kept] == h.ops[..h.marks[j].kept];
    }
  }

  lemma {:induction false} RunMirrors(l: Ledger, steps: seq<Step>, extra: nat)
    requires Sound(l, extra) && l.revisions == [] && Run(l, steps).Some? && Throughout(l, steps, Undoable)
    ensures Mirrors(l.world, Surviving(l.nextId, steps), Run(l, steps).value)
    ensures Sound(Run(l, steps).value, extra + RunTouches(l, steps))
    decreases |steps|
  {
    if steps != [] {
      var front, s := steps[..|steps| - 1], steps[|steps| - 1];
      ThroughoutPrefix(l, steps, Undoable);
      RunMirrors(l, front, extra);
      var m, h, x := Run(l, front).value, Surviving(l.nextId, front), extra + RunTouches(l, front);
      TakeSound(m, s, x);
      match s
      case Mutate(op) => MutateMirrors(l.world, h, m, op, x);
      case Snapshot => SnapshotMirrors(l.world, h, m);
      case RevertTo(id) => RevertMirrors(l.world, h, m, id, x);
    }
  }

  /**
   * MAIN: after any run with nested snapshots and reverts, every account, slot, transient
   * slot, log and the refund reads as if only the surviving mutators had run.
   */
  lemma ReadsAsIfKept(l: Ledger, steps: seq<Step>, extra: nat, a: Address, k: Hash, h: Hash)
    requires Sound(l, extra) && l.revisions == [] && Run(l, steps).Some? && Throughout(l, steps, Undoable)
    ensures var m, ops := Run(l, steps).value.world, Surviving(l.nextId, steps).ops;
            && AccountReads(l.world, ops, m, a, k)
            && GetTransient(m.transient, a, k) == TransientAfter(l.world, ops, a, k)
            && m.refund == Low64(RefundAfter(l.world, ops))
            && m.logSize == l.world.logSize + LogCount(ops)
            && LogsOf(m, h) == LogsOf(l.world, h) + Emitted(ops, h, l.world.logSize)
  {
    RunMirrors(l, steps, extra);
    var ops := Surviving(l.nextId, steps).ops;
    AccountsRead(l.world, ops, a, k);
    TransientReads(l.world, ops, a, k);
    RefundReads(l.world, ops);
    LogsRead(l.world, ops, h);
  }

  // ----- what the dirty counts are for ------------------------------------------------------

  /** The account is as it was, the new-contract flag apart. */
  predicate SameAccount(v: World, w: World, a: Address) {
    (a in v.accounts <==> a in w.accounts) &&
    (a in v.accounts ==> v.accounts[a].(newContract := false) == w.accounts[a].(newContract := false))
  }

  lemma UndoKeeps(w: World, c: Change, a: Address)
    requires Dirtied(c) != Some(a)
    ensures SameAccount(Undo(w, c), w, a)
  {
  }

  lemma {:induction false} UndoEntriesKeep(local: nat, w: World, es: seq<Entry>, a: Address)
    requires DirtyEntries(es, a) == 0
    ensures SameAccount(UndoEntries(local, w, es), w, a)
    decreases |es|
  {
    if es != [] {
      var last := es[|es| - 1];
      UndoKeeps(w, last.change, a);
      UndoEntriesKeep(local, UndoEntry(local, w, last), es[..|es| - 1], a);
    }
  }

  /** Undoing the whole journal would lead back to the start. */
  lemma {:induction false} RunPast(l: Ledger, steps: seq<Step>, extra: nat)
    requires Sound(l, extra) && l.revisions == [] && l.entries == []
    requires Run(l, steps).Some? && Throughout(l, steps, Undoable)
    ensures Past(Run(l, steps).value, 0) == l.world
    decreases |steps|
  {
    if steps != [] {
      var front, s := steps[..|steps| - 1], steps[|steps| - 1];
      ThroughoutPrefix(l, steps, Undoable);
      RunPast(l, front, extra);
      RunMirrors(l, front, extra);
      var m, x := Run(l, front).value, extra + RunTouches(l, front);
      match s
      case Mutate(op) => MutateIs(m, op, x);
      case Snapshot =>
      case RevertTo(id) => RevertRewinds(m, id, x);
    }
  }

  /** MAIN: after any run with snapshots and reverts, an account without a dirty count is as
      it was at the start, so nothing that changed can be missed by going through the dirty
      accounts. */
  lemma DirtiesCover(l: Ledger, steps: seq<Step>, extra: nat, a: Address)
    requires Sound(l, extra) && l.revisions == [] && l.entries == []
    requires Run(l, steps).Some? && Throughout(l, steps, Undoable) && a !in Run(l, steps).value.dirties
    ensures SameAccount(l.world, Run(l, steps).value.world, a)
  {
    var m := Run(l, steps).value;
    RunPast(l, steps, extra);
    RunMirrors(l, steps, extra);
    assert Count(m.dirties, a) == 0 && m.entries[0..] == m.entries;
    UndoEntriesKeep(m.local, m.world, m.entries, a);
  }
}

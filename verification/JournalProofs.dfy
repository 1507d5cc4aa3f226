/** Snapshots restore and replays reproduce, over every run of the journal. */
module JournalProofs {
  import opened Basics
  import opened EvmWorld
  import opened EvmWorldProofs
  import opened Journal

  // ----- lists of entries -----

  function Tag(cs: seq<Change>, shard: nat): (es: seq<Entry>)
    ensures |es| == |cs|
  {
    seq(|cs|, i requires 0 <= i < |cs| => Entry(cs[i], shard))
  }

  lemma {:induction false} UndoEntriesConcat(local: nat, w: World, es: seq<Entry>, fs: seq<Entry>)
    ensures UndoEntries(local, w, es + fs) == UndoEntries(local, UndoEntries(local, w, fs), es)
    decreases |fs|
  {
    if fs == [] {
      assert es + fs == es;
    } else {
      var n := |fs| - 1;
      assert (es + fs)[..|es + fs| - 1] == es + fs[..n];
      UndoEntriesConcat(local, UndoEntry(local, w, fs[n]), es, fs[..n]);
    }
  }

  lemma {:induction false} UndoTagged(local: nat, w: World, cs: seq<Change>)
    ensures UndoEntries(local, w, Tag(cs, local)) == UndoAll(w, cs)
    decreases |cs|
  {
    if cs != [] {
      var n := |cs| - 1;
      assert Tag(cs, local)[..n] == Tag(cs[..n], local);
      UndoTagged(local, Undo(w, cs[n]), cs[..n]);
    }
  }

  lemma {:induction false} DirtyConcat(es: seq<Entry>, fs: seq<Entry>, a: Address)
    ensures DirtyEntries(es + fs, a) == DirtyEntries(es, a) + DirtyEntries(fs, a)
    decreases |fs|
  {
    if fs == [] {
      assert es + fs == es;
    } else {
      var n := |fs| - 1;
      assert (es + fs)[..|es + fs| - 1] == es + fs[..n];
      DirtyConcat(es, fs[..n], a);
    }
  }

  // ----- appending -----

  lemma AppendCounts(l: Ledger, c: Change, extra: nat)
    requires CountsExact(l, extra)
    ensures CountsExact(Append(l, c), extra + if c == Touch(RIPEMD) then 1 else 0)
  {
    var m := Append(l, c);
    assert m.entries[..|m.entries| - 1] == l.entries;
  }

  lemma {:induction false} AppendAllIs(l: Ledger, cs: seq<Change>, extra: nat)
    requires CountsExact(l, extra)
    ensures var m := AppendAll(l, cs);
            && m == l.(entries := l.entries + Tag(cs, l.local), dirties := m.dirties)
            && CountsExact(m, extra + Touches(cs))
    decreases |cs|
  {
    if cs == [] {
      assert l.entries + Tag(cs, l.local) == l.entries;
    } else {
      var n := |cs| - 1;
      AppendAllIs(l, cs[..n], extra);
      AppendCounts(AppendAll(l, cs[..n]), cs[n], extra + Touches(cs[..n]));
      assert Tag(cs, l.local) == Tag(cs[..n], l.local) + [Entry(cs[n], l.local)];
    }
  }

  // ----- unwinding -----

  lemma RetreatCounts(l: Ledger, extra: nat)
    requires CountsExact(l, extra) && l.entries != []
    ensures CountsExact(Retreat(l), extra)
  {
    var m, n := Retreat(l), |l.entries| - 1;
    forall a ensures Count(m.dirties, a) == DirtyEntries(m.entries, a) + (if a == RIPEMD then extra else 0) {
      assert Count(l.dirties, a) == DirtyEntries(l.entries, a) + (if a == RIPEMD then extra else 0);
      assert DirtyEntries(l.entries, a)
          == DirtyEntries(l.entries[..n], a) + (if Dirtied(l.entries[n].change) == Some(a) then 1 else 0);
    }
  }

  lemma {:induction false} UnwindIs(l: Ledger, k: nat, extra: nat)
    requires k <= |l.entries| && CountsExact(l, extra)
    ensures var m := Unwind(l, k);
            && m == l.(world := Past(l, k), entries := l.entries[..k], dirties := m.dirties)
            && CountsExact(m, extra)
    decreases |l.entries|
  {
    var n := |l.entries|;
    if n == k {
      assert l.entries[k..] == [] && l.entries[..k] == l.entries;
    } else {
      RetreatCounts(l, extra);
      UnwindIs(Retreat(l), k, extra);
      assert l.entries[k..][..n - k - 1] == l.entries[..n - 1][k..];
      assert l.entries[..n - 1][..k] == l.entries[..k];
    }
  }

  /** What a longer history would have undone is unchanged by undoing its end first. */
  lemma PastOfUnwound(l: Ledger, j: nat, k: nat)
    requires j <= k <= |l.entries|
    ensures UndoEntries(l.local, Past(l, k), l.entries[j..k]) == Past(l, j)
  {
    assert l.entries[j..] == l.entries[j..k] + l.entries[k..];
    UndoEntriesConcat(l.local, l.world, l.entries[j..k], l.entries[k..]);
  }

  // ----- one mutator -----

  /** m is l with a world and entries that can be undone down to any index of l. */
  ghost predicate Extended(l: Ledger, cs: seq<Change>, m: Ledger) {
    && m == l.(world := m.world, entries := l.entries + Tag(cs, l.local), dirties := m.dirties)
    && forall k :: 0 <= k <= |l.entries| ==> Past(m, k) == Past(l, k)
  }

  lemma MutateIs(l: Ledger, op: Op, extra: nat)
    requires Valid(l.world) && CountsExact(l, extra) && Perform(l.world, op).Done? && Undoable(l.world, op)
    ensures var e := Perform(l.world, op);
            var m := Take(l, Mutate(op)).value;
            && m.world == e.world
            && Extended(l, e.changes, m)
            && CountsExact(m, extra + Touches(e.changes))
  {
    var e := Perform(l.world, op);
    var m := Take(l, Mutate(op)).value;
    AppendAllIs(l, e.changes, extra);
    UndoRestoresIff(l.world, op);
    UndoTagged(l.local, e.world, e.changes);
    forall k | 0 <= k <= |l.entries| ensures Past(m, k) == Past(l, k) {
      assert m.entries[k..] == l.entries[k..] + Tag(e.changes, l.local);
      UndoEntriesConcat(l.local, e.world, l.entries[k..], Tag(e.changes, l.local));
    }
  }

  // ----- one step keeps the invariant -----

  lemma MutateSound(l: Ledger, op: Op, extra: nat)
    requires Sound(l, extra) && Take(l, Mutate(op)).Some? && Undoable(l.world, op)
    ensures Sound(Take(l, Mutate(op)).value, extra + StepTouches(l, Mutate(op)))
  {
    MutateIs(l, op, extra);
    PerformValid(l.world, op);
  }

  lemma SnapshotSound(l: Ledger, extra: nat)
    requires Sound(l, extra)
    ensures Sound(Take(l, Snapshot).value, extra)
  {
    var m, n := Take(l, Snapshot).value, |l.entries|;
    assert m.entries[n..] == [];
    assert Past(m, n) == l.world;
    forall i | 0 <= i < |m.revisions| ensures Valid(Past(m, m.revisions[i].index)) {
      if i < |l.revisions| {
        assert Past(m, m.revisions[i].index) == Past(l, l.revisions[i].index);
      }
    }
  }

  /** m is l taken back to its revision number `at`. */
  ghost predicate Rewound(l: Ledger, at: nat, m: Ledger) {
    && at < |l.revisions| && l.revisions[at].index <= |l.entries|
    && var k := l.revisions[at].index;
       && m == l.(world := Past(l, k), entries := l.entries[..k], dirties := m.dirties, revisions := l.revisions[..at])
       && forall j :: 0 <= j <= k ==> Past(m, j) == Past(l, j)
  }

  lemma RevertRewinds(l: Ledger, id: nat, extra: nat)
    requires Sound(l, extra) && Take(l, RevertTo(id)).Some?
    ensures Rewound(l, FirstAtLeast(l.revisions, id), Take(l, RevertTo(id)).value)
    ensures CountsExact(Take(l, RevertTo(id)).value, extra)
  {
    var i := FirstAtLeast(l.revisions, id);
    var k := l.revisions[i].index;
    var m := Take(l, RevertTo(id)).value;
    UnwindIs(l, k, extra);
    forall j | 0 <= j <= k ensures Past(m, j) == Past(l, j) {
      assert m.entries[j..] == l.entries[j..k];
      PastOfUnwound(l, j, k);
    }
  }

  lemma RewoundSound(l: Ledger, at: nat, m: Ledger, extra: nat)
    requires Sound(l, extra) && Rewound(l, at, m) && CountsExact(m, extra)
    ensures Sound(m, extra)
  {
  }

  lemma RevertSound(l: Ledger, id: nat, extra: nat)
    requires Sound(l, extra) && Take(l, RevertTo(id)).Some?
    ensures Rewound(l, FirstAtLeast(l.revisions, id), Take(l, RevertTo(id)).value)
    ensures Sound(Take(l, RevertTo(id)).value, extra)
  {
    RevertRewinds(l, id, extra);
    RewoundSound(l, FirstAtLeast(l.revisions, id), Take(l, RevertTo(id)).value, extra);
  }

  lemma TakeSound(l: Ledger, s: Step, extra: nat)
    requires Sound(l, extra) && Take(l, s).Some? && (s.Mutate? ==> Undoable(l.world, s.op))
    ensures Sound(Take(l, s).value, extra + StepTouches(l, s))
  {
    match s {
      case Mutate(op) => MutateSound(l, op, extra);
      case Snapshot => SnapshotSound(l, extra);
      case RevertTo(id) => RevertSound(l, id, extra);
    }
  }

  // ----- a snapshot followed through a run -----

  /** The revision that Snapshot on l0 made is still valid in l, and l can still go back to l0. */
  ghost predicate Held(l0: Ledger, l: Ledger) {
    var p, k := |l0.revisions|, |l0.entries|;
    && l.local == l0.local
    && |l.revisions| > p && l.revisions[..p] == l0.revisions && l.revisions[p] == Revision(l0.nextId, k)
    && k <= |l.entries| && l.entries[..k] == l0.entries
    && Past(l, k) == l0.world
  }

  /** The id was issued and no revision carries it. */
  ghost predicate Gone(id: nat, l: Ledger) {
    id < l.nextId && forall i :: 0 <= i < |l.revisions| ==> l.revisions[i].id != id
  }

  lemma SnapshotHeld(l: Ledger)
    ensures Held(l, Take(l, Snapshot).value)
  {
    var m := Take(l, Snapshot).value;
    assert m.entries[|l.entries|..] == [] && m.entries[..|l.entries|] == l.entries;
    assert m.revisions[..|l.revisions|] == l.revisions;
  }

  lemma TakeGone(l: Ledger, s: Step, id: nat, extra: nat)
    requires Sound(l, extra) && Take(l, s).Some? && Gone(id, l) && (s.Mutate? ==> Undoable(l.world, s.op))
    ensures Gone(id, Take(l, s).value)
  {
    match s {
      case Mutate(op) => MutateIs(l, op, extra);
      case Snapshot =>
      case RevertTo(back) => RevertSound(l, back, extra);
    }
  }

  /** A revert either stays above the snapshot's revision or removes it. */
  lemma RewoundHeld(l0: Ledger, l: Ledger, at: nat, m: Ledger)
    requires RevisionsOrdered(l) && Held(l0, l) && Rewound(l, at, m)
    ensures if at > |l0.revisions| then Held(l0, m) else Gone(l0.nextId, m)
  {
    var p, k := |l0.revisions|, |l0.entries|;
    if at > p {
      assert m.revisions[..p] == l.revisions[..p];
      assert l.revisions[p].index <= l.revisions[at].index;
      assert m.entries[..k] == l.entries[..k];
    }
  }

  lemma ExtendedHeld(l0: Ledger, l: Ledger, cs: seq<Change>, m: Ledger)
    requires Held(l0, l) && Extended(l, cs, m)
    ensures Held(l0, m)
  {
    assert m.entries[..|l0.entries|] == l.entries[..|l0.entries|];
  }

  lemma TakeHeld(l0: Ledger, l: Ledger, s: Step, extra: nat)
    requires Sound(l, extra) && Take(l, s).Some? && Held(l0, l) && (s.Mutate? ==> Undoable(l.world, s.op))
    ensures var m := Take(l, s).value; Held(l0, m) || Gone(l0.nextId, m)
  {
    var p := |l0.revisions|;
    var m := Take(l, s).value;
    match s {
      case Mutate(op) =>
        MutateIs(l, op, extra);
        ExtendedHeld(l0, l, Perform(l.world, op).changes, m);
      case Snapshot =>
        assert m.revisions[..p] == l.revisions[..p];
      case RevertTo(id) =>
        RevertSound(l, id, extra);
        RewoundHeld(l0, l, FirstAtLeast(l.revisions, id), m);
    }
  }

  lemma ThroughoutPrefix(l: Ledger, steps: seq<Step>, p: (World, Op) -> bool)
    requires Throughout(l, steps, p) && steps != []
    ensures Throughout(l, steps[..|steps| - 1], p)
    ensures var n := |steps| - 1;
            steps[n].Mutate? && Run(l, steps[..n]).Some? ==> p(Run(l, steps[..n]).value.world, steps[n].op)
  {
    var n := |steps| - 1;
    forall i | 0 <= i < n && steps[..n][i].Mutate?
      ensures match Run(l, steps[..n][..i]) case None => true case Some(m) => p(m.world, steps[..n][i].op)
    {
      assert steps[..n][..i] == steps[..i];
    }
  }

  /** Whatever happens after a snapshot, the invariant holds, and the snapshot is either
      still within reach or gone for good. */
  lemma {:induction false} RunSound(l0: Ledger, l: Ledger, steps: seq<Step>, extra: nat)
    requires Sound(l, extra) && (Held(l0, l) || Gone(l0.nextId, l))
    requires Run(l, steps).Some? && Throughout(l, steps, Undoable)
    ensures var m := Run(l, steps).value;
            && Sound(m, extra + RunTouches(l, steps))
            && (Held(l0, m) || Gone(l0.nextId, m))
            && (Gone(l0.nextId, l) ==> Gone(l0.nextId, m))
    decreases |steps|
  {
    if steps != [] {
      var n := |steps| - 1;
      ThroughoutPrefix(l, steps, Undoable);
      RunSound(l0, l, steps[..n], extra);
      var m := Run(l, steps[..n]).value;
      var x := extra + RunTouches(l, steps[..n]);
      TakeSound(m, steps[n], x);
      if Held(l0, m) {
        TakeHeld(l0, m, steps[n], x);
      } else {
        TakeGone(m, steps[n], l0.nextId, x);
      }
      if Gone(l0.nextId, m) {
        TakeGone(m, steps[n], l0.nextId, x);
      }
    }
  }

  lemma HeldReverts(l: Ledger, l2: Ledger, extra: nat, x: nat)
    requires CountsExact(l, extra) && Sound(l2, x) && Held(l, l2) && x >= extra
    ensures var back := Take(l2, RevertTo(l.nextId));
            && back.Some?
            && var l3 := back.value;
               && l3 == l.(dirties := l3.dirties, nextId := l2.nextId)
               && Sound(l3, x)
               && forall a :: Count(l3.dirties, a) == Count(l.dirties, a) + (if a == RIPEMD then x - extra else 0)
  {
    var p := |l.revisions|;
    assert l2.revisions[p].id == l.nextId;
    assert FirstAtLeast(l2.revisions, l.nextId) == p;
    RevertSound(l2, l.nextId, x);
  }

  /** MAIN: take a snapshot, run anything whose mutators were undoable when called
      (further snapshots and reverts included), and revert to the snapshot's id.
      Either some revert inside the run already invalidated the id, and this revert
      panics, or accounts, storage, transient storage, logs, refund, flags, entries and
      revisions are what they were at the snapshot; every dirty count is too, except
      that ripemd keeps one count for each time the run touched it. */
  lemma RevertToSnapshotRestores(l: Ledger, steps: seq<Step>, extra: nat)
    requires Sound(l, extra)
    requires var l1 := Take(l, Snapshot).value; Run(l1, steps).Some? && Throughout(l1, steps, Undoable)
    ensures var l1 := Take(l, Snapshot).value;
            var l2 := Run(l1, steps).value;
            var back := Take(l2, RevertTo(l.nextId));
            && (back.None? <==> Gone(l.nextId, l2))
            && (back.Some? ==>
                  var l3 := back.value;
                  && l3.world == l.world
                  && l3.entries == l.entries
                  && l3.revisions == l.revisions
                  && l3.nextId == l2.nextId
                  && Sound(l3, extra + RunTouches(l1, steps))
                  && forall a :: Count(l3.dirties, a)
                              == Count(l.dirties, a) + (if a == RIPEMD then RunTouches(l1, steps) else 0))
  {
    var l1 := Take(l, Snapshot).value;
    var l2 := Run(l1, steps).value;
    var x := extra + RunTouches(l1, steps);
    SnapshotSound(l, extra);
    SnapshotHeld(l);
    RunSound(l, l1, steps, extra);
    if Held(l, l2) { HeldReverts(l, l2, extra, x); }
  }

  /** A revert invalidates its id and every later one, for every run that follows. */
  lemma RevertedIdsStayInvalid(l: Ledger, id: nat, later: nat, steps: seq<Step>, extra: nat)
    requires Sound(l, extra) && Take(l, RevertTo(id)).Some? && id <= later < l.nextId
    requires var m := Take(l, RevertTo(id)).value; Run(m, steps).Some? && Throughout(m, steps, Undoable)
    ensures var m := Take(l, RevertTo(id)).value;
            Gone(later, Run(m, steps).value) && Take(Run(m, steps).value, RevertTo(later)).None?
  {
    RevertSound(l, id, extra);
    var m := Take(l, RevertTo(id)).value;
    assert Gone(later, m);
    var base := l.(nextId := later);
    RunSound(base, m, steps, extra);
  }

  // ----- replay -----

  lemma ChangesConcat(es: seq<Entry>, fs: seq<Entry>)
    ensures Changes(es + fs) == Changes(es) + Changes(fs)
  {
  }

  lemma ChangesTag(cs: seq<Change>, shard: nat)
    ensures Changes(Tag(cs, shard)) == cs
  {
  }

  /** Executing the entries from k up to i on w0 gives the world a revert to i would leave. */
  ghost predicate ReplaysTo(w0: World, k: nat, l: Ledger, i: nat)
    requires k <= i <= |l.entries|
  {
    RedoAll(Core(w0), Changes(l.entries[k..i])) == Some(Core(Past(l, i)))
  }

  ghost predicate Replays(l0: Ledger, l: Ledger) {
    && Held(l0, l)
    && RevisionsOrdered(l)
    && ReplaysTo(l0.world, |l0.entries|, l, |l.entries|)
    && forall i :: |l0.revisions| <= i < |l.revisions| ==>
         l.revisions[i].index >= |l0.entries| && ReplaysTo(l0.world, |l0.entries|, l, l.revisions[i].index)
  }

  lemma SnapshotReplays(l: Ledger, extra: nat)
    requires Sound(l, extra)
    ensures Replays(l, Take(l, Snapshot).value)
  {
    var m := Take(l, Snapshot).value;
    SnapshotHeld(l);
    SnapshotSound(l, extra);
    assert m.entries[|l.entries|..|m.entries|] == [];
    assert m.entries[|l.entries|..] == [];
  }

  lemma ReplaysEnd(w0: World, k: nat, l: Ledger, cs: seq<Change>, m: Ledger)
    requires Extended(l, cs, m) && k <= |l.entries| && ReplaysTo(w0, k, l, |l.entries|)
    requires RedoAll(Core(l.world), cs) == Some(Core(m.world))
    ensures ReplaysTo(w0, k, m, |m.entries|)
  {
    var n, tail := |l.entries|, Tag(cs, l.local);
    assert l.entries[n..] == [] && m.entries[|m.entries|..] == [];
    assert m.entries[k..|m.entries|] == l.entries[k..n] + tail;
    ChangesConcat(l.entries[k..n], tail);
    ChangesTag(cs, l.local);
    RedoConcat(Core(w0), Changes(l.entries[k..n]), cs);
  }

  /** Nothing before index n changed. */
  lemma ReplaysKept(w0: World, k: nat, l: Ledger, m: Ledger, n: nat)
    requires k <= n <= |l.entries| && n <= |m.entries| && m.entries[..n] == l.entries[..n]
    requires ReplaysTo(w0, k, l, n) && Past(m, n) == Past(l, n)
    ensures ReplaysTo(w0, k, m, n)
  {
    assert m.entries[k..n] == m.entries[..n][k..] && l.entries[k..n] == l.entries[..n][k..];
  }

  lemma ExtendedReplays(l0: Ledger, l: Ledger, cs: seq<Change>, m: Ledger)
    requires Replays(l0, l) && Extended(l, cs, m) && RedoAll(Core(l.world), cs) == Some(Core(m.world))
    ensures Replays(l0, m)
  {
    var k := |l0.entries|;
    ExtendedHeld(l0, l, cs, m);
    ReplaysEnd(l0.world, k, l, cs, m);
    forall i | |l0.revisions| <= i < |m.revisions|
      ensures m.revisions[i].index >= k && ReplaysTo(l0.world, k, m, m.revisions[i].index)
    {
      var n := l.revisions[i].index;
      assert m.entries[..n] == l.entries[..n];
      ReplaysKept(l0.world, k, l, m, n);
    }
  }

  lemma RewoundReplays(l0: Ledger, l: Ledger, at: nat, m: Ledger)
    requires Replays(l0, l) && Rewound(l, at, m) && RevisionsOrdered(m) && at > |l0.revisions|
    ensures Replays(l0, m)
  {
    var k := |l0.entries|;
    RewoundHeld(l0, l, at, m);
    forall i | |l0.revisions| <= i <= at
      ensures var n := l.revisions[i].index; k <= n <= |m.entries| && ReplaysTo(l0.world, k, m, n)
    {
      var n := l.revisions[i].index;
      assert i < at ==> n <= l.revisions[at].index;
      assert m.entries[..n] == l.entries[..n];
      ReplaysKept(l0.world, k, l, m, n);
    }
  }

  lemma InnerSnapshotReplays(l0: Ledger, l: Ledger, extra: nat)
    requires Sound(l, extra) && Replays(l0, l)
    ensures Replays(l0, Take(l, Snapshot).value)
  {
    var m := Take(l, Snapshot).value;
    assert m.revisions[..|l0.revisions|] == l.revisions[..|l0.revisions|];
    forall n | |l0.entries| <= n <= |l.entries| && ReplaysTo(l0.world, |l0.entries|, l, n)
      ensures ReplaysTo(l0.world, |l0.entries|, m, n)
    {
      assert Past(m, n) == Past(l, n);
    }
  }

  lemma TakeReplays(l0: Ledger, l: Ledger, s: Step, extra: nat)
    requires Sound(l, extra) && Replays(l0, l) && Take(l, s).Some?
    requires s.Mutate? ==> Undoable(l.world, s.op) && Replayable(l.world, s.op)
    ensures var m := Take(l, s).value; Replays(l0, m) || Gone(l0.nextId, m)
  {
    match s {
      case Mutate(op) =>
        var e := Perform(l.world, op);
        MutateIs(l, op, extra);
        RedoReproducesIff(l.world, op);
        RedoCore(l.world, e.changes);
        ExtendedReplays(l0, l, e.changes, Take(l, s).value);
      case Snapshot => InnerSnapshotReplays(l0, l, extra);
      case RevertTo(id) =>
        var m, at := Take(l, s).value, FirstAtLeast(l.revisions, id);
        RevertSound(l, id, extra);
        if at > |l0.revisions| { RewoundReplays(l0, l, at, m); } else { RewoundHeld(l0, l, at, m); }
    }
  }

  lemma {:induction false} RunReplays(l0: Ledger, l: Ledger, steps: seq<Step>, extra: nat)
    requires Sound(l, extra) && Replays(l0, l) && Run(l, steps).Some?
    requires Throughout(l, steps, Undoable) && Throughout(l, steps, Replayable)
    ensures var m := Run(l, steps).value; Replays(l0, m) || Gone(l0.nextId, m)
    decreases |steps|
  {
    if steps != [] {
      var n := |steps| - 1;
      ThroughoutPrefix(l, steps, Undoable);
      ThroughoutPrefix(l, steps, Replayable);
      RunReplays(l0, l, steps[..n], extra);
      RunSound(l0, l, steps[..n], extra);
      var m := Run(l, steps[..n]).value;
      var x := extra + RunTouches(l, steps[..n]);
      if Replays(l0, m) {
        TakeReplays(l0, m, steps[n], x);
      } else {
        TakeGone(m, steps[n], l0.nextId, x);
      }
    }
  }

  /** MAIN: executing the surviving suffix of the journal on the snapshot's world
      reproduces the live world, logs apart, whatever inner frames were reverted. */
  lemma ReplayReproduces(l: Ledger, steps: seq<Step>, extra: nat)
    requires Sound(l, extra)
    requires var l1 := Take(l, Snapshot).value;
             Run(l1, steps).Some? && Throughout(l1, steps, Undoable) && Throughout(l1, steps, Replayable)
    ensures var l2 := Run(Take(l, Snapshot).value, steps).value;
            Gone(l.nextId, l2) ||
            (|l.entries| <= |l2.entries| &&
             var r := RedoAll(l.world, Changes(l2.entries[|l.entries|..]));
             r.Some? && Core(r.value) == Core(l2.world))
  {
    var l1 := Take(l, Snapshot).value;
    var l2 := Run(l1, steps).value;
    SnapshotReplays(l, extra);
    SnapshotSound(l, extra);
    RunReplays(l, l1, steps, extra);
    if Replays(l, l2) {
      assert l2.entries[|l.entries|..|l2.entries|] == l2.entries[|l.entries|..];
      assert l2.entries[|l2.entries|..] == [];
      RedoCore(l.world, Changes(l2.entries[|l.entries|..]));
    }
  }

  // ----- the copied journal -----

  lemma CopyKeepsChanges(l: Ledger, k: nat)
    requires k <= |l.entries|
    ensures Changes(Copy(l).entries[k..]) == Changes(l.entries[k..])
  {
  }

  /** Executing the surviving suffix of a copy reproduces the live world as well: Execute
      never reads the shard id that a copy loses. */
  lemma CopyReplays(l: Ledger, steps: seq<Step>, extra: nat)
    requires Sound(l, extra)
    requires var l1 := Take(l, Snapshot).value;
             Run(l1, steps).Some? && Throughout(l1, steps, Undoable) && Throughout(l1, steps, Replayable)
    ensures var l2 := Run(Take(l, Snapshot).value, steps).value;
            Gone(l.nextId, l2) ||
            (|l.entries| <= |Copy(l2).entries| &&
             var r := RedoAll(l.world, Changes(Copy(l2).entries[|l.entries|..]));
             r.Some? && Core(r.value) == Core(l2.world))
  {
    ReplayReproduces(l, steps, extra);
    var l2 := Run(Take(l, Snapshot).value, steps).value;
    if !Gone(l.nextId, l2) { CopyKeepsChanges(l2, |l.entries|); }
  }

  lemma {:induction false} ForeignEntriesStay(local: nat, w: World, es: seq<Entry>)
    requires forall i :: 0 <= i < |es| ==> es[i].shard != local
    ensures UndoEntries(local, w, es) == w
    decreases |es|
  {
    if es != [] { ForeignEntriesStay(local, w, es[..|es| - 1]); }
  }

  /** The dropped shard id does matter to a revert: a copy goes back on shard 0 and
      stays where it is on every other shard. */
  lemma CopyReverts(l: Ledger, k: nat)
    requires AllLocal(l) && k <= |l.entries|
    ensures Past(Copy(l), k) == if l.local == 0 then Past(l, k) else l.world
  {
    var c := Copy(l);
    if l.local == 0 {
      assert c.entries[k..] == l.entries[k..];
    } else {
      ForeignEntriesStay(l.local, l.world, c.entries[k..]);
    }
  }
}

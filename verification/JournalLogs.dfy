/** Reverting a log entry slices the log list and lowers the log count (vm/state/journal.go:750-758);
    in every run there is something to slice and to lower. */
module JournalLogs {
  import opened Basics
  import opened EvmWorld
  import opened EvmWorldProofs
  import opened Journal

  function LogsOf(w: World, h: Hash): seq<Log> {
    if h in w.logs then w.logs[h] else []
  }

  function LogEntries(es: seq<Entry>, h: Hash): nat {
    if es == [] then 0
    else LogEntries(es[..|es| - 1], h) + if es[|es| - 1].change == LogChange(h) then 1 else 0
  }

  function AllLogEntries(es: seq<Entry>): nat {
    if es == [] then 0
    else AllLogEntries(es[..|es| - 1]) + if es[|es| - 1].change.LogChange? then 1 else 0
  }

  function LogChanges(cs: seq<Change>, h: Hash): nat {
    if cs == [] then 0 else LogChanges(cs[..|cs| - 1], h) + if cs[|cs| - 1] == LogChange(h) then 1 else 0
  }

  function AllLogChanges(cs: seq<Change>): nat {
    if cs == [] then 0 else AllLogChanges(cs[..|cs| - 1]) + if cs[|cs| - 1].LogChange? then 1 else 0
  }

  /** No more log entries in the journal than logs in the state. */
  ghost predicate LogsCover(l: Ledger) {
    && (forall h :: LogEntries(l.entries, h) <= |LogsOf(l.world, h)|)
    && AllLogEntries(l.entries) <= l.world.logSize
  }

  lemma {:induction false} AppendLogs(l: Ledger, cs: seq<Change>, h: Hash)
    ensures var m := AppendAll(l, cs);
            && m.world == l.world
            && LogEntries(m.entries, h) == LogEntries(l.entries, h) + LogChanges(cs, h)
            && AllLogEntries(m.entries) == AllLogEntries(l.entries) + AllLogChanges(cs)
    decreases |cs|
  {
    if cs != [] {
      var before := AppendAll(l, cs[..|cs| - 1]);
      AppendLogs(l, cs[..|cs| - 1], h);
      assert AppendAll(l, cs).entries[..|before.entries|] == before.entries;
    }
  }

  lemma {:induction false} NoLogChanges(cs: seq<Change>, h: Hash)
    requires forall i :: 0 <= i < |cs| ==> !cs[i].LogChange?
    ensures LogChanges(cs, h) == 0 && AllLogChanges(cs) == 0
  {
    if cs != [] { NoLogChanges(cs[..|cs| - 1], h); }
  }

  /** A mutator that is not AddLog leaves logs alone and journals none. */
  ghost predicate Quiet(w: World, e: Effect) {
    && (e.Done? ==> e.world.logs == w.logs && e.world.logSize == w.logSize)
    && (e.Done? ==> forall i :: 0 <= i < |e.changes| ==> !e.changes[i].LogChange?)
  }

  lemma AccountQuiet(w: World, op: Op)
    requires OnAccount(op)
    ensures Quiet(w, Perform(w, op))
  {
    if op.a in w.accounts || MayCreate(op) {
      var (w1, cs) := GetOrNew(w, op.a);
      LocalShape(w1.accounts[op.a], op);
      var (acc, ds) := Local(w1.accounts[op.a], op);
      assert Perform(w, op) == Done(Put(w1, op.a, acc), cs + ds);
    }
  }

  lemma OtherQuiet(w: World, op: Op)
    requires !OnAccount(op) && !op.AddLog?
    ensures Quiet(w, Perform(w, op))
  {
  }

  lemma PerformLogs(w: World, op: Op, h: Hash)
    requires Perform(w, op).Done?
    ensures var e := Perform(w, op);
            && |LogsOf(e.world, h)| == |LogsOf(w, h)| + LogChanges(e.changes, h)
            && e.world.logSize == w.logSize + AllLogChanges(e.changes)
  {
    var e := Perform(w, op);
    if op.AddLog? {
      assert e.changes[..0] == [];
    } else {
      if OnAccount(op) { AccountQuiet(w, op); } else { OtherQuiet(w, op); }
      NoLogChanges(e.changes, h);
    }
  }

  /** The slice and the decrement of one reverted entry are in range. */
  ghost predicate SafeRetreat(l: Ledger)
    requires l.entries != []
  {
    var e := l.entries[|l.entries| - 1];
    e.shard == l.local && e.change.LogChange? ==> LogsOf(l.world, e.change.txHash) != [] && l.world.logSize > 0
  }

  lemma RetreatLogs(l: Ledger)
    requires LogsCover(l) && l.entries != []
    ensures SafeRetreat(l) && LogsCover(Retreat(l))
  {
    var m, e := Retreat(l), l.entries[|l.entries| - 1];
    if e.change.LogChange? {
      assert LogEntries(l.entries, e.change.txHash) <= |LogsOf(l.world, e.change.txHash)|;
    }
    forall h ensures LogEntries(m.entries, h) <= |LogsOf(m.world, h)| {
      assert LogEntries(l.entries, h) <= |LogsOf(l.world, h)|;
    }
  }

  ghost predicate SafeUnwind(l: Ledger, k: nat)
    requires k <= |l.entries|
    decreases |l.entries|
  {
    |l.entries| == k || (SafeRetreat(l) && SafeUnwind(Retreat(l), k))
  }

  lemma {:induction false} UnwindLogs(l: Ledger, k: nat)
    requires LogsCover(l) && k <= |l.entries|
    ensures SafeUnwind(l, k) && LogsCover(Unwind(l, k))
    decreases |l.entries|
  {
    if |l.entries| != k {
      RetreatLogs(l);
      UnwindLogs(Retreat(l), k);
    }
  }

  lemma TakeLogs(l: Ledger, s: Step)
    requires LogsCover(l) && Take(l, s).Some?
    ensures LogsCover(Take(l, s).value)
  {
    match s {
      case Mutate(op) =>
        var e := Perform(l.world, op);
        forall h
          ensures LogEntries(AppendAll(l, e.changes).entries, h) <= |LogsOf(e.world, h)|
          ensures AllLogEntries(AppendAll(l, e.changes).entries) <= e.world.logSize
        {
          assert LogEntries(l.entries, h) <= |LogsOf(l.world, h)|;
          AppendLogs(l, e.changes, h);
          PerformLogs(l.world, op, h);
        }
        AppendLogs(l, e.changes, ZERO);
        PerformLogs(l.world, op, ZERO);
      case Snapshot =>
      case RevertTo(id) =>
        UnwindLogs(l, l.revisions[FirstAtLeast(l.revisions, id)].index);
    }
  }

  lemma {:induction false} RunLogs(l: Ledger, steps: seq<Step>)
    requires LogsCover(l) && Run(l, steps).Some?
    ensures LogsCover(Run(l, steps).value)
    decreases |steps|
  {
    if steps != [] {
      RunLogs(l, steps[..|steps| - 1]);
      TakeLogs(Run(l, steps[..|steps| - 1]).value, steps[|steps| - 1]);
    }
  }

  /** MAIN: after any run, whatever its mutators, reverting to a valid snapshot never slices
      an empty log list nor lowers a log count of zero. */
  lemma LogRevertNeverPanics(l: Ledger, steps: seq<Step>, id: nat)
    requires LogsCover(l) && Run(l, steps).Some? && Reverts(Run(l, steps).value, id)
    ensures var m := Run(l, steps).value;
            SafeUnwind(m, m.revisions[FirstAtLeast(m.revisions, id)].index)
  {
    RunLogs(l, steps);
    var m := Run(l, steps).value;
    UnwindLogs(m, m.revisions[FirstAtLeast(m.revisions, id)].index);
  }
}

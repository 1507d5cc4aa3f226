/** The journal as a transition system: mutators, snapshots and reverts in any order
    (vm/state/journal.go, vm/state/statedb.go). */
module Journal {
  import opened Basics
  import opened EvmWorld

  datatype Entry = Entry(change: Change, shard: nat)
  datatype Revision = Revision(id: nat, index: nat)

  /** `local` is the shard this node runs; a revert undoes only entries of that shard. */
  datatype Ledger = Ledger(
    local: nat,
    world: World,
    entries: seq<Entry>,
    dirties: map<Address, int>,
    revisions: seq<Revision>,
    nextId: nat)

  datatype Step = Mutate(op: Op) | Snapshot | RevertTo(id: nat)

  function Count(m: map<Address, int>, a: Address): int {
    if a in m then m[a] else 0
  }

  function Bump(m: map<Address, int>, a: Address): map<Address, int> {
    m[a := Count(m, a) + 1]
  }

  /** The decrement of journal.revert, which deletes a zero. */
  function Drop(m: map<Address, int>, a: Address): map<Address, int> {
    if Count(m, a) == 1 then m - {a} else m[a := Count(m, a) - 1]
  }

  /** journal.append, and touchChange's second count for ripemd. */
  function Append(l: Ledger, c: Change): Ledger {
    var once := match Dirtied(c) case None => l.dirties case Some(a) => Bump(l.dirties, a);
    l.(entries := l.entries + [Entry(c, l.local)],
       dirties := if c == Touch(RIPEMD) then Bump(once, RIPEMD) else once)
  }

  function AppendAll(l: Ledger, cs: seq<Change>): Ledger {
    if cs == [] then l else Append(AppendAll(l, cs[..|cs| - 1]), cs[|cs| - 1])
  }

  function UndoEntry(local: nat, w: World, e: Entry): World {
    if e.shard == local then Undo(w, e.change) else w
  }

  function Retreat(l: Ledger): Ledger
    requires l.entries != []
  {
    var e := l.entries[|l.entries| - 1];
    l.(world := UndoEntry(l.local, l.world, e),
       dirties := match Dirtied(e.change) case None => l.dirties case Some(a) => Drop(l.dirties, a),
       entries := l.entries[..|l.entries| - 1])
  }

  /** journal.revert(s, k): undo from the end down to index k. */
  function Unwind(l: Ledger, k: nat): (r: Ledger)
    requires k <= |l.entries|
    ensures |r.entries| == k && r.revisions == l.revisions && r.nextId == l.nextId && r.local == l.local
    decreases |l.entries|
  {
    if |l.entries| == k then l else Unwind(Retreat(l), k)
  }

  /** sort.Search over the revision ids. */
  function FirstAtLeast(revs: seq<Revision>, id: nat): (i: nat)
    ensures i <= |revs|
    ensures i < |revs| ==> revs[i].id >= id
    ensures forall j :: 0 <= j < i ==> revs[j].id < id
  {
    if revs == [] || revs[0].id >= id then 0 else FirstAtLeast(revs[1..], id) + 1
  }

  predicate Reverts(l: Ledger, id: nat) {
    var i := FirstAtLeast(l.revisions, id);
    i < |l.revisions| && l.revisions[i].id == id && l.revisions[i].index <= |l.entries|
  }

  /** None is a panic. */
  function Take(l: Ledger, s: Step): Option<Ledger> {
    match s
    case Mutate(op) => (
      match Perform(l.world, op)
      case Panic => None
      case Done(w, cs) => Some(AppendAll(l, cs).(world := w)))
    case Snapshot =>
      Some(l.(revisions := l.revisions + [Revision(l.nextId, |l.entries|)], nextId := l.nextId + 1))
    case RevertTo(id) =>
      if !Reverts(l, id) then None
      else
        var i := FirstAtLeast(l.revisions, id);
        Some(Unwind(l, l.revisions[i].index).(revisions := l.revisions[..i]))
  }

  function Run(l: Ledger, steps: seq<Step>): Option<Ledger> {
    if steps == [] then Some(l)
    else match Run(l, steps[..|steps| - 1])
      case None => None
      case Some(m) => Take(m, steps[|steps| - 1])
  }

  /** Every mutator of the run met `p` in the world it found. */
  ghost predicate Throughout(l: Ledger, steps: seq<Step>, p: (World, Op) -> bool) {
    forall i :: 0 <= i < |steps| && steps[i].Mutate? ==>
      (match Run(l, steps[..i]) case None => true case Some(m) => p(m.world, steps[i].op))
  }

  function Changes(es: seq<Entry>): (cs: seq<Change>)
    ensures |cs| == |es|
  {
    seq(|es|, i requires 0 <= i < |es| => es[i].change)
  }

  function UndoEntries(local: nat, w: World, es: seq<Entry>): World
    decreases |es|
  {
    if es == [] then w else UndoEntries(local, UndoEntry(local, w, es[|es| - 1]), es[..|es| - 1])
  }

  /** How often the entries dirtied an address. */
  function DirtyEntries(es: seq<Entry>, a: Address): nat {
    if es == [] then 0
    else DirtyEntries(es[..|es| - 1], a) + (if Dirtied(es[|es| - 1].change) == Some(a) then 1 else 0)
  }

  /** Touches of ripemd a step journals; each leaves one count behind for good. */
  function Touches(cs: seq<Change>): nat {
    if cs == [] then 0
    else Touches(cs[..|cs| - 1]) + (if cs[|cs| - 1] == Touch(RIPEMD) then 1 else 0)
  }

  function StepTouches(l: Ledger, s: Step): nat {
    if s.Mutate? && Perform(l.world, s.op).Done? then Touches(Perform(l.world, s.op).changes) else 0
  }

  function RunTouches(l: Ledger, steps: seq<Step>): nat {
    if steps == [] then 0
    else RunTouches(l, steps[..|steps| - 1]) +
         (match Run(l, steps[..|steps| - 1]) case None => 0 case Some(m) => StepTouches(m, steps[|steps| - 1]))
  }

  /** `extra` is the number of ripemd touches so far. */
  ghost predicate CountsExact(l: Ledger, extra: nat) {
    && (forall a :: Count(l.dirties, a) == DirtyEntries(l.entries, a) + (if a == RIPEMD then extra else 0))
    && (forall a :: a in l.dirties ==> l.dirties[a] != 0)
  }

  ghost predicate AllLocal(l: Ledger) {
    forall i :: 0 <= i < |l.entries| ==> l.entries[i].shard == l.local
  }

  /** Strictly increasing ids below nextId, non-decreasing indices into the entries. */
  ghost predicate RevisionsOrdered(l: Ledger) {
    && (forall i, j :: 0 <= i < j < |l.revisions| ==>
          l.revisions[i].id < l.revisions[j].id && l.revisions[i].index <= l.revisions[j].index)
    && (forall i :: 0 <= i < |l.revisions| ==> l.revisions[i].id < l.nextId && l.revisions[i].index <= |l.entries|)
  }

  /** The world a revert to index k would leave. */
  function Past(l: Ledger, k: nat): World
    requires k <= |l.entries|
  {
    UndoEntries(l.local, l.world, l.entries[k..])
  }

  /** The invariant of every run. */
  ghost predicate Sound(l: Ledger, extra: nat) {
    && Valid(l.world)
    && AllLocal(l)
    && CountsExact(l, extra)
    && RevisionsOrdered(l)
    && (forall i :: 0 <= i < |l.revisions| ==> Valid(Past(l, l.revisions[i].index)))
  }

  /** journal.Copy: entry.copy() drops the shard id. */
  function Copy(l: Ledger): Ledger {
    l.(entries := seq(|l.entries|, i requires 0 <= i < |l.entries| => l.entries[i].(shard := 0)))
  }
}

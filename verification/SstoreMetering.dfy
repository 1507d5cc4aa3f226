/** Net-metered SSTORE (vm/gas_table.go:138-167 and 184-224, vm/params/protocol_params.go:52-64):
    gas and refund counter over any sequence of writes. */
module SstoreMetering {
  import opened Basics

  type Slot = nat
  type Value = nat
  const ZERO: Value := 0
  const SENTRY: nat := 2300

  datatype Schedule = Schedule(
    noop: nat, init: nat, clean: nat, dirty: nat,
    clearRefund: nat, resetRefund: nat, resetClearRefund: nat)

  const EIP1283 := Schedule(200, 20000, 5000, 200, 15000, 4800, 19800)
  /** The reset refunds are differences from SloadGasEIP2200. */
  const EIP2200 := Schedule(800, 20000, 5000, 800, 15000, 5000 - 800, 20000 - 800)

  predicate Known(s: Schedule) {
    s == EIP1283 || s == EIP2200
  }

  // ----- one write -----

  function Gas(s: Schedule, original: Value, current: Value, value: Value): nat {
    if current == value then s.noop
    else if original == current then (if original == ZERO then s.init else s.clean)
    else s.dirty
  }

  /** What SubRefund takes. */
  function Taken(s: Schedule, original: Value, current: Value, value: Value): nat {
    if current != value && original != current && original != ZERO && current == ZERO then s.clearRefund else 0
  }

  /** What AddRefund adds. */
  function Added(s: Schedule, original: Value, current: Value, value: Value): nat {
    if current == value then 0
    else if original == current then (if original != ZERO && value == ZERO then s.clearRefund else 0)
    else
      (if original != ZERO && current != ZERO && value == ZERO then s.clearRefund else 0) +
      (if original == value then (if original == ZERO then s.resetClearRefund else s.resetRefund) else 0)
  }

  // ----- runs -----

  datatype Write = Write(slot: Slot, value: Value)

  /** `current` holds the written slots; any other slot still has its original value. */
  datatype Meter = Meter(current: map<Slot, Value>, refund: int, gas: nat)

  function Now(original: Slot -> Value, m: Meter, k: Slot): Value {
    if k in m.current then m.current[k] else original(k)
  }

  function Step(s: Schedule, original: Slot -> Value, m: Meter, w: Write): Meter {
    var o, c := original(w.slot), Now(original, m, w.slot);
    Meter(m.current[w.slot := w.value],
          m.refund - Taken(s, o, c, w.value) + Added(s, o, c, w.value),
          m.gas + Gas(s, o, c, w.value))
  }

  function Run(s: Schedule, original: Slot -> Value, m: Meter, ws: seq<Write>): Meter {
    if ws == [] then m else Step(s, original, Run(s, original, m, ws[..|ws| - 1]), ws[|ws| - 1])
  }

  // ----- potentials -----

  /** What a slot's history has cost beyond its no-op price, seen from its ends alone. */
  function Potential(s: Schedule, o: Value, c: Value): int {
    if c == o then 0
    else if o == ZERO then s.init - s.noop
    else s.clean - s.noop - (if c == ZERO then s.clearRefund else 0)
  }

  /** The refund that a slot cleared to zero may have to give back. */
  function Owed(s: Schedule, o: Value, c: Value): nat {
    if o != ZERO && c == ZERO then s.clearRefund else 0
  }

  function SumPotential(s: Schedule, original: Slot -> Value, m: Meter, slots: seq<Slot>): int {
    if slots == [] then 0
    else SumPotential(s, original, m, slots[1..]) + Potential(s, original(slots[0]), Now(original, m, slots[0]))
  }

  function SumOwed(s: Schedule, original: Slot -> Value, m: Meter, slots: seq<Slot>): nat {
    if slots == [] then 0
    else SumOwed(s, original, m, slots[1..]) + Owed(s, original(slots[0]), Now(original, m, slots[0]))
  }

  ghost predicate Distinct(slots: seq<Slot>) {
    forall i, j :: 0 <= i < j < |slots| ==> slots[i] != slots[j]
  }

  /** Only the written slot's terms change. */
  lemma {:induction false} SumsAfterWrite(s: Schedule, original: Slot -> Value, m: Meter, w: Write, slots: seq<Slot>)
    requires Distinct(slots)
    ensures var n := Step(s, original, m, w);
            var o, c := original(w.slot), Now(original, m, w.slot);
            && SumPotential(s, original, n, slots) - SumPotential(s, original, m, slots)
               == (if w.slot in slots then Potential(s, o, w.value) - Potential(s, o, c) else 0)
            && SumOwed(s, original, n, slots) - SumOwed(s, original, m, slots)
               == (if w.slot in slots then Owed(s, o, w.value) - Owed(s, o, c) else 0)
  {
    if slots != [] {
      SumsAfterWrite(s, original, m, w, slots[1..]);
    }
  }

  lemma {:induction false} OwedAtMost(s: Schedule, original: Slot -> Value, m: Meter, slots: seq<Slot>, k: Slot)
    requires k in slots
    ensures Owed(s, original(k), Now(original, m, k)) <= SumOwed(s, original, m, slots)
  {
    if slots[0] != k { OwedAtMost(s, original, m, slots[1..], k); }
  }

  lemma WriteBalances(s: Schedule, o: Value, c: Value, v: Value)
    requires Known(s)
    ensures Gas(s, o, c, v) + Taken(s, o, c, v) - Added(s, o, c, v) == s.noop + Potential(s, o, v) - Potential(s, o, c)
    ensures Added(s, o, c, v) - Taken(s, o, c, v) >= Owed(s, o, v) - Owed(s, o, c)
    ensures Taken(s, o, c, v) <= Owed(s, o, c)
    ensures Added(s, o, c, v) <= 19800
  {
  }

  lemma StepCost(s: Schedule, original: Slot -> Value, m: Meter, w: Write, slots: seq<Slot>)
    requires Known(s) && Distinct(slots) && w.slot in slots
    ensures var n := Step(s, original, m, w);
            && (n.gas - m.gas) - (n.refund - m.refund)
               == s.noop + SumPotential(s, original, n, slots) - SumPotential(s, original, m, slots)
            && n.refund - m.refund >= SumOwed(s, original, n, slots) - SumOwed(s, original, m, slots)
            && n.refund <= m.refund + 19800
  {
    SumsAfterWrite(s, original, m, w, slots);
    WriteBalances(s, original(w.slot), Now(original, m, w.slot), w.value);
  }

  lemma Times(x: int, n: nat)
    ensures x * (n + 1) == x * n + x
  {
  }

  /** Every write of the list goes to one of the slots. */
  predicate Covers(slots: seq<Slot>, ws: seq<Write>) {
    forall i :: 0 <= i < |ws| ==> ws[i].slot in slots
  }

  /** MAIN: over any writes to any slots, gas charged minus net refund is the no-op price
      of each write plus a potential of each slot's original and present value alone; and
      the counter never falls below what cleared slots may still take back. */
  lemma {:induction false} NetCost(s: Schedule, original: Slot -> Value, m: Meter, ws: seq<Write>, slots: seq<Slot>)
    requires Known(s) && Distinct(slots) && Covers(slots, ws)
    requires m.refund >= SumOwed(s, original, m, slots)
    ensures var n := Run(s, original, m, ws);
            && (n.gas - m.gas) - (n.refund - m.refund)
               == s.noop * |ws| + SumPotential(s, original, n, slots) - SumPotential(s, original, m, slots)
            && n.refund >= SumOwed(s, original, n, slots)
            && n.refund <= m.refund + 19800 * |ws|
    decreases |ws|
  {
    if ws != [] {
      var i := |ws| - 1;
      NetCost(s, original, m, ws[..i], slots);
      StepCost(s, original, Run(s, original, m, ws[..i]), ws[i], slots);
      Times(s.noop, i);
    }
  }

  /** MAIN: so at every write the counter covers what SubRefund takes: it never panics. */
  lemma SubRefundCovered(s: Schedule, original: Slot -> Value, m: Meter, ws: seq<Write>, slots: seq<Slot>, w: Write)
    requires Known(s) && Distinct(slots) && w.slot in slots && Covers(slots, ws)
    requires m.refund >= SumOwed(s, original, m, slots)
    ensures var n := Run(s, original, m, ws);
            n.refund >= Taken(s, original(w.slot), Now(original, n, w.slot), w.value)
  {
    var n := Run(s, original, m, ws);
    NetCost(s, original, m, ws, slots);
    OwedAtMost(s, original, n, slots, w.slot);
    WriteBalances(s, original(w.slot), Now(original, n, w.slot), w.value);
  }

  /** The same for write number i of a list. */
  lemma WriteCovered(s: Schedule, original: Slot -> Value, m: Meter, ws: seq<Write>, slots: seq<Slot>, i: nat)
    requires Known(s) && Distinct(slots) && Covers(slots, ws) && i < |ws|
    requires m.refund >= SumOwed(s, original, m, slots)
    ensures var n := Run(s, original, m, ws[..i]);
            && 0 <= n.refund <= m.refund + 19800 * i
            && n.refund >= Taken(s, original(ws[i].slot), Now(original, n, ws[i].slot), ws[i].value)
            && Run(s, original, m, ws[..i + 1]) == Step(s, original, n, ws[i])
  {
    NetCost(s, original, m, ws[..i], slots);
    SubRefundCovered(s, original, m, ws[..i], slots, ws[i]);
    assert ws[..i + 1][..i] == ws[..i];
  }

  /** At the start of a transaction nothing is owed. */
  lemma {:induction false} NothingOwedAtStart(s: Schedule, original: Slot -> Value, refund: nat, slots: seq<Slot>)
    ensures SumOwed(s, original, Meter(map[], refund, 0), slots) == 0
    ensures SumPotential(s, original, Meter(map[], refund, 0), slots) == 0
  {
    if slots != [] { NothingOwedAtStart(s, original, refund, slots[1..]); }
  }

  // ----- gas and refund, each by itself -----

  /** What a slot holds after the writes: the last one to it, or what it held before. */
  function Standing(original: Slot -> Value, m: Meter, ws: seq<Write>, k: Slot): Value {
    if ws == [] then Now(original, m, k)
    else if ws[|ws| - 1].slot == k then ws[|ws| - 1].value
    else Standing(original, m, ws[..|ws| - 1], k)
  }

  lemma {:induction false} StandingIsNow(s: Schedule, original: Slot -> Value, m: Meter, ws: seq<Write>, k: Slot)
    ensures Now(original, Run(s, original, m, ws), k) == Standing(original, m, ws, k)
  {
    if ws != [] { StandingIsNow(s, original, m, ws[..|ws| - 1], k); }
  }

  /** A write that takes a slot away from its original value, or back to it. */
  predicate Departs(o: Value, c: Value, v: Value) {
    c == o && v != o
  }

  predicate Returns(o: Value, c: Value, v: Value) {
    c != o && v == o
  }

  /** How many writes depart, or return, at slots whose original value is zero, or is not. */
  function Tally(original: Slot -> Value, m: Meter, ws: seq<Write>, zero: bool, departing: bool): nat {
    if ws == [] then 0
    else
      var front, w := ws[..|ws| - 1], ws[|ws| - 1];
      var o, c := original(w.slot), Standing(original, m, front, w.slot);
      Tally(original, m, front, zero, departing) +
      if (o == ZERO) == zero && (if departing then Departs(o, c, w.value) else Returns(o, c, w.value)) then 1 else 0
  }

  lemma WriteClosed(s: Schedule, o: Value, c: Value, v: Value)
    requires Known(s)
    ensures Gas(s, o, c, v) == s.noop + if Departs(o, c, v) then (if o == ZERO then s.init else s.clean) - s.noop else 0
    ensures Added(s, o, c, v) - Taken(s, o, c, v) == Owed(s, o, v) - Owed(s, o, c) +
            if Returns(o, c, v) then (if o == ZERO then s.resetClearRefund else s.resetRefund) else 0
    ensures Taken(s, o, c, v) == if Owed(s, o, v) < Owed(s, o, c) then Owed(s, o, c) - Owed(s, o, v) else 0
  {
  }

  lemma TallyNext(x: int, original: Slot -> Value, m: Meter, ws: seq<Write>, zero: bool, departing: bool)
    requires ws != []
    ensures var w := ws[|ws| - 1];
            var o, c := original(w.slot), Standing(original, m, ws[..|ws| - 1], w.slot);
            var hit := (o == ZERO) == zero && (if departing then Departs(o, c, w.value) else Returns(o, c, w.value));
            x * Tally(original, m, ws, zero, departing) ==
            x * Tally(original, m, ws[..|ws| - 1], zero, departing) + if hit then x else 0
  {
    Times(x, Tally(original, m, ws[..|ws| - 1], zero, departing));
  }

  /** MAIN: over any writes, gas is the no-op price of each and the surcharge of each
      departure; what the counter gained is the clearing refund of each slot cleared now and
      the reset refund of each return. */
  lemma {:induction false} GasAndRefund(s: Schedule, original: Slot -> Value, m: Meter, ws: seq<Write>,
                                        slots: seq<Slot>)
    requires Known(s) && Distinct(slots) && Covers(slots, ws)
    ensures var n := Run(s, original, m, ws);
            && n.gas == m.gas + s.noop * |ws| + (s.init - s.noop) * Tally(original, m, ws, true, true)
                        + (s.clean - s.noop) * Tally(original, m, ws, false, true)
            && n.refund == m.refund + SumOwed(s, original, n, slots) - SumOwed(s, original, m, slots)
                           + s.resetClearRefund * Tally(original, m, ws, true, false)
                           + s.resetRefund * Tally(original, m, ws, false, false)
    decreases |ws|
  {
    if ws != [] {
      var front, w := ws[..|ws| - 1], ws[|ws| - 1];
      var n := Run(s, original, m, front);
      GasAndRefund(s, original, m, front, slots);
      StandingIsNow(s, original, m, front, w.slot);
      WriteClosed(s, original(w.slot), Now(original, n, w.slot), w.value);
      SumsAfterWrite(s, original, n, w, slots);
      Times(s.noop, |front|);
      TallyNext(s.init - s.noop, original, m, ws, true, true);
      TallyNext(s.clean - s.noop, original, m, ws, false, true);
      TallyNext(s.resetClearRefund, original, m, ws, true, false);
      TallyNext(s.resetRefund, original, m, ws, false, false);
    }
  }

  // ----- call frames that may be reverted -----

  /** `Back(k)` reverts to the k-th snapshot still valid; gas already charged stays charged. */
  datatype Action = Store(w: Write) | Snap | Back(k: nat)

  /** `kept` are the writes no revert has undone, `marks` how many there were at each
      snapshot; `saved` is what the journal would restore. */
  datatype Frames = Frames(meter: Meter, saved: seq<Meter>, kept: seq<Write>, marks: seq<nat>)

  predicate Legal(f: Frames, a: Action) {
    a.Back? ==> a.k < |f.saved| && a.k < |f.marks| && f.marks[a.k] <= |f.kept|
  }

  /** An illegal revert panics; nothing follows it. */
  function Act(s: Schedule, original: Slot -> Value, f: Frames, a: Action): Frames {
    if !Legal(f, a) then f
    else match a
      case Store(w) => f.(meter := Step(s, original, f.meter, w), kept := f.kept + [w])
      case Snap => f.(saved := f.saved + [f.meter], marks := f.marks + [|f.kept|])
      case Back(k) =>
        Frames(f.saved[k].(gas := f.meter.gas), f.saved[..k], f.kept[..f.marks[k]], f.marks[..k])
  }

  function Play(s: Schedule, original: Slot -> Value, f: Frames, acts: seq<Action>): Frames {
    if acts == [] then f else Act(s, original, Play(s, original, f, acts[..|acts| - 1]), acts[|acts| - 1])
  }

  /** Equal slots and refund; gas may differ. */
  predicate Same(m: Meter, n: Meter) {
    m.current == n.current && m.refund == n.refund
  }

  /** Every snapshot holds what the writes kept up to its mark would have left. */
  ghost predicate SavedAsIfKept(s: Schedule, original: Slot -> Value, m: Meter, saved: seq<Meter>, marks: seq<nat>,
                                kept: seq<Write>)
  {
    && |saved| == |marks|
    && (forall j, k :: 0 <= j < k < |marks| ==> marks[j] <= marks[k])
    && (forall k :: 0 <= k < |marks| ==> marks[k] <= |kept|)
    && (forall k :: 0 <= k < |marks| ==> Same(saved[k], Run(s, original, m, kept[..marks[k]])))
  }

  /** Slots and refund are what the kept writes alone would have left, now and at every
      snapshot. */
  ghost predicate AsIfKept(s: Schedule, original: Slot -> Value, m: Meter, f: Frames) {
    Same(f.meter, Run(s, original, m, f.kept)) && SavedAsIfKept(s, original, m, f.saved, f.marks, f.kept)
  }

  lemma SavedExtend(s: Schedule, original: Slot -> Value, m: Meter, saved: seq<Meter>, marks: seq<nat>,
                    kept: seq<Write>, w: Write)
    requires SavedAsIfKept(s, original, m, saved, marks, kept)
    ensures SavedAsIfKept(s, original, m, saved, marks, kept + [w])
  {
    forall k | 0 <= k < |marks| ensures Same(saved[k], Run(s, original, m, (kept + [w])[..marks[k]])) {
      assert (kept + [w])[..marks[k]] == kept[..marks[k]];
    }
  }

  lemma SavedCut(s: Schedule, original: Slot -> Value, m: Meter, saved: seq<Meter>, marks: seq<nat>,
                 kept: seq<Write>, k: nat)
    requires SavedAsIfKept(s, original, m, saved, marks, kept) && k < |marks|
    ensures SavedAsIfKept(s, original, m, saved[..k], marks[..k], kept[..marks[k]])
  {
    forall j | 0 <= j < k ensures Same(saved[..k][j], Run(s, original, m, kept[..marks[k]][..marks[..k][j]])) {
      assert kept[..marks[k]][..marks[j]] == kept[..marks[j]];
    }
  }

  lemma SavedSnap(s: Schedule, original: Slot -> Value, m: Meter, f: Frames)
    requires AsIfKept(s, original, m, f)
    ensures AsIfKept(s, original, m, Act(s, original, f, Snap))
  {
    var g := Act(s, original, f, Snap);
    forall k | 0 <= k < |g.marks| ensures Same(g.saved[k], Run(s, original, m, g.kept[..g.marks[k]])) {
      if k == |f.marks| { assert f.kept[..|f.kept|] == f.kept; }
    }
  }

  lemma RunExtend(s: Schedule, original: Slot -> Value, m: Meter, ws: seq<Write>, w: Write)
    ensures Run(s, original, m, ws + [w]) == Step(s, original, Run(s, original, m, ws), w)
  {
    assert (ws + [w])[..|ws|] == ws;
  }

  lemma StepSame(s: Schedule, original: Slot -> Value, m: Meter, n: Meter, w: Write)
    requires Same(m, n)
    ensures Same(Step(s, original, m, w), Step(s, original, n, w))
  {
  }

  lemma StoreAsIfKept(s: Schedule, original: Slot -> Value, m: Meter, f: Frames, w: Write)
    requires AsIfKept(s, original, m, f)
    ensures AsIfKept(s, original, m, Act(s, original, f, Store(w)))
  {
    RunExtend(s, original, m, f.kept, w);
    StepSame(s, original, f.meter, Run(s, original, m, f.kept), w);
    SavedExtend(s, original, m, f.saved, f.marks, f.kept, w);
  }

  lemma BackAsIfKept(s: Schedule, original: Slot -> Value, m: Meter, f: Frames, k: nat)
    requires AsIfKept(s, original, m, f) && Legal(f, Back(k))
    ensures AsIfKept(s, original, m, Act(s, original, f, Back(k)))
  {
    SavedCut(s, original, m, f.saved, f.marks, f.kept, k);
  }

  /** Over any interleaving of writes, snapshots and reverts, a revert takes slots and
      refund back to what the surviving writes alone would have left. */
  lemma {:induction false} PlayAsIfKept(s: Schedule, original: Slot -> Value, m: Meter, f: Frames, acts: seq<Action>)
    requires AsIfKept(s, original, m, f)
    ensures AsIfKept(s, original, m, Play(s, original, f, acts))
    decreases |acts|
  {
    if acts != [] {
      var i := |acts| - 1;
      PlayAsIfKept(s, original, m, f, acts[..i]);
      var g := Play(s, original, f, acts[..i]);
      match acts[i] {
        case Store(w) => StoreAsIfKept(s, original, m, g, w);
        case Snap => SavedSnap(s, original, m, g);
        case Back(k) =>
          if Legal(g, Back(k)) { BackAsIfKept(s, original, m, g, k); }
      }
    }
  }

  predicate AllIn(slots: seq<Slot>, acts: seq<Action>) {
    forall i :: 0 <= i < |acts| && acts[i].Store? ==> acts[i].w.slot in slots
  }

  lemma {:induction false} KeptIn(s: Schedule, original: Slot -> Value, f: Frames, acts: seq<Action>, slots: seq<Slot>)
    requires Covers(slots, f.kept) && AllIn(slots, acts)
    ensures var g := Play(s, original, f, acts); Covers(slots, g.kept) && |g.kept| <= |f.kept| + |acts|
    decreases |acts|
  {
    if acts != [] { KeptIn(s, original, f, acts[..|acts| - 1], slots); }
  }

  lemma {:induction false} SameSums(s: Schedule, original: Slot -> Value, m: Meter, n: Meter, slots: seq<Slot>)
    requires Same(m, n)
    ensures SumOwed(s, original, m, slots) == SumOwed(s, original, n, slots)
    ensures SumPotential(s, original, m, slots) == SumPotential(s, original, n, slots)
  {
    if slots != [] { SameSums(s, original, m, n, slots[1..]); }
  }

  function Begin(m: Meter): Frames {
    Frames(m, [], [], [])
  }

  /** MAIN: whatever was written, snapshotted and reverted before, the counter covers what
      SubRefund takes for the next write; it stays below the start plus 19800 per action;
      and slots, refund and net refund are those of the surviving writes. */
  lemma RevertsStayCovered(s: Schedule, original: Slot -> Value, m: Meter, acts: seq<Action>,
                           slots: seq<Slot>, w: Write)
    requires Known(s) && Distinct(slots) && w.slot in slots && AllIn(slots, acts)
    requires m.refund >= SumOwed(s, original, m, slots)
    ensures var f := Play(s, original, Begin(m), acts);
            && f.meter.refund >= Taken(s, original(w.slot), Now(original, f.meter, w.slot), w.value)
            && 0 <= f.meter.refund <= m.refund + 19800 * |acts|
            && Same(f.meter, Run(s, original, m, f.kept))
            && f.meter.refund - m.refund
               == Run(s, original, m, f.kept).gas - m.gas - s.noop * |f.kept|
                  - SumPotential(s, original, f.meter, slots) + SumPotential(s, original, m, slots)
  {
    var f := Play(s, original, Begin(m), acts);
    PlayAsIfKept(s, original, m, Begin(m), acts);
    KeptIn(s, original, Begin(m), acts, slots);
    NetCost(s, original, m, f.kept, slots);
    SubRefundCovered(s, original, m, f.kept, slots, w);
    SameSums(s, original, f.meter, Run(s, original, m, f.kept), slots);
    Multiples(|f.kept|, |acts|);
  }

  lemma Multiples(a: nat, b: nat)
    requires a <= b
    ensures 19800 * a <= 19800 * b
  {
  }

  /** The true counter fits 64 bits after every action. */
  ghost predicate Fits(s: Schedule, original: Slot -> Value, m: Meter, acts: seq<Action>) {
    forall i :: 0 <= i <= |acts| ==> Play(s, original, Begin(m), acts[..i]).meter.refund < TWO64
  }

  /** Every revert goes to a snapshot that is still valid. */
  ghost predicate AllLegal(s: Schedule, original: Slot -> Value, m: Meter, acts: seq<Action>) {
    forall i :: 0 <= i < |acts| ==> Legal(Play(s, original, Begin(m), acts[..i]), acts[i])
  }

  lemma LegalNext(s: Schedule, original: Slot -> Value, m: Meter, acts: seq<Action>, i: nat)
    requires i < |acts| && AllLegal(s, original, m, acts[..i])
    requires Legal(Play(s, original, Begin(m), acts[..i]), acts[i])
    ensures AllLegal(s, original, m, acts[..i + 1])
  {
    var more := acts[..i + 1];
    forall j | 0 <= j < |more| ensures Legal(Play(s, original, Begin(m), more[..j]), more[j]) {
      assert more[..j] == acts[..j];
      if j < i { assert acts[..i][..j] == acts[..j] && acts[..i][j] == more[j]; }
    }
  }

  predicate ShapeOk(f: Frames) {
    |f.marks| == |f.saved| && forall k :: 0 <= k < |f.marks| ==> f.marks[k] <= |f.kept|
  }

  predicate Covered(s: Schedule, original: Slot -> Value, m: Meter, a: Action) {
    a.Store? ==> m.refund >= Taken(s, original(a.w.slot), Now(original, m, a.w.slot), a.w.value)
  }

  lemma StepReady(s: Schedule, original: Slot -> Value, m: Meter, acts: seq<Action>, i: nat, slots: seq<Slot>)
    requires Known(s) && Distinct(slots) && AllIn(slots, acts) && i < |acts|
    requires m.refund >= SumOwed(s, original, m, slots) && Fits(s, original, m, acts)
    ensures var f := Play(s, original, Begin(m), acts[..i]);
            && ShapeOk(f) && Covered(s, original, f.meter, acts[i])
            && Play(s, original, Begin(m), acts[..i + 1]) == Act(s, original, f, acts[i])
            && Act(s, original, f, acts[i]).meter.refund < TWO64
  {
    assert acts[..i + 1][..i] == acts[..i];
    PlayAsIfKept(s, original, m, Begin(m), acts[..i]);
    if acts[i].Store? { RevertsStayCovered(s, original, m, acts[..i], slots, acts[i].w); }
  }

  /** 19800 per action is room enough. */
  lemma RoomFits(s: Schedule, original: Slot -> Value, m: Meter, acts: seq<Action>, slots: seq<Slot>)
    requires Known(s) && Distinct(slots) && AllIn(slots, acts) && slots != []
    requires m.refund >= SumOwed(s, original, m, slots) && m.refund + 19800 * |acts| < TWO64
    ensures Fits(s, original, m, acts)
  {
    forall i | 0 <= i <= |acts| ensures Play(s, original, Begin(m), acts[..i]).meter.refund < TWO64 {
      RevertsStayCovered(s, original, m, acts[..i], slots, Write(slots[0], ZERO));
      Multiples(i, |acts|);
    }
  }

  // ----- the metering functions, moving the 64-bit refund counter -----

  class Storage {
    const original: Slot -> Value
    var current: map<Slot, Value>
    var refund: U64
    var snapshots: seq<(map<Slot, Value>, U64)>

    constructor (original: Slot -> Value)
      ensures this.original == original && current == map[] && refund == 0 && snapshots == []
    {
      this.original, current, refund, snapshots := original, map[], 0, [];
    }

    method AddRefund(gas: nat)
      modifies this`refund
      ensures refund == (old(refund) + gas) % TWO64
    {
      refund := (refund + gas) % TWO64;
    }

    /** False is the panic. */
    method SubRefund(gas: nat) returns (ok: bool)
      modifies this`refund
      ensures ok <==> old(refund) >= gas
      ensures refund == if ok then old(refund) - gas else old(refund)
    {
      if gas > refund { return false; }
      refund := refund - gas;
      return true;
    }

    ghost function View(gas: nat): Meter
      reads this
    {
      Meter(current, refund, gas)
    }

    /** gasSStore, and gasSStoreEIP2200 past its sentry.  `ok` is false only on a refund
        counter that would go below zero; above, it wraps. */
    method GasSStore(s: Schedule, slot: Slot, value: Value) returns (gas: nat, ok: bool)
      requires Known(s)
      modifies this`refund
      ensures var o, c := original(slot), Now(original, View(0), slot);
              && gas == Gas(s, o, c, value)
              && (ok <==> old(refund) >= Taken(s, o, c, value))
              && (ok ==> refund == (old(refund) - Taken(s, o, c, value) + Added(s, o, c, value)) % TWO64)
    {
      ok := true;
      var c := if slot in current then current[slot] else original(slot);
      if c == value { return s.noop, true; }
      var o := original(slot);
      if o == c {
        if o == ZERO { return s.init, true; }
        if value == ZERO { AddRefund(s.clearRefund); }
        return s.clean, true;
      }
      if o != ZERO {
        if c == ZERO {
          ok := SubRefund(s.clearRefund);
          if !ok { return s.dirty, false; }
        } else if value == ZERO {
          AddRefund(s.clearRefund);
        }
      }
      if o == value {
        if o == ZERO { AddRefund(s.resetClearRefund); } else { AddRefund(s.resetRefund); }
      }
      return s.dirty, ok;
    }

    /** EIP-2200's sentry refuses a call with 2300 gas or less and touches nothing. */
    method GasSStoreEIP2200(contractGas: nat, slot: Slot, value: Value) returns (err: bool, gas: nat, ok: bool)
      modifies this`refund
      ensures err <==> contractGas <= SENTRY
      ensures err ==> refund == old(refund) && gas == 0
      ensures !err ==>
        var o, c := original(slot), Now(original, View(0), slot);
        && gas == Gas(EIP2200, o, c, value)
        && (ok <==> old(refund) >= Taken(EIP2200, o, c, value))
        && (ok ==> refund == (old(refund) - Taken(EIP2200, o, c, value) + Added(EIP2200, o, c, value)) % TWO64)
    {
      if contractGas <= SENTRY { return true, 0, true; }
      gas, ok := GasSStore(EIP2200, slot, value);
      err := false;
    }

    /** The fields show the frames `f`. */
    ghost predicate Shows(f: Frames, gas: nat)
      reads this
    {
      && f.meter == View(gas) && |snapshots| == |f.saved|
      && forall k :: 0 <= k < |snapshots| ==> Same(f.saved[k], Meter(snapshots[k].0, snapshots[k].1, 0))
    }

    /** One action; false is a panic. */
    method Perform(s: Schedule, a: Action, gas0: nat, ghost f: Frames) returns (gas: nat, ok: bool)
      requires Known(s)
      modifies this
      ensures old(Shows(f, gas0)) && ShapeOk(f) ==> (ok <==> Legal(f, a) && Covered(s, original, f.meter, a))
      ensures old(Shows(f, gas0)) && ShapeOk(f) && ok && Act(s, original, f, a).meter.refund < TWO64 ==>
        Shows(Act(s, original, f, a), gas)
    {
      gas := gas0;
      match a {
        case Store(w) =>
          var g, covered := GasSStore(s, w.slot, w.value);
          if !covered { return gas, false; }
          current := current[w.slot := w.value];
          gas := gas + g;
        case Snap =>
          snapshots := snapshots + [(current, refund)];
        case Back(k) =>
          if k >= |snapshots| { return gas, false; }
          current, refund := snapshots[k].0, snapshots[k].1;
          snapshots := snapshots[..k];
      }
      ok := true;
    }

    /** MAIN: a whole run of metered writes, snapshots and reverts.  As long as the true
        counter fits 64 bits, it panics exactly at a revert to a snapshot that is gone:
        SubRefund never does, and slots, refund and gas are those of Play. */
    method Execute(s: Schedule, acts: seq<Action>, ghost slots: seq<Slot>) returns (gas: nat, ok: bool)
      requires Known(s) && Distinct(slots) && AllIn(slots, acts) && snapshots == []
      requires refund >= SumOwed(s, original, View(0), slots)
      modifies this
      ensures Fits(s, original, old(View(0)), acts) ==> (ok <==> AllLegal(s, original, old(View(0)), acts))
      ensures Fits(s, original, old(View(0)), acts) && ok ==>
        Shows(Play(s, original, Begin(old(View(0))), acts), gas)
    {
      gas, ok := 0, true;
      ghost var start := View(0);
      for i := 0 to |acts|
        invariant ok
        invariant Fits(s, original, start, acts) ==> Shows(Play(s, original, Begin(start), acts[..i]), gas)
        invariant Fits(s, original, start, acts) ==> AllLegal(s, original, start, acts[..i])
      {
        ghost var f := Play(s, original, Begin(start), acts[..i]);
        ghost var fits := Fits(s, original, start, acts);
        assert acts[..i + 1][..i] == acts[..i];
        if fits {
          StepReady(s, original, start, acts, i, slots);
        }
        gas, ok := Perform(s, acts[i], gas, f);
        if !ok {
          return;
        }
        if fits {
          LegalNext(s, original, start, acts, i);
        }
      }
      assert acts[..|acts|] == acts;
    }
  }
}

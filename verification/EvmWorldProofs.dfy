/** Exactly when one mutator of EvmWorld can be undone and replayed. */
module EvmWorldProofs {
  import opened Basics
  import opened EvmWorld

  // ----- lists of changes -----

  lemma UndoOne(w: World, c: Change)
    ensures UndoAll(w, [c]) == Undo(w, c)
  {
    assert [c][..0] == [];
  }

  lemma RedoOne(w: World, c: Change)
    ensures RedoAll(w, [c]) == Redo(w, c)
  {
    assert [c][..0] == [];
  }

  lemma {:induction false} UndoConcat(w: World, cs: seq<Change>, ds: seq<Change>)
    ensures UndoAll(w, cs + ds) == UndoAll(UndoAll(w, ds), cs)
    decreases |ds|
  {
    if ds == [] {
      assert cs + ds == cs;
    } else {
      var n := |ds| - 1;
      assert (cs + ds)[..|cs + ds| - 1] == cs + ds[..n];
      UndoConcat(Undo(w, ds[n]), cs, ds[..n]);
    }
  }

  lemma {:induction false} RedoConcat(w: World, cs: seq<Change>, ds: seq<Change>)
    ensures RedoAll(w, cs + ds)
         == match RedoAll(w, cs) case None => None case Some(w1) => RedoAll(w1, ds)
    decreases |ds|
  {
    if ds == [] {
      assert cs + ds == cs;
    } else {
      var n := |ds| - 1;
      assert (cs + ds)[..|cs + ds| - 1] == cs + ds[..n];
      RedoConcat(w, cs, ds[..n]);
    }
  }

  // ----- changes of one account -----

  ghost predicate AllOn(cs: seq<Change>, a: Address) {
    forall i :: 0 <= i < |cs| ==> IsLocal(cs[i]) && cs[i].account == a
  }

  ghost function UndoLocals(acc: Account, cs: seq<Change>, a: Address): Account
    requires AllOn(cs, a)
    decreases |cs|
  {
    if cs == [] then acc else UndoLocals(UndoLocal(acc, cs[|cs| - 1]), cs[..|cs| - 1], a)
  }

  ghost function RedoLocals(acc: Account, cs: seq<Change>, a: Address): Account
    requires AllOn(cs, a)
  {
    if cs == [] then acc else RedoLocal(RedoLocals(acc, cs[..|cs| - 1], a), cs[|cs| - 1])
  }

  lemma PutPut(w: World, a: Address, x: Account, y: Account)
    ensures Put(Put(w, a, x), a, y) == Put(w, a, y)
  {
    assert w.accounts[a := x][a := y] == w.accounts[a := y];
  }

  lemma PutSame(w: World, a: Address)
    requires a in w.accounts
    ensures Put(w, a, w.accounts[a]) == w
  {
    assert w.accounts[a := w.accounts[a]] == w.accounts;
  }

  lemma {:induction false} UndoLocalsLift(w: World, acc: Account, cs: seq<Change>, a: Address)
    requires AllOn(cs, a)
    ensures UndoAll(Put(w, a, acc), cs) == Put(w, a, UndoLocals(acc, cs, a))
    decreases |cs|
  {
    if cs != [] {
      var n := |cs| - 1;
      PutPut(w, a, acc, UndoLocal(acc, cs[n]));
      UndoLocalsLift(w, UndoLocal(acc, cs[n]), cs[..n], a);
    }
  }

  lemma {:induction false} RedoLocalsLift(w: World, acc: Account, cs: seq<Change>, a: Address)
    requires AllOn(cs, a)
    ensures RedoAll(Put(w, a, acc), cs) == Some(Put(w, a, RedoLocals(acc, cs, a)))
    decreases |cs|
  {
    if cs != [] {
      var n := |cs| - 1;
      RedoLocalsLift(w, acc, cs[..n], a);
      PutPut(w, a, RedoLocals(acc, cs[..n], a), RedoLocals(acc, cs, a));
    }
  }

  lemma LocalShape(acc: Account, op: Op)
    requires OnAccount(op)
    ensures var cs := Local(acc, op).1; AllOn(cs, op.a) && |cs| <= 2
  {
  }

  // ----- undo, one account -----

  lemma SlotBack(acc: Account, k: Hash, v: Hash)
    requires CanonicalAccount(acc) && v != Slot(acc, k)
    ensures var origin := Lookup(acc.committed, k);
            SetSlot(SetSlot(acc, k, v, origin), k, Slot(acc, k), origin) == acc
  {
    var origin := Lookup(acc.committed, k);
    var twice := SetSlot(SetSlot(acc, k, v, origin), k, Slot(acc, k), origin);
    assert twice.dirty == acc.dirty;
  }

  lemma {:induction false} OneLocal(acc: Account, c: Change, a: Address)
    requires IsLocal(c) && c.account == a
    ensures AllOn([c], a)
    ensures UndoLocals(acc, [c], a) == UndoLocal(acc, c)
    ensures RedoLocals(acc, [c], a) == RedoLocal(acc, c)
  {
    assert [c][..0] == [];
  }

  lemma {:induction false} TwoLocals(acc: Account, c: Change, d: Change, a: Address)
    requires IsLocal(c) && c.account == a && IsLocal(d) && d.account == a
    ensures AllOn([c] + [d], a)
    ensures UndoLocals(acc, [c] + [d], a) == UndoLocal(UndoLocal(acc, d), c)
    ensures RedoLocals(acc, [c] + [d], a) == RedoLocal(RedoLocal(acc, c), d)
  {
    assert ([c] + [d])[..1] == [c];
    OneLocal(UndoLocal(acc, d), c, a);
    OneLocal(acc, c, a);
  }

  lemma Destroyed(acc: Account, a: Address)
    ensures var (acc1, cs) := Destroy(acc, a);
            && AllOn(cs, a)
            && UndoLocals(acc1, cs, a) == acc.(balance := Low64(acc.balance))
            && RedoLocals(acc, cs, a) == acc1
  {
    var (acc1, cs) := Destroy(acc, a);
    var c := BalanceChange(a, Low64(acc.balance), 0);
    if acc.balance == 0 {
      if !acc.selfDestructed {
        assert cs == [Destruct(a)];
        OneLocal(acc1, Destruct(a), a);
        OneLocal(acc, Destruct(a), a);
      }
    } else if acc.selfDestructed {
      OneLocal(acc1, c, a);
      OneLocal(acc, c, a);
    } else {
      assert cs == [c] + [Destruct(a)];
      TwoLocals(acc1, c, Destruct(a), a);
      TwoLocals(acc, c, Destruct(a), a);
    }
  }

  lemma LocalUndoIff(acc: Account, op: Op)
    requires CanonicalAccount(acc) && OnAccount(op)
    ensures var (acc1, cs) := Local(acc, op);
            AllOn(cs, op.a) && (UndoLocals(acc1, cs, op.a) == acc <==> LocallyUndoable(acc, op))
  {
    if op.SelfDestruct? || (op.SelfDestruct6780? && acc.newContract) {
      Destroyed(acc, op.a);
    } else if op.SetState? && Slot(acc, op.key) != op.value {
      SlotBack(acc, op.key, op.value);
    }
  }

  // ----- undo, the rest of the world -----

  lemma TransientBack(t: map<Address, map<Hash, Hash>>, a: Address, k: Hash, v: Hash)
    requires CanonicalTransient(t) && v != GetTransient(t, a, k)
    ensures SetTransient(SetTransient(t, a, k, v), a, k, GetTransient(t, a, k)) == t
  {
    var prev := GetTransient(t, a, k);
    var once := SetTransient(t, a, k, v);
    var twice := SetTransient(once, a, k, prev);
    if v == ZERO {
      assert a in t && k in t[a];
      assert (t[a] - {k})[k := prev] == t[a];
      if t[a] - {k} == map[] {
        assert t[a] == map[][k := prev];
      }
    } else if prev == ZERO {
      if a in t {
        assert k !in t[a];
        assert t[a][k := v] - {k} == t[a];
      } else {
        assert map[k := v] - {k} == map[];
      }
    } else {
      assert t[a][k := v][k := prev] == t[a];
    }
    assert twice == t;
  }

  lemma LogRemoved(m: map<Hash, seq<Log>>, h: Hash, logs: seq<Log>)
    requires h !in m
    ensures m[h := logs] - {h} == m
  {
  }

  lemma LogRestored(m: map<Hash, seq<Log>>, h: Hash, logs: seq<Log>)
    requires h in m
    ensures m[h := logs][h := m[h]] == m
  {
  }

  lemma LogBack(w: World, h: Hash, payload: nat)
    requires forall x :: x in w.logs ==> w.logs[x] != []
    ensures Undo(Perform(w, AddLog(h, payload)).world, LogChange(h)) == w
  {
    var before := if h in w.logs then w.logs[h] else [];
    var after := before + [Log(h, w.logSize, payload)];
    assert after[..|after| - 1] == before;
    if before == [] {
      LogRemoved(w.logs, h, after);
    } else {
      LogRestored(w.logs, h, after);
    }
  }

  /** A created account is removed whatever happened to it since. */
  lemma CreateUndo(w: World, a: Address, acc: Account)
    requires Valid(w)
    ensures UndoAll(Put(w, a, acc), [CreateObject(a)]) == w
            <==> (a !in w.accounts || (a in w.disk && w.accounts[a] == w.disk[a]))
  {
    UndoOne(Put(w, a, acc), CreateObject(a));
    if a in w.disk {
      PutPut(w, a, acc, w.disk[a]);
      if w.accounts[a] == w.disk[a] { PutSame(w, a); }
    } else if a !in w.accounts {
      assert w.accounts[a := acc] - {a} == w.accounts;
    }
  }

  lemma AccountUndoIff(w: World, op: Op)
    requires Valid(w) && OnAccount(op) && (op.a in w.accounts || MayCreate(op))
    ensures var e := Perform(w, op);
            e.Done? && (UndoAll(e.world, e.changes) == w <==> Undoable(w, op))
  {
    var a, e := op.a, Perform(w, op);
    var (w1, cs) := GetOrNew(w, a);
    var (acc, ds) := Local(w1.accounts[a], op);
    LocalShape(w1.accounts[a], op);
    UndoConcat(e.world, cs, ds);
    UndoLocalsLift(w1, acc, ds, a);
    var back := UndoLocals(acc, ds, a);
    if a in w.accounts {
      LocalUndoIff(w.accounts[a], op);
      PutSame(w, a);
      assert Put(w, a, back).accounts[a] == back;
    } else {
      PutPut(w, a, Fresh(w, a), back);
      CreateUndo(w, a, back);
    }
  }

  /** Undoing what a mutator journalled restores the whole world if and only if the
      caller met Undoable beforehand. */
  lemma UndoRestoresIff(w: World, op: Op)
    requires Valid(w) && Perform(w, op).Done?
    ensures var e := Perform(w, op); UndoAll(e.world, e.changes) == w <==> Undoable(w, op)
  {
    var e := Perform(w, op);
    if OnAccount(op) {
      if op.a in w.accounts || MayCreate(op) { AccountUndoIff(w, op); }
    } else if op.CreateAccount? {
      CreateUndo(w, op.a, Fresh(w, op.a));
    } else if e.changes != [] {
      UndoOne(e.world, e.changes[0]);
      if op.SetTransientState? { TransientBack(w.transient, op.a, op.key, op.value); }
      if op.AddLog? { LogBack(w, op.txHash, op.payload); }
    }
  }

  function OneAccount(balance: U256, code: seq<Byte>): World {
    World(map[], map[1 := Account(balance, 7, code, map[], map[], false, false)], map[], map[], 0, 0)
  }

  ghost predicate UndoFails(w: World, op: Op) {
    Valid(w) && Perform(w, op).Done? && UndoAll(Perform(w, op).world, Perform(w, op).changes) != w
  }

  /** Concrete worlds where a mutator's own journal does not lead back: a balance of 2^64... */
  lemma LargeBalanceForgotten()
    ensures UndoFails(OneAccount(TWO64, []), SetBalance(1, 0))
  {
    UndoRestoresIff(OneAccount(TWO64, []), SetBalance(1, 0));
  }

  /** ... code set twice... */
  lemma OldCodeForgotten()
    ensures UndoFails(OneAccount(5, [0x60]), SetCode(1, [0x60]))
  {
    UndoRestoresIff(OneAccount(5, [0x60]), SetCode(1, [0x60]));
  }

  /** ... and an account created over a live one. */
  lemma OverwrittenAccountForgotten()
    ensures UndoFails(OneAccount(5, []), CreateAccount(1))
  {
    UndoRestoresIff(OneAccount(5, []), CreateAccount(1));
  }

  // ----- redo -----

  /** A new balance is replayed exactly when its low 64 bits are all of it. */
  lemma {:induction false} BalanceRedoIff(acc: Account, a: Address, amount: U256)
    ensures var (acc1, cs) := BalanceSet(acc, a, amount);
            AllOn(cs, a) && (RedoLocals(acc, cs, a) == acc1 <==> amount < TWO64)
  {
    var c := BalanceChange(a, Low64(acc.balance), Low64(amount));
    OneLocal(acc, c, a);
  }

  lemma LocalRedoIff(acc: Account, op: Op)
    requires OnAccount(op)
    ensures var (acc1, cs) := Local(acc, op);
            AllOn(cs, op.a) && (RedoLocals(acc, cs, op.a) == acc1 <==> LocallyReplayable(acc, op))
  {
    if op.AddBalance? || op.SubBalance? || op.SetBalance? {
      BalanceRedoIff(acc, op.a, NewBalance(acc.balance, op));
    } else if op.SelfDestruct? || (op.SelfDestruct6780? && acc.newContract) {
      Destroyed(acc, op.a);
    }
  }

  /** Worlds that differ in one account only are equal exactly when it is. */
  lemma PutCore(w: World, a: Address, x: Account, y: Account)
    ensures Core(Put(w, a, x)) == Core(Put(w, a, y)) <==> x == y
  {
    assert Core(Put(w, a, x)).accounts[a] == x && Core(Put(w, a, y)).accounts[a] == y;
  }

  lemma AccountRedoIff(w: World, op: Op)
    requires OnAccount(op) && (op.a in w.accounts || MayCreate(op))
    ensures var e := Perform(w, op);
            var r := RedoAll(w, e.changes);
            e.Done? && r.Some? && (Core(r.value) == Core(e.world) <==> Replayable(w, op))
  {
    var a, e := op.a, Perform(w, op);
    var (w1, cs) := GetOrNew(w, a);
    var (acc, ds) := Local(w1.accounts[a], op);
    LocalShape(w1.accounts[a], op);
    RedoConcat(w, cs, ds);
    if cs != [] { RedoOne(w, cs[0]); }
    PutSame(w1, a);
    RedoLocalsLift(w1, w1.accounts[a], ds, a);
    LocalRedoIff(w1.accounts[a], op);
    PutCore(w1, a, RedoLocals(w1.accounts[a], ds, a), acc);
  }

  lemma SubWraps(refund: U64, gas: U64)
    requires gas <= refund
    ensures Low64(refund + Low64(0 - gas)) == refund - gas
  {
    if gas > 0 {
      assert Low64(0 - gas) == TWO64 - gas;
    }
  }

  /** Replaying what a mutator journalled on the world it started from reproduces its
      result, logs apart, if and only if the caller met Replayable beforehand. */
  lemma RedoReproducesIff(w: World, op: Op)
    requires Perform(w, op).Done?
    ensures var e := Perform(w, op);
            var r := RedoAll(w, e.changes);
            r.Some? && (Core(r.value) == Core(e.world) <==> Replayable(w, op))
  {
    var e := Perform(w, op);
    if OnAccount(op) {
      if op.a in w.accounts || MayCreate(op) { AccountRedoIff(w, op); }
    } else if e.changes != [] {
      RedoOne(w, e.changes[0]);
      if op.SubRefund? { SubWraps(w.refund, op.gas); }
    }
  }

  /** Execute reads no logs, so equal cores replay to equal cores. */
  lemma {:induction false} RedoCore(w: World, cs: seq<Change>)
    ensures RedoAll(Core(w), cs)
         == match RedoAll(w, cs) case None => None case Some(w1) => Some(Core(w1))
    decreases |cs|
  {
    if cs != [] {
      RedoCore(w, cs[..|cs| - 1]);
    }
  }

  // ----- every mutator keeps the world valid -----

  lemma TransientCanonical(t: map<Address, map<Hash, Hash>>, a: Address, k: Hash, v: Hash)
    requires CanonicalTransient(t)
    ensures CanonicalTransient(SetTransient(t, a, k, v))
  {
    var after := SetTransient(t, a, k, v);
    if a in after && v != ZERO {
      assert k in after[a];
    }
  }

  lemma PutValid(w: World, a: Address, acc: Account)
    requires Valid(w) && CanonicalAccount(acc)
    ensures Valid(Put(w, a, acc))
  {
  }

  lemma LocalCanonical(acc: Account, op: Op)
    requires CanonicalAccount(acc) && OnAccount(op)
    ensures CanonicalAccount(Local(acc, op).0)
  {
    var after := Local(acc, op).0;
    assert after.committed == acc.committed;
    assert !op.SetState? ==> after.dirty == acc.dirty;
  }

  lemma PerformValid(w: World, op: Op)
    requires Valid(w) && Perform(w, op).Done?
    ensures Valid(Perform(w, op).world)
  {
    if OnAccount(op) {
      if op.a in w.accounts || MayCreate(op) {
        PutValid(w, op.a, Fresh(w, op.a));
        var (w1, _) := GetOrNew(w, op.a);
        LocalCanonical(w1.accounts[op.a], op);
        PutValid(w1, op.a, Local(w1.accounts[op.a], op).0);
      }
    } else if op.CreateAccount? {
      PutValid(w, op.a, Fresh(w, op.a));
    } else if op.SetTransientState? {
      TransientCanonical(w.transient, op.a, op.key, op.value);
    }
  }
}

/** StateDB and its journal as the objects they are: each method is proved against
    the transition it makes in Journal. */
module StateDBObjects {
  import opened Basics
  import opened EvmWorld
  import opened EvmWorldProofs
  import opened Journal
  import opened JournalProofs

  lemma AppendKeepsWorld(l: Ledger, w: World, cs: seq<Change>)
    ensures AppendAll(l.(world := w), cs) == AppendAll(l, cs).(world := w)
  {
    if cs != [] { AppendKeepsWorld(l, w, cs[..|cs| - 1]); }
  }

  lemma AppendOne(l: Ledger, c: Change)
    ensures AppendAll(l, [c]) == Append(l, c)
  {
    assert [c][..0] == [];
  }

  /** Appending one more change after a list of them. */
  lemma AppendMore(l: Ledger, cs: seq<Change>, c: Change)
    ensures AppendAll(l, cs + [c]) == Append(AppendAll(l, cs), c)
  {
    assert (cs + [c])[..|cs|] == cs;
  }

  /** A mutator of one account, unfolded. */
  lemma AccountTake(l: Ledger, op: Op, acc: Account, ds: seq<Change>)
    requires OnAccount(op) && (op.a in l.world.accounts || MayCreate(op))
    requires Local(GetOrNew(l.world, op.a).0.accounts[op.a], op) == (acc, ds)
    ensures var (w1, cs) := GetOrNew(l.world, op.a);
            Take(l, Mutate(op)) == Some(AppendAll(l, cs + ds).(world := Put(w1, op.a, acc)))
  {
  }

  function Cleared(acc: Account, a: Address): (Account, seq<Change>) {
    if acc.balance == 0 then (acc, []) else BalanceSet(acc, a, 0)
  }

  function Flagged(acc: Account, a: Address): (Account, seq<Change>) {
    if acc.selfDestructed then (acc, []) else (acc.(selfDestructed := true), [Destruct(a)])
  }

  /** The two halves of SelfDestruct are the whole transition. */
  lemma HalvesDestroy(l: Ledger, a: Address)
    requires a in l.world.accounts
    ensures var (acc1, cs) := Cleared(l.world.accounts[a], a);
            var (acc2, ds) := Flagged(acc1, a);
            Take(l, Mutate(EvmWorld.SelfDestruct(a))) ==
            Some(AppendAll(l, cs + ds).(world := Put(Put(l.world, a, acc1), a, acc2)))
  {
    var acc := l.world.accounts[a];
    var (acc1, cs) := Cleared(acc, a);
    var (acc2, ds) := Flagged(acc1, a);
    var none: seq<Change> := [];
    assert cs + none == cs && Destroy(acc, a) == (acc2, cs + ds);
    AccountTake(l, EvmWorld.SelfDestruct(a), acc2, cs + ds);
    assert [] + (cs + ds) == cs + ds;
    PutPut(l.world, a, acc1, acc2);
  }

  /** EIP-6780: only a contract made in this transaction is destroyed. */
  lemma Destruct6780Take(l: Ledger, a: Address)
    requires a in l.world.accounts
    ensures Take(l, Mutate(EvmWorld.SelfDestruct6780(a))) ==
            if l.world.accounts[a].newContract then Take(l, Mutate(EvmWorld.SelfDestruct(a))) else Some(l)
  {
    PutSame(l.world, a);
    var none: seq<Change> := [];
    assert none + none == none;
  }

  /** A mutator that changes nothing does nothing more than finding the account. */
  lemma NothingTaken(l: Ledger, op: Op)
    requires MayCreate(op)
    requires var acc := GetOrNew(l.world, op.a).0.accounts[op.a]; Local(acc, op) == (acc, [])
    ensures Take(l, Mutate(op)) == Take(l, Mutate(EvmWorld.GetBalance(op.a)))
  {
  }

  lemma {:induction false} FirstAtLeastIs(revs: seq<Revision>, id: nat, i: nat)
    requires i <= |revs| && (i < |revs| ==> revs[i].id >= id)
    requires forall j :: 0 <= j < i ==> revs[j].id < id
    ensures FirstAtLeast(revs, id) == i
  {
    if i > 0 { FirstAtLeastIs(revs[1..], id, i - 1); }
  }

  class JournalLog {
    var entries: seq<Entry>
    var dirties: map<Address, int>
    var validRevisions: seq<Revision>
    var nextRevisionId: nat

    constructor ()
      ensures entries == [] && dirties == map[] && validRevisions == [] && nextRevisionId == 0
    {
      entries, dirties, validRevisions, nextRevisionId := [], map[], [], 0;
    }

    /** sort.Search: the halving loop. */
    method Search(id: nat) returns (i: nat)
      requires forall x, y :: 0 <= x < y < |validRevisions| ==> validRevisions[x].id < validRevisions[y].id
      ensures i == FirstAtLeast(validRevisions, id)
    {
      i := 0;
      var j := |validRevisions|;
      while i < j
        invariant 0 <= i <= j <= |validRevisions|
        invariant forall x :: 0 <= x < i ==> validRevisions[x].id < id
        invariant forall x :: j <= x < |validRevisions| ==> validRevisions[x].id >= id
      {
        var h := (i + j) / 2;
        if validRevisions[h].id >= id { j := h; } else { i := h + 1; }
      }
      FirstAtLeastIs(validRevisions, id, i);
    }
  }

  class StateDB {
    const local: nat
    const disk: map<Address, Account>
    const journal: JournalLog
    var stateObjects: map<Address, Account>
    var transientStorage: map<Address, map<Hash, Hash>>
    var logs: map<Hash, seq<Log>>
    var logSize: nat
    var refund: U64
    var thash: Hash

    ghost function World(): World
      reads this
    {
      EvmWorld.World(disk, stateObjects, transientStorage, logs, logSize, refund)
    }

    ghost function View(): Ledger
      reads this, journal
    {
      Ledger(local, World(), journal.entries, journal.dirties, journal.validRevisions, journal.nextRevisionId)
    }

    constructor (shard: nat, w: World)
      requires Valid(w)
      ensures fresh(journal) && local == shard && World() == w && Sound(View(), 0)
      ensures journal.entries == [] && journal.validRevisions == []
    {
      local, disk := shard, w.disk;
      stateObjects, transientStorage, logs, logSize, refund, thash :=
        w.accounts, w.transient, w.logs, w.logSize, w.refund, ZERO;
      var j := new JournalLog();
      journal := j;
    }

    method Append(c: Change)
      modifies journal
      ensures View() == Journal.Append(old(View()), c)
    {
      journal.entries := journal.entries + [Entry(c, local)];
      var addr := Dirtied(c);
      if addr.Some? {
        journal.dirties := Bump(journal.dirties, addr.value);
      }
      if c == Touch(RIPEMD) {
        journal.dirties := Bump(journal.dirties, RIPEMD);
      }
    }

    method CreateObject(a: Address)
      modifies this, journal
      ensures Take(old(View()), Mutate(CreateAccount(a))) == Some(View()) && thash == old(thash)
    {
      AppendOne(View(), EvmWorld.CreateObject(a));
      Append(EvmWorld.CreateObject(a));
      var committed := if a in disk then disk[a].committed else map[];
      stateObjects := stateObjects[a := Account(INIT_BALANCE, 0, [], committed, map[], false, false)];
    }

    method GetOrNewStateObject(a: Address)
      modifies this, journal
      ensures Take(old(View()), Mutate(EvmWorld.GetBalance(a))) == Some(View())
      ensures a in stateObjects && stateObjects[a] == GetOrNew(old(World()), a).0.accounts[a]
      ensures View() == AppendAll(old(View()), GetOrNew(old(World()), a).1).(world := GetOrNew(old(World()), a).0)
    {
      if a !in stateObjects {
        CreateObject(a);
      }
      PutSame(World(), a);
      assert GetOrNew(old(World()), a).1 + [] == GetOrNew(old(World()), a).1;
    }

    /** Writes back one account and journals one change, after getOrNewStateObject. */
    method Write(acc: Account, c: Change, ghost l0: Ledger, ghost cs: seq<Change>)
      requires IsLocal(c) && c.account in stateObjects
      requires View() == AppendAll(l0, cs).(world := World())
      modifies this, journal
      ensures World() == Put(old(World()), c.account, acc)
      ensures View() == AppendAll(l0, cs + [c]).(world := World()) && thash == old(thash)
    {
      AppendMore(l0, cs, c);
      Append(c);
      stateObjects := stateObjects[c.account := acc];
    }

    method GetBalance(a: Address) returns (balance: U256)
      modifies this, journal
      ensures Take(old(View()), Mutate(EvmWorld.GetBalance(a))) == Some(View())
      ensures a in stateObjects && balance == stateObjects[a].balance
    {
      GetOrNewStateObject(a);
      balance := stateObjects[a].balance;
    }

    /** stateObject.SetBalance. */
    method WriteBalance(a: Address, amount: U256, ghost l0: Ledger, ghost cs: seq<Change>)
      requires a in stateObjects && View() == AppendAll(l0, cs).(world := World())
      modifies this, journal
      ensures var (acc, ds) := BalanceSet(old(stateObjects[a]), a, amount);
              View() == AppendAll(l0, cs + ds).(world := Put(old(World()), a, acc))
    {
      var acc := stateObjects[a];
      Write(acc.(balance := amount), BalanceChange(a, Low64(acc.balance), Low64(amount)), l0, cs);
    }

    method AddBalance(a: Address, amount: U256)
      modifies this, journal
      ensures Take(old(View()), Mutate(EvmWorld.AddBalance(a, amount))) == Some(View())
    {
      ghost var cs := GetOrNew(World(), a).1;
      GetOrNewStateObject(a);
      var acc := stateObjects[a];
      ghost var (after, ds) := Local(acc, EvmWorld.AddBalance(a, amount));
      if amount == 0 {
        if acc.nonce == 0 && acc.balance == 0 && acc.code == [] {
          AccountTake(old(View()), EvmWorld.AddBalance(a, amount), after, ds);
          PutSame(World(), a);
          Write(acc, Touch(a), old(View()), cs);
        } else {
          NothingTaken(old(View()), EvmWorld.AddBalance(a, amount));
        }
      } else {
        AccountTake(old(View()), EvmWorld.AddBalance(a, amount), after, ds);
        var more := NewBalance(acc.balance, EvmWorld.AddBalance(a, amount));
        assert (after, ds) == BalanceSet(acc, a, more);
        WriteBalance(a, more, old(View()), cs);
      }
    }

    method SubBalance(a: Address, amount: U256)
      modifies this, journal
      ensures Take(old(View()), Mutate(EvmWorld.SubBalance(a, amount))) == Some(View())
    {
      ghost var cs := GetOrNew(World(), a).1;
      GetOrNewStateObject(a);
      if amount == 0 {
        NothingTaken(old(View()), EvmWorld.SubBalance(a, amount));
        return;
      }
      var acc := stateObjects[a];
      ghost var (after, ds) := Local(acc, EvmWorld.SubBalance(a, amount));
      AccountTake(old(View()), EvmWorld.SubBalance(a, amount), after, ds);
      var left := NewBalance(acc.balance, EvmWorld.SubBalance(a, amount));
      assert (after, ds) == BalanceSet(acc, a, left);
      WriteBalance(a, left, old(View()), cs);
    }

    method SetBalance(a: Address, amount: U256)
      modifies this, journal
      ensures Take(old(View()), Mutate(EvmWorld.SetBalance(a, amount))) == Some(View())
    {
      ghost var cs := GetOrNew(World(), a).1;
      GetOrNewStateObject(a);
      ghost var (after, ds) := BalanceSet(stateObjects[a], a, amount);
      AccountTake(old(View()), EvmWorld.SetBalance(a, amount), after, ds);
      WriteBalance(a, amount, old(View()), cs);
    }

    method SetNonce(a: Address, nonce: U64)
      modifies this, journal
      ensures Take(old(View()), Mutate(EvmWorld.SetNonce(a, nonce))) == Some(View())
    {
      ghost var cs := GetOrNew(World(), a).1;
      GetOrNewStateObject(a);
      var after, entry := stateObjects[a].(nonce := nonce), NonceChange(a, stateObjects[a].nonce, nonce);
      AccountTake(old(View()), EvmWorld.SetNonce(a, nonce), after, [entry]);
      Write(after, entry, old(View()), cs);
    }

    method SetCode(a: Address, code: seq<Byte>)
      modifies this, journal
      ensures Take(old(View()), Mutate(EvmWorld.SetCode(a, code))) == Some(View())
    {
      ghost var cs := GetOrNew(World(), a).1;
      GetOrNewStateObject(a);
      var after, entry := stateObjects[a].(code := code), CodeChange(a, code);
      AccountTake(old(View()), EvmWorld.SetCode(a, code), after, [entry]);
      Write(after, entry, old(View()), cs);
    }

    method SetState(a: Address, k: Hash, v: Hash)
      modifies this, journal
      ensures Take(old(View()), Mutate(EvmWorld.SetState(a, k, v))) == Some(View())
    {
      ghost var cs := GetOrNew(World(), a).1;
      GetOrNewStateObject(a);
      var acc := stateObjects[a];
      var prev, origin := Slot(acc, k), Lookup(acc.committed, k);
      if prev == v {
        NothingTaken(old(View()), EvmWorld.SetState(a, k, v));
        return;
      }
      var after, entry := SetSlot(acc, k, v, origin), StorageChange(a, k, prev, origin, v);
      AccountTake(old(View()), EvmWorld.SetState(a, k, v), after, [entry]);
      Write(after, entry, old(View()), cs);
    }

    /** The first half of SelfDestruct: a balance that is not zero is cleared. */
    method ClearBalance(a: Address)
      requires a in stateObjects
      modifies this, journal
      ensures var (acc, cs) := Cleared(old(stateObjects[a]), a);
              View() == AppendAll(old(View()), cs).(world := Put(old(World()), a, acc))
    {
      PutSame(World(), a);
      if stateObjects[a].balance != 0 {
        assert View() == AppendAll(View(), []).(world := World());
        WriteBalance(a, 0, View(), []);
        assert [] + [BalanceChange(a, Low64(old(stateObjects[a].balance)), 0)]
            == [BalanceChange(a, Low64(old(stateObjects[a].balance)), 0)];
      }
    }

    /** The second half: the flag is set once. */
    method MarkDestructed(a: Address, ghost l0: Ledger, ghost cs: seq<Change>)
      requires a in stateObjects && View() == AppendAll(l0, cs).(world := World())
      modifies this, journal
      ensures var (acc, ds) := Flagged(old(stateObjects[a]), a);
              View() == AppendAll(l0, cs + ds).(world := Put(old(World()), a, acc))
    {
      PutSame(World(), a);
      if stateObjects[a].selfDestructed {
        assert cs + [] == cs;
        return;
      }
      Write(stateObjects[a].(selfDestructed := true), Destruct(a), l0, cs);
    }

    method SelfDestruct(a: Address)
      modifies this, journal
      ensures Take(old(View()), Mutate(EvmWorld.SelfDestruct(a))) == Some(View())
    {
      if a !in stateObjects { return; }
      ghost var acc := stateObjects[a];
      ClearBalance(a);
      MarkDestructed(a, old(View()), Cleared(acc, a).1);
      HalvesDestroy(old(View()), a);
    }

    method SelfDestruct6780(a: Address)
      modifies this, journal
      ensures Take(old(View()), Mutate(EvmWorld.SelfDestruct6780(a))) == Some(View())
    {
      if a !in stateObjects { return; }
      Destruct6780Take(View(), a);
      if stateObjects[a].newContract {
        SelfDestruct(a);
      }
    }

    /** A missing account is a nil dereference. */
    method CreateContract(a: Address) returns (ok: bool)
      modifies this, journal
      ensures ok <==> Take(old(View()), Mutate(BeginContract(a))).Some?
      ensures ok ==> Take(old(View()), Mutate(BeginContract(a))) == Some(View())
    {
      if a !in stateObjects { return false; }
      PutSame(World(), a);
      if !stateObjects[a].newContract {
        Write(stateObjects[a].(newContract := true), EvmWorld.CreateContract(a), old(View()), []);
      }
      return true;
    }

    method SetTransientState(a: Address, k: Hash, v: Hash)
      modifies this, journal
      ensures Take(old(View()), Mutate(EvmWorld.SetTransientState(a, k, v))) == Some(View())
    {
      var prev := GetTransient(transientStorage, a, k);
      if prev == v { return; }
      AppendOne(View(), TransientChange(a, k, prev, v));
      Append(TransientChange(a, k, prev, v));
      SetTransient(a, k, v);
    }

    /** transientStorage.Set, branch by branch. */
    method SetTransient(a: Address, k: Hash, v: Hash)
      modifies this
      ensures World() == old(World()).(transient := EvmWorld.SetTransient(old(transientStorage), a, k, v))
      ensures thash == old(thash)
    {
      if v == ZERO {
        if a in transientStorage {
          transientStorage := transientStorage[a := transientStorage[a] - {k}];
          if transientStorage[a] == map[] {
            transientStorage := transientStorage - {a};
            assert transientStorage == old(transientStorage) - {a};
          }
        }
      } else {
        if a !in transientStorage {
          transientStorage := transientStorage[a := map[]];
        }
        var inner: map<Hash, Hash> := transientStorage[a];
        transientStorage := transientStorage[a := inner[k := v]];
      }
    }

    method AddRefund(gas: U64)
      modifies this, journal
      ensures Take(old(View()), Mutate(EvmWorld.AddRefund(gas))) == Some(View())
    {
      AppendOne(View(), RefundChange(refund, gas));
      Append(RefundChange(refund, gas));
      refund := Low64(refund + gas);
    }

    /** The entry is appended before the check that panics. */
    method SubRefund(gas: U64) returns (ok: bool)
      modifies this, journal
      ensures ok <==> Take(old(View()), Mutate(EvmWorld.SubRefund(gas))).Some?
      ensures ok ==> Take(old(View()), Mutate(EvmWorld.SubRefund(gas))) == Some(View())
      ensures !ok ==> World() == old(World()) && |journal.entries| == |old(journal.entries)| + 1
    {
      AppendOne(View(), RefundChange(refund, Low64(0 - gas)));
      Append(RefundChange(refund, Low64(0 - gas)));
      if gas > refund { return false; }
      refund := refund - gas;
      return true;
    }

    method AddLog(payload: nat)
      modifies this, journal
      ensures Take(old(View()), Mutate(EvmWorld.AddLog(old(thash), payload))) == Some(View())
    {
      AppendOne(View(), LogChange(thash));
      Append(LogChange(thash));
      logs := logs[thash := (if thash in logs then logs[thash] else []) + [Log(thash, logSize, payload)]];
      logSize := logSize + 1;
    }

    method Snapshot() returns (id: nat)
      modifies journal
      ensures id == old(journal.nextRevisionId) && Take(old(View()), Step.Snapshot) == Some(View())
    {
      id := journal.nextRevisionId;
      journal.nextRevisionId := journal.nextRevisionId + 1;
      journal.validRevisions := journal.validRevisions + [Revision(id, |journal.entries|)];
    }

    /** journal.revert: the loop that undoes entries from the end, then truncates. */
    method Revert(snapshot: nat)
      requires snapshot <= |journal.entries|
      modifies this, journal
      ensures View() == Unwind(old(View()), snapshot)
    {
      ghost var all := journal.entries;
      var i := |journal.entries|;
      assert View().(entries := all[..i]) == View();
      while i > snapshot
        invariant snapshot <= i <= |all| && journal.entries == all
        invariant Unwind(old(View()), snapshot) == Unwind(View().(entries := all[..i]), snapshot)
      {
        i := i - 1;
        assert all[..i + 1][..i] == all[..i];
        var e := journal.entries[i];
        if e.shard == local {
          UndoChange(e.change);
        }
        var addr := Dirtied(e.change);
        if addr.Some? {
          journal.dirties := Drop(journal.dirties, addr.value);
        }
      }
      journal.entries := journal.entries[..snapshot];
    }

    /** JournalEntry.Revert on the live maps. */
    method UndoChange(c: Change)
      modifies this
      ensures World() == Undo(old(World()), c)
    {
      match c {
        case CreateObject(a) =>
          if a in disk { stateObjects := stateObjects[a := disk[a]]; } else { stateObjects := stateObjects - {a}; }
        case TransientChange(a, k, prev, _) => SetTransient(a, k, prev);
        case RefundChange(prev, _) => refund := prev;
        case LogChange(h) =>
          var txLogs := if h in logs then logs[h] else [];
          if |txLogs| == 1 {
            logs := logs - {h};
          } else {
            logs := logs[h := if txLogs == [] then [] else txLogs[..|txLogs| - 1]];
          }
          logSize := if logSize == 0 then 0 else logSize - 1;
        case _ =>
          if c.account in stateObjects {
            stateObjects := stateObjects[c.account := UndoLocal(stateObjects[c.account], c)];
          }
      }
    }

    /** An id that no valid revision carries is a panic. */
    method RevertToSnapshot(id: nat) returns (ok: bool)
      requires RevisionsOrdered(View())
      modifies this, journal
      ensures ok <==> Take(old(View()), RevertTo(id)).Some?
      ensures ok ==> Take(old(View()), RevertTo(id)) == Some(View())
      ensures !ok ==> View() == old(View())
    {
      var idx := journal.Search(id);
      if idx == |journal.validRevisions| || journal.validRevisions[idx].id != id {
        return false;
      }
      Revert(journal.validRevisions[idx].index);
      journal.validRevisions := journal.validRevisions[..idx];
      return true;
    }
  }
}

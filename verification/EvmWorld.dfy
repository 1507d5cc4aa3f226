/** The part of the EVM state that journal entries can undo and redo
    (vm/state/journal.go, statedb.go, state_object.go, transient_storage.go). */
module EvmWorld {
  import opened Basics

  /** uint64 truncation. */
  function Low64(x: int): U64 {
    x % 0x1_0000_0000_0000_0000
  }

  /** uint256 wrap-around. */
  function Wrap256(x: int): U256 {
    x % 0x1_0000000000000000_0000000000000000_0000000000000000_0000000000000000
  }

  type Address = nat
  type Hash = nat

  /** The all-zero hash: an unset storage slot. */
  const ZERO: Hash := 0
  /** The precompile whose touch survives a revert. */
  const RIPEMD: Address := 3
  /** The balance every new account starts with (params/static_config.go:21). */
  const INIT_BALANCE: U256 := 10000

  /** A live account.  `committed` answers GetCommittedState and is fixed during a
      transaction; `dirty` is the transaction's own writes. */
  datatype Account = Account(
    balance: U256,
    nonce: U64,
    code: seq<Byte>,
    committed: map<Hash, Hash>,
    dirty: map<Hash, Hash>,
    selfDestructed: bool,
    newContract: bool)

  datatype Log = Log(txHash: Hash, index: nat, payload: nat)

  /** `accounts` holds what getStateObject answers; `disk` what the reader would
      load for an address that is neither live nor destructed. */
  datatype World = World(
    disk: map<Address, Account>,
    accounts: map<Address, Account>,
    transient: map<Address, map<Hash, Hash>>,
    logs: map<Hash, seq<Log>>,
    logSize: nat,
    refund: U64)

  datatype Change =
    | CreateObject(account: Address)
    | CreateContract(account: Address)
    | Destruct(account: Address)
    | Touch(account: Address)
    | BalanceChange(account: Address, prev: U64, current: U64)
    | NonceChange(account: Address, prevNonce: U64, currentNonce: U64)
    | CodeChange(account: Address, code: seq<Byte>)
    | StorageChange(account: Address, key: Hash, prevValue: Hash, origValue: Hash, value: Hash)
    | TransientChange(account: Address, key: Hash, prevValue: Hash, value: Hash)
    | RefundChange(prevRefund: U64, incr: U64)
    | LogChange(txHash: Hash)

  // ----- reading and writing -----

  function Lookup(m: map<Hash, Hash>, k: Hash): Hash {
    if k in m then m[k] else ZERO
  }

  /** stateObject.getState: the value seen by the transaction. */
  function Slot(acc: Account, k: Hash): Hash {
    if k in acc.dirty then acc.dirty[k] else Lookup(acc.committed, k)
  }

  /** stateObject.setState: a write of the original value removes the dirty mark. */
  function SetSlot(acc: Account, k: Hash, v: Hash, origin: Hash): Account {
    if v == origin then acc.(dirty := acc.dirty - {k}) else acc.(dirty := acc.dirty[k := v])
  }

  function GetTransient(t: map<Address, map<Hash, Hash>>, a: Address, k: Hash): Hash {
    if a in t then Lookup(t[a], k) else ZERO
  }

  /** transientStorage.Set: zero deletes, and an emptied inner map goes too. */
  function SetTransient(t: map<Address, map<Hash, Hash>>, a: Address, k: Hash, v: Hash): map<Address, map<Hash, Hash>> {
    if v == ZERO then
      if a in t then
        var inner := t[a] - {k};
        if inner == map[] then t - {a} else t[a := inner]
      else t
    else
      t[a := (if a in t then t[a] else map[])[k := v]]
  }

  /** newObject(nil) with the initial balance. */
  function Fresh(w: World, a: Address): Account {
    Account(INIT_BALANCE, 0, [], if a in w.disk then w.disk[a].committed else map[], map[], false, false)
  }

  function Put(w: World, a: Address, acc: Account): World {
    w.(accounts := w.accounts[a := acc])
  }

  predicate IsEmpty(acc: Account) {
    acc.nonce == 0 && acc.balance == 0 && acc.code == []
  }

  // ----- undo and redo of one change -----

  /** Changes to the fields of one live account. */
  predicate IsLocal(c: Change) {
    !(c.CreateObject? || c.TransientChange? || c.RefundChange? || c.LogChange?)
  }

  function UndoLocal(acc: Account, c: Change): Account
    requires IsLocal(c)
  {
    match c
    case CreateContract(_) => acc.(newContract := false)
    case Destruct(_) => acc.(selfDestructed := false)
    case Touch(_) => acc
    case BalanceChange(_, prev, _) => acc.(balance := prev)
    case NonceChange(_, prev, _) => acc.(nonce := prev)
    case CodeChange(_, _) => acc.(code := [])
    case StorageChange(_, k, prev, orig, _) => SetSlot(acc, k, prev, orig)
  }

  function RedoLocal(acc: Account, c: Change): Account
    requires IsLocal(c)
  {
    match c
    case CreateContract(_) => acc.(newContract := true)
    case Destruct(_) => acc.(balance := 0, selfDestructed := true)
    case Touch(_) => acc
    case BalanceChange(_, _, current) => acc.(balance := current)
    case NonceChange(_, _, current) => acc.(nonce := current)
    case CodeChange(_, code) => acc.(code := code)
    case StorageChange(_, k, _, _, v) =>
      if Slot(acc, k) == v then acc else SetSlot(acc, k, v, Lookup(acc.committed, k))
  }

  /** JournalEntry.Revert.  An account that is gone is left alone. */
  function Undo(w: World, c: Change): World {
    match c
    case CreateObject(a) =>
      // deleted from the live set, so the reader answers again
      if a in w.disk then Put(w, a, w.disk[a]) else w.(accounts := w.accounts - {a})
    case TransientChange(a, k, prev, _) => w.(transient := SetTransient(w.transient, a, k, prev))
    case RefundChange(prev, _) => w.(refund := prev)
    case LogChange(h) =>
      // an empty list, or a count of zero, is out of reach of every run (JournalLogs)
      var logs := if h in w.logs then w.logs[h] else [];
      w.(logs := if |logs| == 1 then w.logs - {h} else w.logs[h := if logs == [] then [] else logs[..|logs| - 1]],
         logSize := if w.logSize == 0 then 0 else w.logSize - 1)
    case _ =>
      if c.account in w.accounts then Put(w, c.account, UndoLocal(w.accounts[c.account], c)) else w
  }

  /** JournalEntry.Execute; None is the nil dereference of a missing account. */
  function Redo(w: World, c: Change): Option<World> {
    match c
    case CreateObject(a) => Some(Put(w, a, Fresh(w, a)))
    case TransientChange(a, k, _, v) =>
      if GetTransient(w.transient, a, k) == v then Some(w)
      else Some(w.(transient := SetTransient(w.transient, a, k, v)))
    case RefundChange(_, incr) => Some(w.(refund := Low64(w.refund + incr)))
    case LogChange(_) => Some(w)
    case _ =>
      if c.account in w.accounts then Some(Put(w, c.account, RedoLocal(w.accounts[c.account], c)))
      else if c.Destruct? || c.Touch? then Some(w)
      else None
  }

  /** The address whose dirty count the change moves. */
  function Dirtied(c: Change): Option<Address> {
    match c
    case CreateObject(a) => Some(a)
    case Destruct(a) => Some(a)
    case Touch(a) => Some(a)
    case BalanceChange(a, _, _) => Some(a)
    case NonceChange(a, _, _) => Some(a)
    case CodeChange(a, _) => Some(a)
    case StorageChange(a, _, _, _, _) => Some(a)
    case _ => None
  }

  // ----- what every reachable world satisfies -----

  ghost predicate CanonicalAccount(acc: Account) {
    forall k :: k in acc.dirty ==> acc.dirty[k] != Lookup(acc.committed, k)
  }

  ghost predicate CanonicalTransient(t: map<Address, map<Hash, Hash>>) {
    forall a :: a in t ==> t[a] != map[] && forall k :: k in t[a] ==> t[a][k] != ZERO
  }

  /** Canonical storage maps, no empty log list, and the reader's accounts all visible. */
  ghost predicate Valid(w: World) {
    && (forall a :: a in w.accounts ==> CanonicalAccount(w.accounts[a]))
    && (forall a :: a in w.disk ==> a in w.accounts && CanonicalAccount(w.disk[a]))
    && CanonicalTransient(w.transient)
    && (forall h :: h in w.logs ==> w.logs[h] != [])
  }

  // ----- mutators -----

  datatype Op =
    | GetBalance(a: Address)
    | AddBalance(a: Address, amount: U256)
    | SubBalance(a: Address, amount: U256)
    | SetBalance(a: Address, amount: U256)
    | SetNonce(a: Address, nonce: U64)
    | SetCode(a: Address, code: seq<Byte>)
    | SetState(a: Address, key: Hash, value: Hash)
    | SelfDestruct(a: Address)
    | SelfDestruct6780(a: Address)
    | CreateAccount(a: Address)
    | BeginContract(a: Address)
    | SetTransientState(a: Address, key: Hash, value: Hash)
    | AddRefund(gas: U64)
    | SubRefund(gas: U64)
    | AddLog(txHash: Hash, payload: nat)

  /** What a mutator leaves: the new world and the changes it journalled. */
  datatype Effect = Panic | Done(world: World, changes: seq<Change>)

  /** Mutators that go through getOrNewStateObject. */
  predicate MayCreate(op: Op) {
    op.GetBalance? || op.AddBalance? || op.SubBalance? || op.SetBalance? || op.SetNonce? || op.SetCode? || op.SetState?
  }

  /** Mutators of the fields of one live account. */
  predicate OnAccount(op: Op) {
    MayCreate(op) || op.SelfDestruct? || op.SelfDestruct6780? || op.BeginContract?
  }

  function GetOrNew(w: World, a: Address): (World, seq<Change>) {
    if a in w.accounts then (w, []) else (Put(w, a, Fresh(w, a)), [CreateObject(a)])
  }

  /** stateObject.SetBalance: the entry keeps only the low 64 bits of both balances. */
  function BalanceSet(acc: Account, a: Address, amount: U256): (Account, seq<Change>) {
    (acc.(balance := amount), [BalanceChange(a, Low64(acc.balance), Low64(amount))])
  }

  function Destroy(acc: Account, a: Address): (Account, seq<Change>) {
    var (acc1, cs) := if acc.balance == 0 then (acc, []) else BalanceSet(acc, a, 0);
    if acc1.selfDestructed then (acc1, cs) else (acc1.(selfDestructed := true), cs + [Destruct(a)])
  }

  /** Balances are 256-bit and wrap. */
  function NewBalance(balance: U256, op: Op): U256
    requires op.AddBalance? || op.SubBalance? || op.SetBalance?
  {
    match op
    case AddBalance(_, amount) => Wrap256(balance + amount)
    case SubBalance(_, amount) => Wrap256(balance - amount)
    case SetBalance(_, amount) => amount
  }

  /** The effect of a mutator on the account it found or created. */
  function Local(acc: Account, op: Op): (Account, seq<Change>)
    requires OnAccount(op)
  {
    match op
    case GetBalance(a) => (acc, [])
    case AddBalance(a, amount) =>
      if amount == 0 then (acc, if IsEmpty(acc) then [Touch(a)] else [])
      else BalanceSet(acc, a, NewBalance(acc.balance, op))
    case SubBalance(a, amount) =>
      if amount == 0 then (acc, []) else BalanceSet(acc, a, NewBalance(acc.balance, op))
    case SetBalance(a, amount) => BalanceSet(acc, a, amount)
    case SetNonce(a, nonce) => (acc.(nonce := nonce), [NonceChange(a, acc.nonce, nonce)])
    case SetCode(a, code) => (acc.(code := code), [CodeChange(a, code)])
    case SetState(a, k, v) =>
      var prev, origin := Slot(acc, k), Lookup(acc.committed, k);
      if prev == v then (acc, [])
      else (SetSlot(acc, k, v, origin), [StorageChange(a, k, prev, origin, v)])
    case SelfDestruct(a) => Destroy(acc, a)
    case SelfDestruct6780(a) => if acc.newContract then Destroy(acc, a) else (acc, [])
    case BeginContract(a) =>
      if acc.newContract then (acc, []) else (acc.(newContract := true), [CreateContract(a)])
  }

  function Perform(w: World, op: Op): Effect {
    match op
    case CreateAccount(a) => Done(Put(w, a, Fresh(w, a)), [CreateObject(a)])
    case SetTransientState(a, k, v) =>
      var prev := GetTransient(w.transient, a, k);
      if prev == v then Done(w, [])
      else Done(w.(transient := SetTransient(w.transient, a, k, v)), [TransientChange(a, k, prev, v)])
    case AddRefund(gas) => Done(w.(refund := Low64(w.refund + gas)), [RefundChange(w.refund, gas)])
    case SubRefund(gas) =>
      if gas > w.refund then Panic
      else Done(w.(refund := w.refund - gas), [RefundChange(w.refund, Low64(0 - gas))])
    case AddLog(h, payload) =>
      var before := if h in w.logs then w.logs[h] else [];
      Done(w.(logs := w.logs[h := before + [Log(h, w.logSize, payload)]], logSize := w.logSize + 1), [LogChange(h)])
    case _ =>
      if op.a in w.accounts || MayCreate(op) then
        var (w1, cs) := GetOrNew(w, op.a);
        var (acc, ds) := Local(w1.accounts[op.a], op);
        Done(Put(w1, op.a, acc), cs + ds)
      else if op.BeginContract? then Panic
      else Done(w, [])
  }

  // ----- undo and redo of a list of changes -----

  function UndoAll(w: World, cs: seq<Change>): World
    decreases |cs|
  {
    if cs == [] then w else UndoAll(Undo(w, cs[|cs| - 1]), cs[..|cs| - 1])
  }

  function RedoAll(w: World, cs: seq<Change>): Option<World> {
    if cs == [] then Some(w)
    else match RedoAll(w, cs[..|cs| - 1])
      case None => None
      case Some(w1) => Redo(w1, cs[|cs| - 1])
  }

  /** Everything but the logs, which Execute does not replay. */
  function Core(w: World): World {
    w.(logs := map[], logSize := 0)
  }

  // ----- exactly when one mutator can be undone, and replayed -----

  /** The journal keeps a balance below 2^64 and forgets old code. */
  predicate LocallyUndoable(acc: Account, op: Op)
    requires OnAccount(op)
  {
    match op
    case AddBalance(_, amount) => amount == 0 || acc.balance < TWO64
    case SubBalance(_, amount) => amount == 0 || acc.balance < TWO64
    case SetBalance(_, _) => acc.balance < TWO64
    case SetCode(_, _) => acc.code == []
    case SelfDestruct(_) => acc.balance < TWO64
    case SelfDestruct6780(_) => acc.newContract ==> acc.balance < TWO64
    case _ => true
  }

  /** What a caller must know before the call: the account is new or locally undoable,
      and CreateAccount does not overwrite a changed account. */
  predicate Undoable(w: World, op: Op) {
    match op
    case CreateAccount(a) => a !in w.accounts || (a in w.disk && w.accounts[a] == w.disk[a])
    case _ => OnAccount(op) && op.a in w.accounts ==> LocallyUndoable(w.accounts[op.a], op)
  }

  /** The entry holds only the low 64 bits of the new balance. */
  predicate LocallyReplayable(acc: Account, op: Op)
    requires OnAccount(op)
  {
    match op
    case AddBalance(_, amount) => amount == 0 || NewBalance(acc.balance, op) < TWO64
    case SubBalance(_, amount) => amount == 0 || NewBalance(acc.balance, op) < TWO64
    case SetBalance(_, amount) => amount < TWO64
    case _ => true
  }

  predicate Replayable(w: World, op: Op) {
    OnAccount(op) && (op.a in w.accounts || MayCreate(op)) ==>
      LocallyReplayable(GetOrNew(w, op.a).0.accounts[op.a], op)
  }
}

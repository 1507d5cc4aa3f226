/**
 * What every getter answers after any run of mutators, told from the run alone: balances
 * and the refund as sums, logs as a list, every other field as its last write
 * (vm/state/statedb.go, vm/state/state_object.go).
 */
module EvmReads {
  import opened Basics
  import opened EvmWorld
  import opened EvmWorldProofs
  import opened FiniteSums

  /** None is a panic of one of the mutators. */
  function PerformAll(w: World, ops: seq<Op>): Option<World> {
    if ops == [] then Some(w)
    else match PerformAll(w, ops[..|ops| - 1])
      case None => None
      case Some(m) =>
        match Perform(m, ops[|ops| - 1])
        case Panic => None
        case Done(after, _) => Some(after)
  }

  /** The account that getOrNewStateObject finds, or would make. */
  function Seen(w: World, a: Address): Account {
    if a in w.accounts then w.accounts[a] else Fresh(w, a)
  }

  function LogsOf(w: World, h: Hash): seq<Log> {
    if h in w.logs then w.logs[h] else []
  }

  // ----- what a run leaves, told from the run -------------------------------------------

  /** The account exists: it did, or some mutator made it. */
  function LiveAfter(w: World, ops: seq<Op>, a: Address): bool {
    if ops == [] then a in w.accounts
    else
      var op := ops[|ops| - 1];
      LiveAfter(w, ops[..|ops| - 1], a) || ((MayCreate(op) || op.CreateAccount?) && op.a == a)
  }

  /** The account was made a contract since it was last created. */
  function MadeAfter(w: World, ops: seq<Op>, a: Address): bool {
    if ops == [] then Seen(w, a).newContract
    else
      var before := MadeAfter(w, ops[..|ops| - 1], a);
      match ops[|ops| - 1]
      case BeginContract(b) => before || a == b
      case CreateAccount(b) => before && a != b
      case _ => before
  }

  /** `op` destroys the account: EIP-6780 spares contracts of earlier transactions. */
  predicate Destroys(w: World, before: seq<Op>, op: Op, a: Address) {
    (op.SelfDestruct? || (op.SelfDestruct6780? && MadeAfter(w, before, a))) && op.a == a && LiveAfter(w, before, a)
  }

  function DestroyedAfter(w: World, ops: seq<Op>, a: Address): bool {
    if ops == [] then Seen(w, a).selfDestructed
    else
      var front, op := ops[..|ops| - 1], ops[|ops| - 1];
      if Destroys(w, front, op, a) then true
      else if op == CreateAccount(a) then false
      else DestroyedAfter(w, front, a)
  }

  /** Credits less debits since the balance was last set, as an unbounded integer. */
  function BalanceAfter(w: World, ops: seq<Op>, a: Address): int {
    if ops == [] then Seen(w, a).balance
    else
      var front, op := ops[..|ops| - 1], ops[|ops| - 1];
      var before := BalanceAfter(w, front, a);
      if Destroys(w, front, op, a) then 0
      else match op
        case AddBalance(b, v) => if a == b then before + v else before
        case SubBalance(b, v) => if a == b then before - v else before
        case SetBalance(b, v) => if a == b then v else before
        case CreateAccount(b) => if a == b then INIT_BALANCE else before
        case _ => before
  }

  function NonceAfter(w: World, ops: seq<Op>, a: Address): U64 {
    if ops == [] then Seen(w, a).nonce
    else
      match ops[|ops| - 1]
      case SetNonce(b, v) => if a == b then v else NonceAfter(w, ops[..|ops| - 1], a)
      case CreateAccount(b) => if a == b then 0 else NonceAfter(w, ops[..|ops| - 1], a)
      case _ => NonceAfter(w, ops[..|ops| - 1], a)
  }

  function CodeAfter(w: World, ops: seq<Op>, a: Address): seq<Byte> {
    if ops == [] then Seen(w, a).code
    else
      match ops[|ops| - 1]
      case SetCode(b, v) => if a == b then v else CodeAfter(w, ops[..|ops| - 1], a)
      case CreateAccount(b) => if a == b then [] else CodeAfter(w, ops[..|ops| - 1], a)
      case _ => CodeAfter(w, ops[..|ops| - 1], a)
  }

  /** What GetCommittedState answers: what the reader has, once the account was recreated. */
  function CommittedAfter(w: World, ops: seq<Op>, a: Address): map<Hash, Hash> {
    if ops == [] then Seen(w, a).committed
    else if ops[|ops| - 1] == CreateAccount(a) then Fresh(w, a).committed
    else CommittedAfter(w, ops[..|ops| - 1], a)
  }

  function StateAfter(w: World, ops: seq<Op>, a: Address, k: Hash): Hash {
    if ops == [] then Slot(Seen(w, a), k)
    else
      match ops[|ops| - 1]
      case SetState(b, j, v) => if a == b && j == k then v else StateAfter(w, ops[..|ops| - 1], a, k)
      case CreateAccount(b) =>
        if a == b then Lookup(Fresh(w, a).committed, k) else StateAfter(w, ops[..|ops| - 1], a, k)
      case _ => StateAfter(w, ops[..|ops| - 1], a, k)
  }

  function TransientAfter(w: World, ops: seq<Op>, a: Address, k: Hash): Hash {
    if ops == [] then GetTransient(w.transient, a, k)
    else
      match ops[|ops| - 1]
      case SetTransientState(b, j, v) => if a == b && j == k then v else TransientAfter(w, ops[..|ops| - 1], a, k)
      case _ => TransientAfter(w, ops[..|ops| - 1], a, k)
  }

  /** Refunds added less refunds taken back, as an unbounded integer. */
  function RefundAfter(w: World, ops: seq<Op>): int {
    if ops == [] then w.refund
    else
      var before := RefundAfter(w, ops[..|ops| - 1]);
      match ops[|ops| - 1]
      case AddRefund(gas) => before + gas
      case SubRefund(gas) => before - gas
      case _ => before
  }

  function LogCount(ops: seq<Op>): nat {
    if ops == [] then 0 else LogCount(ops[..|ops| - 1]) + if ops[|ops| - 1].AddLog? then 1 else 0
  }

  /** The logs of one transaction, numbered over all transactions from `first`. */
  function Emitted(ops: seq<Op>, h: Hash, first: nat): seq<Log> {
    if ops == [] then []
    else
      var before, op := Emitted(ops[..|ops| - 1], h, first), ops[|ops| - 1];
      if op.AddLog? && op.txHash == h then before + [Log(h, first + LogCount(ops[..|ops| - 1]), op.payload)] else before
  }

  // ----- one mutator --------------------------------------------------------------------

  /** Mutators of account `a`. */
  predicate Touches(op: Op, a: Address) {
    (OnAccount(op) || op.CreateAccount?) && op.a == a
  }

  /** No mutator but those of account `a` changes what is seen of it. */
  lemma OthersSeen(w: World, op: Op, a: Address)
    requires Perform(w, op).Done? && !Touches(op, a)
    ensures Seen(Perform(w, op).world, a) == Seen(w, a)
    ensures a in Perform(w, op).world.accounts <==> a in w.accounts
  {
    if OnAccount(op) { OtherPut(w, op, a); }
  }

  lemma OtherPut(w: World, op: Op, a: Address)
    requires Perform(w, op).Done? && OnAccount(op) && op.a != a
    ensures Seen(Perform(w, op).world, a) == Seen(w, a)
    ensures a in Perform(w, op).world.accounts <==> a in w.accounts
  {
  }

  /** A mutator on an account acts on what is seen of it. */
  lemma OwnSeen(w: World, op: Op)
    requires Perform(w, op).Done? && OnAccount(op)
    ensures var live := op.a in w.accounts || MayCreate(op);
            Seen(Perform(w, op).world, op.a) == (if live then Local(Seen(w, op.a), op).0 else Seen(w, op.a)) &&
            (op.a in Perform(w, op).world.accounts <==> live)
  {
  }

  lemma SlotSet(acc: Account, k: Hash, v: Hash, j: Hash)
    ensures Slot(SetSlot(acc, k, v, Lookup(acc.committed, k)), j) == if j == k then v else Slot(acc, j)
  {
  }

  lemma TransientSet(t: map<Address, map<Hash, Hash>>, a: Address, k: Hash, v: Hash, b: Address, j: Hash)
    ensures GetTransient(SetTransient(t, a, k, v), b, j) == if a == b && j == k then v else GetTransient(t, b, j)
  {
    if v == ZERO && a in t && t[a] - {k} == map[] { OnlyKey(t[a], k); }
  }

  lemma OnlyKey(m: map<Hash, Hash>, k: Hash)
    requires m - {k} == map[]
    ensures forall j :: j in m ==> j == k
  {
    forall j | j in m ensures j == k { assert j != k ==> j in m - {k}; }
  }

  lemma Wraps(x: int, v: int)
    ensures Wrap256(Wrap256(x) + v) == Wrap256(x + v)
  {
  }

  lemma Wraps64(x: int, v: int)
    ensures Low64(Low64(x) + v) == Low64(x + v)
  {
  }

  // ----- any run ------------------------------------------------------------------------

  /** All that is seen of account `a` and its slot `k`. */
  ghost predicate AccountReads(w: World, ops: seq<Op>, m: World, a: Address, k: Hash) {
    var acc := Seen(m, a);
    && (a in m.accounts <==> LiveAfter(w, ops, a))
    && acc.balance == Wrap256(BalanceAfter(w, ops, a))
    && acc.nonce == NonceAfter(w, ops, a)
    && acc.code == CodeAfter(w, ops, a)
    && acc.committed == CommittedAfter(w, ops, a)
    && Slot(acc, k) == StateAfter(w, ops, a, k)
    && acc.selfDestructed == DestroyedAfter(w, ops, a)
    && acc.newContract == MadeAfter(w, ops, a)
  }

  /** What mutators of accounts leave alone. */
  lemma RestKept(w: World, op: Op)
    requires Perform(w, op).Done?
    ensures var m := Perform(w, op).world;
            && m.disk == w.disk
            && (!op.SetTransientState? ==> m.transient == w.transient)
            && (!op.AddRefund? && !op.SubRefund? ==> m.refund == w.refund)
            && (!op.AddLog? ==> m.logs == w.logs && m.logSize == w.logSize)
  {
  }

  lemma {:induction false} DiskKept(w: World, ops: seq<Op>)
    requires PerformAll(w, ops).Some?
    ensures PerformAll(w, ops).value.disk == w.disk
  {
    if ops != [] {
      DiskKept(w, ops[..|ops| - 1]);
      RestKept(PerformAll(w, ops[..|ops| - 1]).value, ops[|ops| - 1]);
    }
  }

  lemma Credited(acc: Account, op: Op, x: int)
    requires op.AddBalance? && acc.balance == Wrap256(x)
    ensures Local(acc, op).0.balance == Wrap256(x + op.amount)
  {
    Wraps(x, op.amount);
  }

  lemma Debited(acc: Account, op: Op, x: int)
    requires op.SubBalance? && acc.balance == Wrap256(x)
    ensures Local(acc, op).0.balance == Wrap256(x - op.amount)
  {
    Wraps(x, 0 - op.amount);
  }

  /** The other mutators of a balance. */
  lemma LocalBalance(acc: Account, op: Op)
    requires OnAccount(op) && !op.AddBalance? && !op.SubBalance?
    ensures Local(acc, op).0.balance ==
            if op.SetBalance? then op.amount
            else if op.SelfDestruct? || (op.SelfDestruct6780? && acc.newContract) then 0
            else acc.balance
  {
  }

  /** Nonce, code and storage are written by their own setters only. */
  lemma LocalWrites(acc: Account, op: Op, k: Hash)
    requires OnAccount(op)
    ensures var after := Local(acc, op).0;
            && after.nonce == (if op.SetNonce? then op.nonce else acc.nonce)
            && after.code == (if op.SetCode? then op.code else acc.code)
            && after.committed == acc.committed
            && Slot(after, k) == if op.SetState? && op.key == k then op.value else Slot(acc, k)
  {
    if op.SetState? { SlotSet(acc, op.key, op.value, k); }
  }

  lemma LocalFlags(acc: Account, op: Op)
    requires OnAccount(op)
    ensures var after := Local(acc, op).0;
            && after.newContract == (acc.newContract || op.BeginContract?)
            && after.selfDestructed ==
               (acc.selfDestructed || op.SelfDestruct? || (op.SelfDestruct6780? && acc.newContract))
  {
  }

  lemma BalanceStep(w: World, ops: seq<Op>, acc: Account)
    requires ops != []
    requires var front, op := ops[..|ops| - 1], ops[|ops| - 1];
             OnAccount(op) && acc.balance == Wrap256(BalanceAfter(w, front, op.a)) &&
             acc.newContract == MadeAfter(w, front, op.a) && (MayCreate(op) || LiveAfter(w, front, op.a))
    ensures var op := ops[|ops| - 1]; Local(acc, op).0.balance == Wrap256(BalanceAfter(w, ops, op.a))
  {
    var front, op := ops[..|ops| - 1], ops[|ops| - 1];
    if op.AddBalance? {
      Credited(acc, op, BalanceAfter(w, front, op.a));
    } else if op.SubBalance? {
      Debited(acc, op, BalanceAfter(w, front, op.a));
    } else {
      LocalBalance(acc, op);
    }
  }

  /** A mutator of account `a`, which exists or is made. */
  lemma OwnStep(w: World, ops: seq<Op>, m: World, k: Hash)
    requires ops != []
    requires var front, op := ops[..|ops| - 1], ops[|ops| - 1];
             OnAccount(op) && (op.a in m.accounts || MayCreate(op)) && AccountReads(w, front, m, op.a, k)
    ensures var op := ops[|ops| - 1]; AccountReads(w, ops, Perform(m, op).world, op.a, k)
  {
    var op := ops[|ops| - 1];
    var acc := Seen(m, op.a);
    OwnSeen(m, op);
    BalanceStep(w, ops, acc);
    LocalWrites(acc, op, k);
    LocalFlags(acc, op);
  }

  /** A destruction of a missing account does nothing. */
  lemma MissingStep(w: World, ops: seq<Op>, m: World, k: Hash)
    requires ops != []
    requires var front, op := ops[..|ops| - 1], ops[|ops| - 1];
             OnAccount(op) && Perform(m, op).Done? && !(op.a in m.accounts || MayCreate(op)) &&
             AccountReads(w, front, m, op.a, k)
    ensures var op := ops[|ops| - 1]; AccountReads(w, ops, Perform(m, op).world, op.a, k)
  {
    OwnSeen(m, ops[|ops| - 1]);
  }

  lemma OtherStep(w: World, ops: seq<Op>, m: World, a: Address, k: Hash)
    requires ops != []
    requires var front, op := ops[..|ops| - 1], ops[|ops| - 1];
             !Touches(op, a) && Perform(m, op).Done? && AccountReads(w, front, m, a, k)
    ensures AccountReads(w, ops, Perform(m, ops[|ops| - 1]).world, a, k)
  {
    OthersSeen(m, ops[|ops| - 1], a);
  }

  lemma CreatedStep(w: World, ops: seq<Op>, m: World, a: Address, k: Hash)
    requires ops != [] && ops[|ops| - 1] == CreateAccount(a) && m.disk == w.disk
    ensures AccountReads(w, ops, Perform(m, CreateAccount(a)).world, a, k)
  {
    assert Seen(Perform(m, CreateAccount(a)).world, a) == Fresh(w, a);
  }

  /** MAIN: what is seen of any account after any run of mutators. */
  lemma {:induction false} AccountsRead(w: World, ops: seq<Op>, a: Address, k: Hash)
    requires PerformAll(w, ops).Some?
    ensures AccountReads(w, ops, PerformAll(w, ops).value, a, k)
  {
    if ops != [] {
      var front, op := ops[..|ops| - 1], ops[|ops| - 1];
      AccountsRead(w, front, a, k);
      DiskKept(w, front);
      var m := PerformAll(w, front).value;
      if !Touches(op, a) {
        OtherStep(w, ops, m, a, k);
      } else if op.CreateAccount? {
        CreatedStep(w, ops, m, a, k);
      } else if a in m.accounts || MayCreate(op) {
        OwnStep(w, ops, m, k);
      } else {
        MissingStep(w, ops, m, k);
      }
    }
  }

  // ----- what belongs to no account -------------------------------------------------------

  lemma {:induction false} TransientReads(w: World, ops: seq<Op>, a: Address, k: Hash)
    requires PerformAll(w, ops).Some?
    ensures GetTransient(PerformAll(w, ops).value.transient, a, k) == TransientAfter(w, ops, a, k)
  {
    if ops != [] {
      var front, op := ops[..|ops| - 1], ops[|ops| - 1];
      TransientReads(w, front, a, k);
      RestKept(PerformAll(w, front).value, op);
      if op.SetTransientState? {
        TransientSet(PerformAll(w, front).value.transient, op.a, op.key, op.value, a, k);
      }
    }
  }

  /** What a mutator does to the refund. */
  function RefundChanged(op: Op): int {
    match op
    case AddRefund(gas) => gas
    case SubRefund(gas) => 0 - gas
    case _ => 0
  }

  lemma RefundStep(w: World, op: Op)
    requires Perform(w, op).Done?
    ensures Perform(w, op).world.refund == Low64(w.refund + RefundChanged(op))
  {
    RestKept(w, op);
  }

  lemma {:induction false} RefundReads(w: World, ops: seq<Op>)
    requires PerformAll(w, ops).Some?
    ensures PerformAll(w, ops).value.refund == Low64(RefundAfter(w, ops))
  {
    if ops != [] {
      var front, op := ops[..|ops| - 1], ops[|ops| - 1];
      RefundReads(w, front);
      RefundStep(PerformAll(w, front).value, op);
      Wraps64(RefundAfter(w, front), RefundChanged(op));
    }
  }

  lemma LogsStep(w: World, op: Op, h: Hash)
    requires Perform(w, op).Done?
    ensures var m := Perform(w, op).world;
            if op.AddLog? then
              m.logSize == w.logSize + 1 &&
              LogsOf(m, h) == LogsOf(w, h) + if op.txHash == h then [Log(h, w.logSize, op.payload)] else []
            else m.logSize == w.logSize && m.logs == w.logs
  {
  }

  lemma {:induction false} LogsRead(w: World, ops: seq<Op>, h: Hash)
    requires PerformAll(w, ops).Some?
    ensures var m := PerformAll(w, ops).value;
            m.logSize == w.logSize + LogCount(ops) && LogsOf(m, h) == LogsOf(w, h) + Emitted(ops, h, w.logSize)
  {
    if ops != [] {
      var front, op := ops[..|ops| - 1], ops[|ops| - 1];
      LogsRead(w, front, h);
      LogsStep(PerformAll(w, front).value, op, h);
    }
  }

  lemma OnePanics(w: World, op: Op)
    ensures Perform(w, op).Panic? <==>
            (op.SubRefund? && w.refund < op.gas) || (op.BeginContract? && op.a !in w.accounts)
  {
  }

  /** A run stops exactly at a refund that exceeds the counter or a contract without account. */
  lemma PanicsIff(w: World, ops: seq<Op>, op: Op)
    requires PerformAll(w, ops).Some?
    ensures PerformAll(w, ops + [op]).None? <==>
            (op.SubRefund? && Low64(RefundAfter(w, ops)) < op.gas) ||
            (op.BeginContract? && !LiveAfter(w, ops, op.a))
  {
    var m := PerformAll(w, ops).value;
    assert (ops + [op])[..|ops|] == ops;
    assert PerformAll(w, ops + [op]).None? <==> Perform(m, op).Panic?;
    OnePanics(m, op);
    RefundReads(w, ops);
    if op.BeginContract? { AccountsRead(w, ops, op.a, 0); }
  }

  // ----- transfers ------------------------------------------------------------------------

  datatype Payment = Payment(from: Address, to: Address, value: U256)

  /** Transfer behind CanTransfer: a payment that is not covered is not made. */
  function Pay(w: World, p: Payment): World {
    if Seen(w, p.from).balance < p.value then w
    else
      var debited := Perform(w, SubBalance(p.from, p.value)).world;
      Perform(debited, AddBalance(p.to, p.value)).world
  }

  function PayAll(w: World, ps: seq<Payment>): World {
    if ps == [] then w else Pay(PayAll(w, ps[..|ps| - 1]), ps[|ps| - 1])
  }

  /** The money of a set of accounts. */
  ghost function Money(w: World, accounts: set<Address>): int {
    Sum(Balances(w, accounts), accounts)
  }

  function Balances(w: World, accounts: set<Address>): map<Address, int> {
    map a | a in accounts :: Seen(w, a).balance
  }

  lemma DebitSeen(w: World, a: Address, v: U256, b: Address)
    requires v <= Seen(w, a).balance
    ensures Seen(Perform(w, SubBalance(a, v)).world, b).balance == Seen(w, b).balance - if a == b then v else 0
  {
    if a == b {
      OwnSeen(w, SubBalance(a, v));
      Debited(Seen(w, a), SubBalance(a, v), Seen(w, a).balance);
    } else {
      OthersSeen(w, SubBalance(a, v), b);
    }
  }

  lemma CreditSeen(w: World, a: Address, v: U256, b: Address)
    requires Seen(w, a).balance + v < TWO256
    ensures Seen(Perform(w, AddBalance(a, v)).world, b).balance == Seen(w, b).balance + if a == b then v else 0
  {
    if a == b {
      OwnSeen(w, AddBalance(a, v));
      Credited(Seen(w, a), AddBalance(a, v), Seen(w, a).balance);
    } else {
      OthersSeen(w, AddBalance(a, v), b);
    }
  }

  /** A covered payment, when the payee's balance does not wrap. */
  lemma PayMoves(w: World, p: Payment, a: Address)
    requires p.value <= Seen(w, p.from).balance
    requires p.from != p.to ==> Seen(w, p.to).balance + p.value < TWO256
    ensures Seen(Pay(w, p), a).balance ==
            Seen(w, a).balance + (if a == p.to then p.value else 0) - (if a == p.from then p.value else 0)
  {
    var debited := Perform(w, SubBalance(p.from, p.value)).world;
    DebitSeen(w, p.from, p.value, a);
    DebitSeen(w, p.from, p.value, p.to);
    CreditSeen(debited, p.to, p.value, a);
  }

  /** Two members of a set hold no more than the set. */
  lemma TwoWithin(f: map<Address, int>, accounts: set<Address>, a: Address, b: Address)
    requires accounts <= f.Keys && a in accounts && b in accounts && a != b
    requires forall x :: x in accounts ==> 0 <= f[x]
    ensures f[a] + f[b] <= Sum(f, accounts)
  {
    SumRemove(f, accounts, a);
    SumRemove(f, accounts - {a}, b);
    SumNonNegative(f, accounts - {a} - {b});
  }

  /** Moving a value between two entries keeps the sum. */
  lemma SumMoved(f: map<Address, int>, g: map<Address, int>, keys: set<Address>, a: Address, b: Address, v: int)
    requires keys <= f.Keys && keys <= g.Keys && a in keys && b in keys
    requires forall x :: x in keys ==> g[x] == f[x] + (if x == b then v else 0) - (if x == a then v else 0)
    ensures Sum(g, keys) == Sum(f, keys)
  {
    if a == b {
      SumAgree(f, g, keys);
    } else {
      SumRemove(f, keys, a);
      SumRemove(f, keys - {a}, b);
      SumRemove(g, keys, a);
      SumRemove(g, keys - {a}, b);
      SumAgree(f, g, keys - {a} - {b});
    }
  }

  lemma PayConserves(w: World, p: Payment, accounts: set<Address>)
    requires p.from in accounts && p.to in accounts && Money(w, accounts) < TWO256
    ensures Money(Pay(w, p), accounts) == Money(w, accounts)
  {
    if p.value <= Seen(w, p.from).balance {
      if p.from != p.to { TwoWithin(Balances(w, accounts), accounts, p.from, p.to); }
      forall a | a in accounts
        ensures Seen(Pay(w, p), a).balance ==
                Seen(w, a).balance + (if a == p.to then p.value else 0) - (if a == p.from then p.value else 0)
      {
        PayMoves(w, p, a);
      }
      SumMoved(Balances(w, accounts), Balances(Pay(w, p), accounts), accounts, p.from, p.to, p.value);
    }
  }

  /** MAIN: no list of payments makes or loses money, and none can wrap a balance. */
  lemma {:induction false} PaymentsConserve(w: World, ps: seq<Payment>, accounts: set<Address>)
    requires forall i :: 0 <= i < |ps| ==> ps[i].from in accounts && ps[i].to in accounts
    requires Money(w, accounts) < TWO256
    ensures Money(PayAll(w, ps), accounts) == Money(w, accounts)
  {
    if ps != [] {
      PaymentsConserve(w, ps[..|ps| - 1], accounts);
      PayConserves(PayAll(w, ps[..|ps| - 1]), ps[|ps| - 1], accounts);
    }
  }
}

/**
 * Per-broker, per-shard balances, the broker-1 transactions in flight, and what
 * one bookkeeping entry does to them.
 */
module BrokerBooks {
  import opened FiniteSums
  import opened BrokerMessages
  import opened Allocator

  type Book = map<Address, ShardBalances>

  /** What handleBrokerType1Mes sends for an allocated message: the sender pays the broker. */
  datatype Tx1 = Tx1(recipient: Address, value: int, txType: string,
                     originalSender: Address, finalRecipient: Address)

  function Tx1Of(m: RawMessage): Tx1 {
    Tx1(m.broker, m.tx.value, m.tx.txType, m.tx.sender, m.tx.recipient)
  }

  /** The broker-1 transactions of all the messages. */
  function Tx1s(ms: seq<RawMessage>): (txs: multiset<Tx1>)
  {
    if ms == [] then multiset{} else Tx1s(ms[..|ms| - 1]) + multiset{Tx1Of(ms[|ms| - 1])}
  }

  // ----- entries --------------------------------------------------------------

  ghost predicate Shaped(book: Book, brokers: set<Address>, shards: set<nat>) {
    book.Keys == brokers && forall b {:trigger book[b]} :: b in book ==> book[b].Keys == shards
  }

  function At(book: Book, b: Address, s: nat): int {
    if b in book && s in book[b] then book[b][s] else 0
  }

  function Entry(book: Book, b: Address, s: nat, v: int): (r: Book)
    requires b in book && s in book[b]
    ensures r.Keys == book.Keys && forall x :: x in book ==> r[x].Keys == book[x].Keys
  {
    var row: ShardBalances := book[b];
    book[b := row[s := row[s] + v]]
  }

  lemma EntryAt(book: Book, b: Address, s: nat, v: int, x: Address, y: nat)
    requires b in book && s in book[b]
    ensures At(Entry(book, b, s, v), x, y) == At(book, x, y) + if x == b && y == s then v else 0
  {
  }

  ghost predicate NonNegative(book: Book) {
    forall b, s :: 0 <= At(book, b, s)
  }

  /** Everything a broker holds, over all shards. */
  ghost function Holding(book: Book, b: Address): int {
    if b in book then Sum(book[b], book[b].Keys) else 0
  }

  lemma EntryHolding(book: Book, b: Address, s: nat, v: int, x: Address)
    requires b in book && s in book[b]
    ensures Holding(Entry(book, b, s, v), x) == Holding(book, x) + if x == b then v else 0
  {
    var row: ShardBalances := book[b];
    if x == b { SumUpdate(row, row.Keys, s, row[s] + v); }
  }

  // ----- what transactions in flight are owed ----------------------------------

  predicate Concerns(x: Tx1, ty: string, b: Address, s: nat, shardNum: nat) {
    x.txType == ty && x.recipient == b && ShardOf(x.finalRecipient, shardNum) == s
  }

  function Portion(x: Tx1, ty: string, b: Address, s: nat, shardNum: nat): int {
    if Concerns(x, ty, b, s, shardNum) then x.value else 0
  }

  /** Summed value of the transactions of one type that lock one broker's money on one shard. */
  ghost function Due(txs: multiset<Tx1>, ty: string, b: Address, s: nat, shardNum: nat): (sum: int)
  {
    if txs == multiset{} then 0
    else Portion(AnyOf(txs), ty, b, s, shardNum) + Due(txs - multiset{AnyOf(txs)}, ty, b, s, shardNum)
  }

  ghost function AnyOf(txs: multiset<Tx1>): (x: Tx1)
    requires txs != multiset{}
    ensures x in txs
  {
    var x :| x in txs;
    x
  }

  lemma {:induction false} DueRemove(txs: multiset<Tx1>, x: Tx1, ty: string, b: Address, s: nat, shardNum: nat)
    requires x in txs
    ensures Due(txs, ty, b, s, shardNum) ==
            Portion(x, ty, b, s, shardNum) + Due(txs - multiset{x}, ty, b, s, shardNum)
    decreases |txs|
  {
    var y := AnyOf(txs);
    if y != x {
      DueRemove(txs - multiset{y}, x, ty, b, s, shardNum);
      DueRemove(txs - multiset{x}, y, ty, b, s, shardNum);
      assert txs - multiset{y} - multiset{x} == txs - multiset{x} - multiset{y};
    }
  }

  lemma DueAdd(txs: multiset<Tx1>, x: Tx1, ty: string, b: Address, s: nat, shardNum: nat)
    ensures Due(txs + multiset{x}, ty, b, s, shardNum) ==
            Due(txs, ty, b, s, shardNum) + Portion(x, ty, b, s, shardNum)
  {
    DueRemove(txs + multiset{x}, x, ty, b, s, shardNum);
    assert txs + multiset{x} - multiset{x} == txs;
  }

  lemma {:induction false} DueConcat(txs: multiset<Tx1>, ms: seq<RawMessage>, ty: string, b: Address, s: nat,
                                     shardNum: nat)
    ensures Due(txs + Tx1s(ms), ty, b, s, shardNum) ==
            Due(txs, ty, b, s, shardNum) + Due(Tx1s(ms), ty, b, s, shardNum)
  {
    if ms == [] {
      assert txs + Tx1s(ms) == txs;
    } else {
      var front, x := ms[..|ms| - 1], Tx1Of(ms[|ms| - 1]);
      DueConcat(txs, front, ty, b, s, shardNum);
      DueAdd(Tx1s(front), x, ty, b, s, shardNum);
      DueAdd(txs + Tx1s(front), x, ty, b, s, shardNum);
      assert txs + Tx1s(ms) == txs + Tx1s(front) + multiset{x};
    }
  }

  ghost predicate Payable(txs: multiset<Tx1>) {
    forall x :: x in txs ==> 0 <= x.value
  }

  lemma {:induction false} DueNonNegative(txs: multiset<Tx1>, ty: string, b: Address, s: nat, shardNum: nat)
    requires Payable(txs)
    ensures 0 <= Due(txs, ty, b, s, shardNum)
    decreases |txs|
  {
    if txs != multiset{} {
      var x :| x in txs;
      DueRemove(txs, x, ty, b, s, shardNum);
      DueNonNegative(txs - multiset{x}, ty, b, s, shardNum);
    }
  }

  // ----- the ledger's invariant ------------------------------------------------

  /** What is locked on a slot is what is in flight for it. */
  ghost predicate LockExact(locked: Book, inflight: multiset<Tx1>, ty: string, b: Address, s: nat, shardNum: nat) {
    At(locked, b, s) == Due(inflight, ty, b, s, shardNum)
  }

  ghost predicate Backed(balance: Book, locked: Book, stake: map<Address, int>, b: Address) {
    b in stake && Holding(balance, b) + Holding(locked, b) == stake[b]
  }

  /** No balance and no lock is negative, and both add up to every broker's stake. */
  ghost predicate Conserved(balance: Book, locked: Book, stake: map<Address, int>, shards: set<nat>) {
    Shaped(balance, stake.Keys, shards) && Shaped(locked, stake.Keys, shards) &&
    NonNegative(balance) && NonNegative(locked) &&
    (forall b {:trigger Backed(balance, locked, stake, b)} :: b in stake ==> Backed(balance, locked, stake, b))
  }

  /** What is locked is exactly what is in flight. */
  ghost predicate LocksExact(locked: Book, inflight: multiset<Tx1>, brokers: set<Address>, ty: string,
                             shards: set<nat>, shardNum: nat)
  {
    forall b, s {:trigger LockExact(locked, inflight, ty, b, s, shardNum)} ::
      b in brokers && s in shards ==> LockExact(locked, inflight, ty, b, s, shardNum)
  }

  /** Every transaction in flight is of this type, pays a broker, and pays no negative amount. */
  ghost predicate Known(inflight: multiset<Tx1>, ty: string, brokers: set<Address>) {
    Payable(inflight) && forall x :: x in inflight ==> x.txType == ty && x.recipient in brokers
  }

  /** The two books have the same slots and add up to the stake, negative or not. */
  ghost predicate Balanced(balance: Book, locked: Book, stake: map<Address, int>, shards: set<nat>, shardNum: nat) {
    (forall a :: ShardOf(a, shardNum) in shards) &&
    Shaped(balance, stake.Keys, shards) && Shaped(locked, stake.Keys, shards) &&
    (forall b {:trigger Backed(balance, locked, stake, b)} :: b in stake ==> Backed(balance, locked, stake, b))
  }

  /** What holds whatever is reported, as long as no negative value is. */
  ghost predicate Booked(balance: Book, locked: Book, stake: map<Address, int>, shards: set<nat>, shardNum: nat) {
    (forall a :: ShardOf(a, shardNum) in shards) && Conserved(balance, locked, stake, shards)
  }

  /** What holds as well as long as only transactions in flight are reported. */
  ghost predicate Sound(balance: Book, locked: Book, inflight: multiset<Tx1>, stake: map<Address, int>,
                        ty: string, shards: set<nat>, shardNum: nat)
  {
    Booked(balance, locked, stake, shards, shardNum) && Known(inflight, ty, stake.Keys) &&
    LocksExact(locked, inflight, stake.Keys, ty, shards, shardNum)
  }
}

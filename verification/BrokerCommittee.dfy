/**
 * The broker committee as an object: allocation and confirmation steps in any
 * interleaving (supervisor/committee/committee_broker_b2e.go).
 */
module BrokerCommittee {
  import opened FiniteSums
  import opened BrokerMessages
  import opened Allocator
  import opened Rebalance
  import opened BrokerBooks
  import opened BrokerLedger

  // ----- confirmation -----------------------------------------------------------

  /** Both books have the slots that a transaction in flight moves money between. */
  ghost predicate HasSlots(balance: Book, locked: Book, x: Tx1, shardNum: nat) {
    x.recipient in balance && ShardOf(x.originalSender, shardNum) in balance[x.recipient] &&
    x.recipient in locked && ShardOf(x.finalRecipient, shardNum) in locked[x.recipient]
  }

  function Credited(balance: Book, x: Tx1, shardNum: nat): Book
    requires x.recipient in balance && ShardOf(x.originalSender, shardNum) in balance[x.recipient]
  {
    Entry(balance, x.recipient, ShardOf(x.originalSender, shardNum), x.value)
  }

  function Released(locked: Book, x: Tx1, shardNum: nat): Book
    requires x.recipient in locked && ShardOf(x.finalRecipient, shardNum) in locked[x.recipient]
  {
    Entry(locked, x.recipient, ShardOf(x.finalRecipient, shardNum), -x.value)
  }

  /** The insufficient-lock skip never fires for a transaction in flight. */
  lemma LockCovers(locked: Book, inflight: multiset<Tx1>, x: Tx1, shardNum: nat)
    requires x in inflight && Payable(inflight)
    requires LockExact(locked, inflight, x.txType, x.recipient, ShardOf(x.finalRecipient, shardNum), shardNum)
    ensures x.value <= At(locked, x.recipient, ShardOf(x.finalRecipient, shardNum))
  {
    var s := ShardOf(x.finalRecipient, shardNum);
    DueRemove(inflight, x, x.txType, x.recipient, s, shardNum);
    DueNonNegative(inflight - multiset{x}, x.txType, x.recipient, s, shardNum);
  }

  lemma ReleaseExact(locked: Book, inflight: multiset<Tx1>, x: Tx1, b: Address, s: nat, shardNum: nat)
    requires x in inflight && LockExact(locked, inflight, x.txType, b, s, shardNum)
    requires x.recipient in locked && ShardOf(x.finalRecipient, shardNum) in locked[x.recipient]
    ensures LockExact(Released(locked, x, shardNum), inflight - multiset{x}, x.txType, b, s, shardNum)
  {
    EntryAt(locked, x.recipient, ShardOf(x.finalRecipient, shardNum), -x.value, b, s);
    DueRemove(inflight, x, x.txType, b, s, shardNum);
  }

  lemma ConfirmBacked(balance: Book, locked: Book, stake: map<Address, int>, x: Tx1, b: Address, shardNum: nat)
    requires HasSlots(balance, locked, x, shardNum) && Backed(balance, locked, stake, b)
    ensures Backed(Credited(balance, x, shardNum), Released(locked, x, shardNum), stake, b)
  {
    EntryHolding(balance, x.recipient, ShardOf(x.originalSender, shardNum), x.value, b);
    EntryHolding(locked, x.recipient, ShardOf(x.finalRecipient, shardNum), -x.value, b);
  }

  lemma CreditNonNegativeIff(balance: Book, x: Tx1, shardNum: nat)
    requires NonNegative(balance)
    requires x.recipient in balance && ShardOf(x.originalSender, shardNum) in balance[x.recipient]
    ensures NonNegative(Credited(balance, x, shardNum)) <==>
            0 <= At(balance, x.recipient, ShardOf(x.originalSender, shardNum)) + x.value
  {
    var at := ShardOf(x.originalSender, shardNum);
    forall b, s
      ensures At(Credited(balance, x, shardNum), b, s) ==
              At(balance, b, s) + if b == x.recipient && s == at then x.value else 0
      ensures 0 <= At(balance, b, s)
    {
      EntryAt(balance, x.recipient, at, x.value, b, s);
    }
    assert At(Credited(balance, x, shardNum), x.recipient, at) == At(balance, x.recipient, at) + x.value;
  }

  lemma ReleaseNonNegative(locked: Book, x: Tx1, shardNum: nat)
    requires NonNegative(locked) && x.recipient in locked && ShardOf(x.finalRecipient, shardNum) in locked[x.recipient]
    requires x.value <= At(locked, x.recipient, ShardOf(x.finalRecipient, shardNum))
    ensures NonNegative(Released(locked, x, shardNum))
  {
    forall b, s ensures 0 <= At(Released(locked, x, shardNum), b, s) {
      EntryAt(locked, x.recipient, ShardOf(x.finalRecipient, shardNum), -x.value, b, s);
      assert 0 <= At(locked, b, s);
    }
  }

  /** Whatever is reported, the value goes from the lock to the sender's shard. */
  lemma ConfirmBalanced(balance: Book, locked: Book, stake: map<Address, int>, x: Tx1, shards: set<nat>, shardNum: nat)
    requires Balanced(balance, locked, stake, shards, shardNum) && HasSlots(balance, locked, x, shardNum)
    ensures Balanced(Credited(balance, x, shardNum), Released(locked, x, shardNum), stake, shards, shardNum)
  {
    forall b | b in stake ensures Backed(Credited(balance, x, shardNum), Released(locked, x, shardNum), stake, b) {
      ConfirmBacked(balance, locked, stake, x, b, shardNum);
    }
  }

  /**
   * When the lock covers the value, nothing becomes negative if and only if the sender's
   * shard can take it: always for a value that is not negative itself.
   */
  lemma ConfirmBookedIff(balance: Book, locked: Book, stake: map<Address, int>, x: Tx1, shards: set<nat>, shardNum: nat)
    requires Booked(balance, locked, stake, shards, shardNum) && HasSlots(balance, locked, x, shardNum)
    requires x.value <= At(locked, x.recipient, ShardOf(x.finalRecipient, shardNum))
    ensures Booked(Credited(balance, x, shardNum), Released(locked, x, shardNum), stake, shards, shardNum) <==>
            0 <= At(balance, x.recipient, ShardOf(x.originalSender, shardNum)) + x.value
  {
    CreditNonNegativeIff(balance, x, shardNum);
    ReleaseNonNegative(locked, x, shardNum);
    ConfirmBalanced(balance, locked, stake, x, shards, shardNum);
  }

  lemma ReleaseLocks(locked: Book, inflight: multiset<Tx1>, brokers: set<Address>,
                     x: Tx1, shards: set<nat>, shardNum: nat)
    requires LocksExact(locked, inflight, brokers, x.txType, shards, shardNum) && x in inflight
    requires x.recipient in locked && ShardOf(x.finalRecipient, shardNum) in locked[x.recipient]
    ensures LocksExact(Released(locked, x, shardNum), inflight - multiset{x}, brokers, x.txType, shards, shardNum)
  {
    forall b, s | b in brokers && s in shards
      ensures LockExact(Released(locked, x, shardNum), inflight - multiset{x}, x.txType, b, s, shardNum)
    {
      assert LockExact(locked, inflight, x.txType, b, s, shardNum);
      ReleaseExact(locked, inflight, x, b, s, shardNum);
    }
  }

  lemma InflightCovered(locked: Book, inflight: multiset<Tx1>, brokers: set<Address>, ty: string, shards: set<nat>,
                        shardNum: nat, x: Tx1)
    requires LocksExact(locked, inflight, brokers, ty, shards, shardNum) && Known(inflight, ty, brokers)
    requires x in inflight && ShardOf(x.finalRecipient, shardNum) in shards
    ensures x.txType == ty && x.value <= At(locked, x.recipient, ShardOf(x.finalRecipient, shardNum))
  {
    assert LockExact(locked, inflight, x.txType, x.recipient, ShardOf(x.finalRecipient, shardNum), shardNum);
    LockCovers(locked, inflight, x, shardNum);
  }

  lemma KnownLess(inflight: multiset<Tx1>, gone: multiset<Tx1>, ty: string, brokers: set<Address>)
    requires Known(inflight, ty, brokers)
    ensures Known(inflight - gone, ty, brokers)
  {
    forall y | y in inflight - gone ensures y in inflight { }
  }

  /** One confirmation of a transaction in flight keeps the ledger sound. */
  lemma ConfirmKeeps(balance: Book, locked: Book, inflight: multiset<Tx1>, stake: map<Address, int>,
                     ty: string, shards: set<nat>, shardNum: nat, x: Tx1)
    requires Sound(balance, locked, inflight, stake, ty, shards, shardNum) && x in inflight
    requires HasSlots(balance, locked, x, shardNum)
    ensures x.value <= At(locked, x.recipient, ShardOf(x.finalRecipient, shardNum))
    ensures Sound(Credited(balance, x, shardNum), Released(locked, x, shardNum), inflight - multiset{x},
                  stake, ty, shards, shardNum)
  {
    assert ShardOf(x.finalRecipient, shardNum) in shards;
    InflightCovered(locked, inflight, stake.Keys, ty, shards, shardNum, x);
    KnownLess(inflight, multiset{x}, ty, stake.Keys);
    assert 0 <= At(balance, x.recipient, ShardOf(x.originalSender, shardNum)) + x.value;
    ConfirmBookedIff(balance, locked, stake, x, shards, shardNum);
    ReleaseLocks(locked, inflight, stake.Keys, x, shards, shardNum);
  }

  /**
   * From exact locks, a covered report leaves them exact if and only if the transaction
   * was in flight or carries no value.
   */
  lemma ConfirmExactIff(locked: Book, inflight: multiset<Tx1>, brokers: set<Address>,
                        x: Tx1, shards: set<nat>, shardNum: nat)
    requires LocksExact(locked, inflight, brokers, x.txType, shards, shardNum) && x.recipient in brokers
    requires x.recipient in locked && ShardOf(x.finalRecipient, shardNum) in locked[x.recipient]
    requires ShardOf(x.finalRecipient, shardNum) in shards
    ensures LocksExact(Released(locked, x, shardNum), inflight - multiset{x}, brokers, x.txType, shards, shardNum)
            <==> x in inflight || x.value == 0
  {
    var f := ShardOf(x.finalRecipient, shardNum);
    var lock := Released(locked, x, shardNum);
    if x in inflight {
      ReleaseLocks(locked, inflight, brokers, x, shards, shardNum);
    } else {
      assert inflight - multiset{x} == inflight;
      forall b, s | b in brokers && s in shards
        ensures LockExact(lock, inflight, x.txType, b, s, shardNum) <==>
                x.value == 0 || b != x.recipient || s != f
      {
        assert LockExact(locked, inflight, x.txType, b, s, shardNum);
        EntryAt(locked, x.recipient, f, -x.value, b, s);
      }
      assert LockExact(lock, inflight, x.txType, x.recipient, f, shardNum) <==> x.value == 0;
    }
  }

  /** Two transactions that lock the same broker's money on shard 1, for the witness below. */
  function FirstReport(): Tx1 {
    Tx1(Ending('a'), 5, "t", Ending('0'), Ending('1'))
  }

  function SecondReport(): Tx1 {
    Tx1(Ending('a'), 5, "t", Ending('2'), Ending('3'))
  }

  lemma WitnessShards()
    ensures ShardOf(Ending('0'), 2) == 0 && ShardOf(Ending('1'), 2) == 1
    ensures ShardOf(Ending('2'), 2) == 0 && ShardOf(Ending('3'), 2) == 1
    ensures FirstReport() != SecondReport()
  {
    LastDigitDecides(Ending('0'));
    LastDigitDecides(Ending('1'));
    LastDigitDecides(Ending('2'));
    LastDigitDecides(Ending('3'));
  }

  lemma WitnessDue(s: nat)
    requires s == 0 || s == 1
    ensures Due(multiset{FirstReport(), SecondReport()}, "t", Ending('a'), s, 2) == if s == 1 then 10 else 0
  {
    var x, y := FirstReport(), SecondReport();
    WitnessShards();
    DueAdd(multiset{x}, y, "t", Ending('a'), s, 2);
    DueAdd(multiset{}, x, "t", Ending('a'), s, 2);
    assert multiset{} + multiset{x} == multiset{x} && multiset{x} + multiset{y} == multiset{x, y};
  }

  /**
   * Two cross-shard transactions in flight, 5 locked for each: the first is settled, and
   * reporting it again takes the second one's lock, which is then too small to settle it.
   */
  lemma RepeatedReportTakesAnother()
    ensures var x, y, b := FirstReport(), SecondReport(), Ending('a');
            var locked: Book := map[b := map[0 := 0, 1 := 10]];
            && ShardOf(x.originalSender, 2) != ShardOf(x.finalRecipient, 2) == 1
            && ShardOf(y.originalSender, 2) != ShardOf(y.finalRecipient, 2) == 1
            && LocksExact(locked, multiset{x, y}, {b}, "t", {0, 1}, 2)
            && var once := Released(locked, x, 2);
               var twice := Released(once, x, 2);
               && LocksExact(once, multiset{y}, {b}, "t", {0, 1}, 2)
               && !LocksExact(twice, multiset{y} - multiset{x}, {b}, "t", {0, 1}, 2)
               && At(twice, b, 1) < y.value
  {
    var x, y, b := FirstReport(), SecondReport(), Ending('a');
    var locked: Book := map[b := map[0 := 0, 1 := 10]];
    WitnessShards();
    forall c, s | c in {b} && s in {0, 1} ensures LockExact(locked, multiset{x, y}, "t", c, s, 2) {
      WitnessDue(s);
    }
    ReleaseLocks(locked, multiset{x, y}, {b}, x, {0, 1}, 2);
    assert multiset{x, y} - multiset{x} == multiset{y};
    var once := Released(locked, x, 2);
    ConfirmExactIff(once, multiset{y}, {b}, x, {0, 1}, 2);
    EntryAt(locked, b, 1, -5, b, 1);
    EntryAt(once, b, 1, -5, b, 1);
  }

  // ----- allocation -------------------------------------------------------------

  lemma LockSlot(locked: Book, locked': Book, inflight: multiset<Tx1>, ty: string, ms: seq<RawMessage>,
                 b: Address, s: nat, shardNum: nat)
    requires LockExact(locked, inflight, ty, b, s, shardNum)
    requires At(locked, b, s) == At(locked', b, s) - Claim(ms, ty, b, s, shardNum)
    ensures LockExact(locked', inflight + Tx1s(ms), ty, b, s, shardNum)
  {
    DueConcat(inflight, ms, ty, b, s, shardNum);
    ClaimIsDue(ms, ty, b, s, shardNum);
  }

  lemma LockBacked(balance: Book, moved: Book, after: Book, locked: Book, locked': Book, stake: map<Address, int>,
                   ty: string, ms: seq<RawMessage>, b: Address, shards: set<nat>, shardNum: nat)
    requires Backed(balance, locked, stake, b) && Holding(moved, b) == Holding(balance, b)
    requires AllBillable(ms, ty, moved, shardNum) && Shaped(moved, moved.Keys, shards)
    requires Drawn(moved, after, ms, ty, shardNum) && b in moved
    requires Drawn(locked', locked, ms, ty, shardNum) && b in locked' && locked'[b].Keys == shards
    ensures Backed(after, locked', stake, b)
  {
    forall i | 0 <= i < |ms| ensures ms[i].tx.txType == ty && ShardOf(ms[i].tx.recipient, shardNum) in shards {
      assert Billable(ms[i], ty, moved, shardNum);
    }
    DrawnHolding(moved, after, ms, ty, b, shards, shardNum);
    DrawnHolding(locked', locked, ms, ty, b, shards, shardNum);
  }

  /** Locking adds to the locks what is claimed. */
  lemma LockedNonNegative(locked: Book, locked': Book, ms: seq<RawMessage>, ty: string, shardNum: nat)
    requires NonNegative(locked) && Drawn(locked', locked, ms, ty, shardNum) && AllBillable(ms, ty, locked, shardNum)
    ensures NonNegative(locked')
  {
    forall b, s ensures 0 <= At(locked', b, s) {
      assert 0 <= At(locked, b, s);
      assert At(locked, b, s) == At(locked', b, s) - Claim(ms, ty, b, s, shardNum);
      ClaimNonNegative(ms, ty, b, s, locked, shardNum);
    }
  }

  /** Moving money between shards and then locking it conserves it. */
  lemma LockConserves(balance: Book, moved: Book, after: Book, locked: Book, locked': Book, stake: map<Address, int>,
                      ty: string, ms: seq<RawMessage>, shards: set<nat>, shardNum: nat)
    requires Conserved(balance, locked, stake, shards)
    requires Shaped(moved, stake.Keys, shards) && forall b :: b in stake ==> Holding(moved, b) == Holding(balance, b)
    requires AllBillable(ms, ty, moved, shardNum) && AllBillable(ms, ty, locked, shardNum)
    requires Drawn(moved, after, ms, ty, shardNum) && Drawn(locked', locked, ms, ty, shardNum) && NonNegative(after)
    ensures Conserved(after, locked', stake, shards)
  {
    LockedNonNegative(locked, locked', ms, ty, shardNum);
    forall b | b in stake ensures Backed(after, locked', stake, b) {
      LockBacked(balance, moved, after, locked, locked', stake, ty, ms, b, shards, shardNum);
    }
  }

  /** And keeps exact locks exact. */
  lemma LockLocks(locked: Book, locked': Book, inflight: multiset<Tx1>, brokers: set<Address>, ty: string,
                  ms: seq<RawMessage>, shards: set<nat>, shardNum: nat)
    requires LocksExact(locked, inflight, brokers, ty, shards, shardNum) && Drawn(locked', locked, ms, ty, shardNum)
    ensures LocksExact(locked', inflight + Tx1s(ms), brokers, ty, shards, shardNum)
  {
    forall b, s | b in brokers && s in shards
      ensures LockExact(locked', inflight + Tx1s(ms), ty, b, s, shardNum)
    {
      assert LockExact(locked, inflight, ty, b, s, shardNum);
      LockSlot(locked, locked', inflight, ty, ms, b, s, shardNum);
    }
  }

  /**
   * Rebalance, then lock.  A broker's messages may exceed what it has on the
   * recipients' shards, as long as they do not exceed what it has on all shards.
   */
  method Settle(ms: seq<RawMessage>, balance: Book, locked: Book, brokers: seq<Address>, shards: set<nat>,
                shardNum: nat, ghost ty: string, ghost inflight: multiset<Tx1>, ghost stake: map<Address, int>)
    returns (after: Book, locked': Book, ghost change: Book)
    requires Conserved(balance, locked, stake, shards)
    requires AllBillable(ms, ty, balance, shardNum) && forall b :: b in balance ==> b in brokers
    requires forall b :: b in balance ==> Total(ms, b) <= Holding(balance, b)
    ensures Conserved(after, locked', stake, shards)
    ensures LocksExact(locked, inflight, stake.Keys, ty, shards, shardNum) ==>
      LocksExact(locked', inflight + Tx1s(ms), stake.Keys, ty, shards, shardNum)
    ensures Settled(balance, after, change, ms, ty, shardNum)
  {
    var moves;
    ghost var peek, final;
    moves, peek, final, change := GenerateMoves(ms, balance, shards, shardNum, ty);
    PeekAffordable(balance, peek, ms, ty, shards, shardNum);
    EveryMoveCovered(balance, peek, final, change, moves, ms, ty, shards, shardNum);
    KnownMovers(moves, change, balance, shards);
    var moved := HandleMoves(moves, balance);
    MovesSuffice(balance, peek, final, change, moves, moved, ms, ty, shards, shardNum);
    MovedHoldings(balance, moved, peek, final, change, moves, shards);
    StillBillable(ms, ty, balance, moved, shardNum);
    StillBillable(ms, ty, balance, locked, shardNum);
    after, locked' := LockToken(ms, moved, locked, brokers, shardNum, ty);
    LockConserves(balance, moved, after, locked, locked', stake, ty, ms, shards, shardNum);
    if LocksExact(locked, inflight, stake.Keys, ty, shards, shardNum) {
      LockLocks(locked, locked', inflight, stake.Keys, ty, ms, shards, shardNum);
    }
    MovesSettle(balance, peek, final, change, moves, moved, after, ms, ty, shards, shardNum);
  }

  /**
   * Slot by slot: what was moved in or out, less what was locked.  Moves cancel out
   * over a broker's shards; a shard short of its claims only receives, and no more
   * than it is short of; any other only gives, and no more than it can spare.
   */
  ghost predicate SlotSettled(before: Book, after: Book, change: Book, ms: seq<RawMessage>, ty: string,
                              b: Address, s: nat, shardNum: nat)
  {
    var spare := At(before, b, s) - Claim(ms, ty, b, s, shardNum);
    At(after, b, s) == spare + At(change, b, s) &&
    (if spare < 0 then 0 <= At(change, b, s) <= -spare else -spare <= At(change, b, s) <= 0)
  }

  ghost predicate Settled(before: Book, after: Book, change: Book, ms: seq<RawMessage>, ty: string, shardNum: nat) {
    (forall b {:trigger Holding(change, b)} :: b in before ==> Holding(change, b) == 0) &&
    (forall b, s {:trigger SlotSettled(before, after, change, ms, ty, b, s, shardNum)} ::
      b in before && s in before[b] ==> SlotSettled(before, after, change, ms, ty, b, s, shardNum))
  }

  lemma MovesSettle(balance: Book, peek: Book, final: Book, change: Book, moves: Moves, moved: Book, after: Book,
                    ms: seq<RawMessage>, ty: string, shards: set<nat>, shardNum: nat)
    requires Shaped(balance, balance.Keys, shards) && Shaped(change, balance.Keys, shards)
    requires Drawn(balance, peek, ms, ty, shardNum) && Drawn(moved, after, ms, ty, shardNum)
    requires forall b :: b in balance ==> Covered(peek, final, change, b)
    requires Says(moves, change, balance.Keys, shards) && AllApplied(balance, moved, moves, moves.Keys)
    ensures Settled(balance, after, change, ms, ty, shardNum)
  {
    forall b | b in balance ensures Holding(change, b) == 0 { assert Covered(peek, final, change, b); }
    forall b, s | b in balance && s in balance[b]
      ensures SlotSettled(balance, after, change, ms, ty, b, s, shardNum)
    {
      assert Covered(peek, final, change, b);
      assert ListSays(moves[s], change, balance.Keys, s);
      assert At(moved, b, s) == At(balance, b, s) + Net(moves[s], b);
      assert At(after, b, s) == At(moved, b, s) - Claim(ms, ty, b, s, shardNum);
      assert At(peek, b, s) == At(balance, b, s) - Claim(ms, ty, b, s, shardNum);
    }
  }

  lemma PeekAffordable(balance: Book, peek: Book, ms: seq<RawMessage>, ty: string, shards: set<nat>, shardNum: nat)
    requires Shaped(balance, balance.Keys, shards) && AllBillable(ms, ty, balance, shardNum)
    requires Drawn(balance, peek, ms, ty, shardNum)
    requires forall b :: b in balance ==> Total(ms, b) <= Holding(balance, b)
    ensures forall b :: b in balance ==> 0 <= Holding(peek, b)
  {
    forall i | 0 <= i < |ms| ensures ms[i].tx.txType == ty && ShardOf(ms[i].tx.recipient, shardNum) in shards {
      assert Billable(ms[i], ty, balance, shardNum);
    }
    forall b | b in balance ensures 0 <= Holding(peek, b) {
      DrawnHolding(balance, peek, ms, ty, b, shards, shardNum);
    }
  }

  lemma KnownMovers(moves: Moves, change: Book, balance: Book, shards: set<nat>)
    requires Shaped(balance, balance.Keys, shards) && Says(moves, change, balance.Keys, shards)
    ensures forall s, i :: s in moves && 0 <= i < |moves[s]| ==>
      moves[s][i].broker in balance && s in balance[moves[s][i].broker]
  {
    forall s, i | s in moves && 0 <= i < |moves[s]|
      ensures moves[s][i].broker in balance && s in balance[moves[s][i].broker]
    {
      assert ListSays(moves[s], change, balance.Keys, s);
      assert moves[s][i] in moves[s];
    }
  }

  lemma MovedHoldings(balance: Book, moved: Book, peek: Book, final: Book, change: Book, moves: Moves, shards: set<nat>)
    requires Shaped(balance, balance.Keys, shards) && Shaped(change, balance.Keys, shards)
    requires forall b :: b in balance ==> Covered(peek, final, change, b)
    requires Says(moves, change, balance.Keys, shards) && AllApplied(balance, moved, moves, moves.Keys)
    ensures forall b :: b in balance ==> Holding(moved, b) == Holding(balance, b)
  {
    forall b | b in balance ensures Holding(moved, b) == Holding(balance, b) {
      assert Covered(peek, final, change, b);
      MovesHolding(balance, moved, change, moves, b, shards);
    }
  }

  lemma StillBillable(ms: seq<RawMessage>, ty: string, book: Book, other: Book, shardNum: nat)
    requires AllBillable(ms, ty, book, shardNum)
    requires other.Keys == book.Keys && forall b :: b in book ==> other[b].Keys == book[b].Keys
    ensures AllBillable(ms, ty, other, shardNum)
  {
    forall i | 0 <= i < |ms| ensures Billable(ms[i], ty, other, shardNum) {
      assert Billable(ms[i], ty, book, shardNum);
    }
  }

  lemma {:induction false} KnownMore(inflight: multiset<Tx1>, ms: seq<RawMessage>, ty: string,
                                     brokers: set<Address>, book: Book, shardNum: nat)
    requires Known(inflight, ty, brokers) && book.Keys == brokers && AllBillable(ms, ty, book, shardNum)
    ensures Known(inflight + Tx1s(ms), ty, brokers)
  {
    if ms == [] {
      assert inflight + Tx1s(ms) == inflight;
    } else {
      var front, m := ms[..|ms| - 1], ms[|ms| - 1];
      forall i | 0 <= i < |front| ensures Billable(front[i], ty, book, shardNum) {
        assert Billable(ms[i], ty, book, shardNum);
      }
      KnownMore(inflight, front, ty, brokers, book, shardNum);
      assert Billable(m, ty, book, shardNum);
      assert inflight + Tx1s(ms) == inflight + Tx1s(front) + multiset{Tx1Of(m)};
    }
  }

  // ----- sorting incoming transactions -------------------------------------------

  /** The messages made for the cross-shard transactions, in order. */
  function CrossMessages(txs: seq<Transaction>, broker: Address, shardNum: nat): (ms: seq<RawMessage>)
  {
    if txs == [] then []
    else
      var ms, t := CrossMessages(txs[..|txs| - 1], broker, shardNum), txs[|txs| - 1];
      if t.recipient != t.sender && CrossShard(t, shardNum) then ms + [RawMessage(t, broker)] else ms
  }

  /** The transactions that stay inside one shard, in order; self-transfers are dropped. */
  function InnerTxs(txs: seq<Transaction>, shardNum: nat): (inner: seq<Transaction>)
  {
    if txs == [] then []
    else
      var inner, t := InnerTxs(txs[..|txs| - 1], shardNum), txs[|txs| - 1];
      if t.recipient != t.sender && !CrossShard(t, shardNum) then inner + [t] else inner
  }

  method Classify(txs: seq<Transaction>, broker: Address, shardNum: nat)
    returns (ms: seq<RawMessage>, inner: seq<Transaction>)
    ensures ms == CrossMessages(txs, broker, shardNum) && inner == InnerTxs(txs, shardNum)
  {
    ms, inner := [], [];
    for i := 0 to |txs|
      invariant ms == CrossMessages(txs[..i], broker, shardNum) && inner == InnerTxs(txs[..i], shardNum)
    {
      var t := txs[i];
      assert txs[..i + 1][..i] == txs[..i];
      if t.recipient == t.sender {
        continue;
      }
      if CrossShard(t, shardNum) {
        ms := ms + [RawMessage(t, broker)];
      } else {
        inner := inner + [t];
      }
    }
    assert txs[..|txs|] == txs;
  }

  lemma {:induction false} CrossMessagesOf(txs: seq<Transaction>, broker: Address, shardNum: nat)
    requires Distinct(txs)
    ensures DistinctTxs(CrossMessages(txs, broker, shardNum))
    ensures forall m :: m in CrossMessages(txs, broker, shardNum) ==> m.tx in txs
  {
    if txs != [] {
      var front, t := txs[..|txs| - 1], txs[|txs| - 1];
      CrossMessagesOf(front, broker, shardNum);
      assert t !in front;
      forall m | m in CrossMessages(front, broker, shardNum) ensures m.tx != t && m.tx in txs {
        assert m.tx in front;
      }
    }
  }

  /** A transaction that goes to the brokers, or that stays inside its shard. */
  predicate GoesOut(t: Transaction, shardNum: nat, cross: bool) {
    t.recipient != t.sender && CrossShard(t, shardNum) == cross
  }

  /** Where those transactions are in the list. */
  function Spots(txs: seq<Transaction>, shardNum: nat, cross: bool): seq<nat> {
    if txs == [] then []
    else
      var front := Spots(txs[..|txs| - 1], shardNum, cross);
      if GoesOut(txs[|txs| - 1], shardNum, cross) then front + [|txs| - 1] else front
  }

  /** The positions are in order, and they are all there are. */
  lemma {:induction false} SpotsExact(txs: seq<Transaction>, shardNum: nat, cross: bool)
    ensures var at := Spots(txs, shardNum, cross);
            && (forall i :: 0 <= i < |at| ==> at[i] < |txs|)
            && (forall i, j :: 0 <= i < j < |at| ==> at[i] < at[j])
            && (forall k :: 0 <= k < |txs| ==> (k in at <==> GoesOut(txs[k], shardNum, cross)))
  {
    if txs != [] {
      var front := txs[..|txs| - 1];
      SpotsExact(front, shardNum, cross);
      assert forall k :: 0 <= k < |front| ==> front[k] == txs[k];
    }
  }

  /** MAIN: self-transfers apart, the transactions of one shard come out in order, each once. */
  lemma {:induction false} InnerClassified(txs: seq<Transaction>, shardNum: nat)
    ensures var inner, at := InnerTxs(txs, shardNum), Spots(txs, shardNum, false);
            |inner| == |at| && forall i :: 0 <= i < |at| ==> at[i] < |txs| && inner[i] == txs[at[i]]
  {
    if txs != [] {
      var front := txs[..|txs| - 1];
      InnerClassified(front, shardNum);
      assert forall k :: 0 <= k < |front| ==> front[k] == txs[k];
    }
  }

  /** MAIN: and so do the others, in messages of the first broker. */
  lemma {:induction false} CrossClassified(txs: seq<Transaction>, broker: Address, shardNum: nat)
    ensures var ms, at := CrossMessages(txs, broker, shardNum), Spots(txs, shardNum, true);
            |ms| == |at| && forall i :: 0 <= i < |at| ==> at[i] < |txs| && ms[i] == RawMessage(txs[at[i]], broker)
  {
    if txs != [] {
      var front := txs[..|txs| - 1];
      CrossClassified(front, broker, shardNum);
      assert forall k :: 0 <= k < |front| ==> front[k] == txs[k];
    }
  }

  const BATCH := 1000

  function FirstBatch(ms: seq<RawMessage>): seq<RawMessage> {
    if |ms| > BATCH then ms[..BATCH] else ms
  }

  /** Messages of one type with non-negative values. */
  ghost predicate Typed(ms: seq<RawMessage>, ty: string) {
    forall m :: m in ms ==> m.tx.txType == ty && 0 <= m.tx.value
  }

  lemma BatchReady(pool: seq<RawMessage>, txs: seq<Transaction>, broker: Address, ty: string, shardNum: nat)
    requires DistinctTxs(pool) && Typed(pool, ty) && Distinct(txs)
    requires forall t :: t in txs ==> t !in TxsOf(pool) && t.txType == ty && 0 <= t.value
    ensures DistinctTxs(FirstBatch(pool + CrossMessages(txs, broker, shardNum)))
    ensures Typed(FirstBatch(pool + CrossMessages(txs, broker, shardNum)), ty)
  {
    var cross := CrossMessages(txs, broker, shardNum);
    CrossMessagesOf(txs, broker, shardNum);
    var all := pool + cross;
    forall i, j | 0 <= i < j < |all| ensures all[i].tx != all[j].tx {
      if i < |pool| <= j {
        assert pool[i] in pool && cross[j - |pool|] in cross;
      }
    }
    forall m | m in FirstBatch(all) ensures m.tx.txType == ty && 0 <= m.tx.value {
      assert m in pool || m in cross;
    }
  }

  /** A fair allocation is one the ledger can settle. */
  lemma FairIsBillable(batch: seq<RawMessage>, book: Book, shards: set<nat>, shardNum: nat, ty: string,
                       sent: seq<RawMessage>, rest: seq<RawMessage>)
    requires FairAllocation(batch, book, shardNum, sent, rest) && Typed(batch, ty)
    requires Shaped(book, book.Keys, shards) && NonNegative(book) && forall a :: ShardOf(a, shardNum) in shards
    ensures AllBillable(sent, ty, book, shardNum) && Typed(rest, ty)
    ensures forall b :: b in book ==> Total(sent, b) <= Holding(book, b)
  {
    forall i | 0 <= i < |sent| ensures Billable(sent[i], ty, book, shardNum) {
      assert sent[i] in sent;
      assert sent[i].tx in TxsOf(batch);
      assert ShardOf(sent[i].tx.recipient, shardNum) in shards;
    }
    forall b | b in book ensures 0 <= Holding(book, b) {
      forall s | s in book[b] ensures 0 <= book[b][s] { assert 0 <= At(book, b, s); }
      SumNonNegative(book[b], book[b].Keys);
    }
  }

  // ----- reported transactions ------------------------------------------------------

  /** The reported broker-1 transactions of type `ty` that pay one of the brokers. */
  function Reported(txs: seq<Tx1>, brokers: seq<Address>, ty: string): (r: multiset<Tx1>)
  {
    if txs == [] then multiset{}
    else
      var x := txs[|txs| - 1];
      Reported(txs[..|txs| - 1], brokers, ty)
      + if x.recipient in brokers && x.txType == ty then multiset{x} else multiset{}
  }

  lemma {:induction false} ReportedPrefix(txs: seq<Tx1>, i: nat, brokers: seq<Address>, ty: string)
    requires i <= |txs|
    ensures Reported(txs[..i], brokers, ty) <= Reported(txs, brokers, ty)
    decreases |txs| - i
  {
    if i == |txs| {
      assert txs[..i] == txs;
    } else {
      ReportedPrefix(txs, i + 1, brokers, ty);
      assert txs[..i + 1][..i] == txs[..i];
    }
  }

  lemma IsReported(txs: seq<Tx1>, i: nat, brokers: seq<Address>, ty: string)
    requires i < |txs| && txs[i].recipient in brokers && txs[i].txType == ty
    ensures txs[i] in Reported(txs, brokers, ty)
  {
    ReportedPrefix(txs, i + 1, brokers, ty);
    assert txs[..i + 1][..i] == txs[..i];
  }

  /** A transaction reported once more than so far is still in flight. */
  lemma StillInFlight(inflight: multiset<Tx1>, txs: seq<Tx1>, i: nat, brokers: seq<Address>, ty: string)
    requires i < |txs| && Reported(txs, brokers, ty) <= inflight && txs[i].recipient in brokers && txs[i].txType == ty
    ensures txs[i] in inflight - Reported(txs[..i], brokers, ty)
    ensures inflight - Reported(txs[..i + 1], brokers, ty) ==
            inflight - Reported(txs[..i], brokers, ty) - multiset{txs[i]}
  {
    assert txs[..i + 1][..i] == txs[..i];
    ReportedPrefix(txs, i + 1, brokers, ty);
    assert Reported(txs[..i + 1], brokers, ty) == Reported(txs[..i], brokers, ty) + multiset{txs[i]};
    assert Reported(txs[..i + 1], brokers, ty)[txs[i]] <= inflight[txs[i]];
  }

  lemma NotConcerned(txs: seq<Tx1>, i: nat, brokers: seq<Address>, ty: string)
    requires i < |txs| && !(txs[i].recipient in brokers && txs[i].txType == ty)
    ensures Reported(txs[..i + 1], brokers, ty) == Reported(txs[..i], brokers, ty)
  {
    assert txs[..i + 1][..i] == txs[..i];
  }

  /** One reported transaction: skipped when the lock does not cover it, settled otherwise. */
  method SettleReported(x: Tx1, balance: Book, locked: Book, shardNum: nat) returns (book: Book, lock: Book)
    requires HasSlots(balance, locked, x, shardNum)
    ensures At(locked, x.recipient, ShardOf(x.finalRecipient, shardNum)) < x.value ==> book == balance && lock == locked
    ensures At(locked, x.recipient, ShardOf(x.finalRecipient, shardNum)) >= x.value ==>
      book == Credited(balance, x, shardNum) && lock == Released(locked, x, shardNum)
  {
    book, lock := balance, locked;
    if At(lock, x.recipient, ShardOf(x.finalRecipient, shardNum)) < x.value {
      return;
    }
    lock := Entry(lock, x.recipient, ShardOf(x.finalRecipient, shardNum), -x.value);
    book := Entry(book, x.recipient, ShardOf(x.originalSender, shardNum), x.value);
  }

  /** What one report makes of the books. */
  function Reports(balance: Book, locked: Book, x: Tx1, shardNum: nat): (Book, Book) {
    var s, f := ShardOf(x.originalSender, shardNum), ShardOf(x.finalRecipient, shardNum);
    if x.recipient in balance && s in balance[x.recipient] && x.recipient in locked && f in locked[x.recipient] &&
       x.value <= At(locked, x.recipient, f)
    then (Entry(balance, x.recipient, s, x.value), Entry(locked, x.recipient, f, -x.value))
    else (balance, locked)
  }

  /** What a list of reports makes of them: those for other brokers or types do nothing. */
  function AllReports(balance: Book, locked: Book, txs: seq<Tx1>, brokers: seq<Address>, ty: string, shardNum: nat):
    (Book, Book)
  {
    if txs == [] then (balance, locked)
    else
      var x, (book, lock) := txs[|txs| - 1], AllReports(balance, locked, txs[..|txs| - 1], brokers, ty, shardNum);
      if x.recipient in brokers && x.txType == ty then Reports(book, lock, x, shardNum) else (book, lock)
  }

  /** The books after the first `i` reports. */
  ghost predicate ReportedTo(balance: Book, locked: Book, txs: seq<Tx1>, i: nat, brokers: seq<Address>, ty: string,
                             shardNum: nat, book: Book, lock: Book)
    requires i <= |txs|
  {
    (book, lock) == AllReports(balance, locked, txs[..i], brokers, ty, shardNum)
  }

  lemma ReportsNext(balance: Book, locked: Book, txs: seq<Tx1>, i: nat, brokers: seq<Address>, ty: string,
                    shardNum: nat)
    requires i < |txs|
    ensures var (book, lock) := AllReports(balance, locked, txs[..i], brokers, ty, shardNum);
            AllReports(balance, locked, txs[..i + 1], brokers, ty, shardNum) ==
            if txs[i].recipient in brokers && txs[i].txType == ty then Reports(book, lock, txs[i], shardNum)
            else (book, lock)
  {
    assert txs[..i + 1][..i] == txs[..i];
  }

  /** What the first reported transactions pay back to broker `b` on shard `s`. */
  function PaidBack(txs: seq<Tx1>, brokers: seq<Address>, ty: string, b: Address, s: nat, shardNum: nat): (sum: int)
  {
    if txs == [] then 0
    else
      var x := txs[|txs| - 1];
      PaidBack(txs[..|txs| - 1], brokers, ty, b, s, shardNum)
      + if x.recipient in brokers && x.txType == ty && x.recipient == b && ShardOf(x.originalSender, shardNum) == s
        then x.value else 0
  }

  /** Every reported transaction was paid back on its sender's shard. */
  ghost predicate AllPaidBack(before: Book, after: Book, txs: seq<Tx1>, brokers: seq<Address>,
                              ty: string, shardNum: nat)
  {
    forall b, s :: At(after, b, s) == At(before, b, s) + PaidBack(txs, brokers, ty, b, s, shardNum)
  }

  lemma PayNone(before: Book, now: Book, txs: seq<Tx1>, i: nat, brokers: seq<Address>, ty: string, shardNum: nat)
    requires i < |txs| && AllPaidBack(before, now, txs[..i], brokers, ty, shardNum)
    requires !(txs[i].recipient in brokers && txs[i].txType == ty)
    ensures AllPaidBack(before, now, txs[..i + 1], brokers, ty, shardNum)
  {
    assert txs[..i + 1][..i] == txs[..i];
    forall b, s ensures At(now, b, s) == At(before, b, s) + PaidBack(txs[..i + 1], brokers, ty, b, s, shardNum) {
      assert At(now, b, s) == At(before, b, s) + PaidBack(txs[..i], brokers, ty, b, s, shardNum);
    }
  }

  lemma PayOne(before: Book, now: Book, txs: seq<Tx1>, i: nat, brokers: seq<Address>, ty: string, shardNum: nat)
    requires i < |txs| && AllPaidBack(before, now, txs[..i], brokers, ty, shardNum)
    requires txs[i].recipient in brokers && txs[i].txType == ty
    requires txs[i].recipient in now && ShardOf(txs[i].originalSender, shardNum) in now[txs[i].recipient]
    ensures AllPaidBack(before, Credited(now, txs[i], shardNum), txs[..i + 1], brokers, ty, shardNum)
  {
    var x := txs[i];
    assert txs[..i + 1][..i] == txs[..i];
    forall b, s
      ensures At(Credited(now, x, shardNum), b, s) ==
              At(before, b, s) + PaidBack(txs[..i + 1], brokers, ty, b, s, shardNum)
    {
      EntryAt(now, x.recipient, ShardOf(x.originalSender, shardNum), x.value, b, s);
      assert At(now, b, s) == At(before, b, s) + PaidBack(txs[..i], brokers, ty, b, s, shardNum);
    }
  }

  lemma NothingPaid(book: Book, txs: seq<Tx1>, brokers: seq<Address>, ty: string, shardNum: nat)
    ensures AllPaidBack(book, book, txs[..0], brokers, ty, shardNum)
  {
    forall b, s ensures PaidBack(txs[..0], brokers, ty, b, s, shardNum) == 0 { assert txs[..0] == []; }
  }

  /**
   * Any report conserves money, and one of no negative value leaves nothing negative; a
   * transaction in flight is never skipped, and settling it keeps the ledger sound.
   */
  method ConfirmOne(x: Tx1, balance: Book, locked: Book, shardNum: nat, ghost inflight: multiset<Tx1>,
                    ghost stake: map<Address, int>, ghost ty: string, ghost shards: set<nat>)
    returns (book: Book, lock: Book)
    requires Balanced(balance, locked, stake, shards, shardNum) && x.recipient in stake
    ensures HasSlots(balance, locked, x, shardNum) && Balanced(book, lock, stake, shards, shardNum)
    ensures (book, lock) == Reports(balance, locked, x, shardNum)
    ensures Booked(balance, locked, stake, shards, shardNum) && 0 <= x.value ==>
      Booked(book, lock, stake, shards, shardNum)
    ensures Sound(balance, locked, inflight, stake, ty, shards, shardNum) && x in inflight ==>
      book == Credited(balance, x, shardNum) && Sound(book, lock, inflight - multiset{x}, stake, ty, shards, shardNum)
  {
    assert ShardOf(x.finalRecipient, shardNum) in shards && ShardOf(x.originalSender, shardNum) in shards;
    if Sound(balance, locked, inflight, stake, ty, shards, shardNum) && x in inflight {
      ConfirmKeeps(balance, locked, inflight, stake, ty, shards, shardNum, x);
    }
    ConfirmBalanced(balance, locked, stake, x, shards, shardNum);
    if Booked(balance, locked, stake, shards, shardNum) && 0 <= x.value {
      SettleBooked(balance, locked, stake, x, shards, shardNum);
    }
    book, lock := SettleReported(x, balance, locked, shardNum);
  }

  lemma SettleBooked(balance: Book, locked: Book, stake: map<Address, int>, x: Tx1, shards: set<nat>, shardNum: nat)
    requires Booked(balance, locked, stake, shards, shardNum) && HasSlots(balance, locked, x, shardNum) && 0 <= x.value
    ensures x.value <= At(locked, x.recipient, ShardOf(x.finalRecipient, shardNum)) ==>
      Booked(Credited(balance, x, shardNum), Released(locked, x, shardNum), stake, shards, shardNum)
  {
    assert 0 <= At(balance, x.recipient, ShardOf(x.originalSender, shardNum));
    if x.value <= At(locked, x.recipient, ShardOf(x.finalRecipient, shardNum)) {
      ConfirmBookedIff(balance, locked, stake, x, shards, shardNum);
    }
  }

  /** After the first `i` reports of a list of transactions in flight. */
  ghost predicate Regular(balance: Book, book: Book, lock: Book, txs: seq<Tx1>, i: nat, brokers: seq<Address>,
                          ty: string, shardNum: nat, inflight: multiset<Tx1>, stake: map<Address, int>,
                          shards: set<nat>)
    requires i <= |txs|
  {
    Sound(book, lock, inflight - Reported(txs[..i], brokers, ty), stake, ty, shards, shardNum) &&
    AllPaidBack(balance, book, txs[..i], brokers, ty, shardNum)
  }

  /** One report of the list. */
  method ConfirmNext(txs: seq<Tx1>, i: nat, balance: Book, ghost locked: Book, book0: Book, lock0: Book,
                     brokers: seq<Address>, ty: string, shardNum: nat, ghost inflight: multiset<Tx1>,
                     ghost stake: map<Address, int>, ghost shards: set<nat>)
    returns (book: Book, lock: Book)
    requires i < |txs| && forall b :: b in brokers ==> b in stake
    requires Balanced(book0, lock0, stake, shards, shardNum)
    ensures Balanced(book, lock, stake, shards, shardNum)
    ensures ReportedTo(balance, locked, txs, i, brokers, ty, shardNum, book0, lock0) ==>
      ReportedTo(balance, locked, txs, i + 1, brokers, ty, shardNum, book, lock)
    ensures Payable(Reported(txs, brokers, ty)) && Booked(book0, lock0, stake, shards, shardNum) ==>
      Booked(book, lock, stake, shards, shardNum)
    ensures (Reported(txs, brokers, ty) <= inflight &&
             Regular(balance, book0, lock0, txs, i, brokers, ty, shardNum, inflight, stake, shards)) ==>
      Regular(balance, book, lock, txs, i + 1, brokers, ty, shardNum, inflight, stake, shards)
  {
    book, lock := book0, lock0;
    ReportsNext(balance, locked, txs, i, brokers, ty, shardNum);
    ghost var left := inflight - Reported(txs[..i], brokers, ty);
    ghost var regular := Reported(txs, brokers, ty) <= inflight &&
      Regular(balance, book0, lock0, txs, i, brokers, ty, shardNum, inflight, stake, shards);
    if txs[i].recipient in brokers && txs[i].txType == ty {
      if regular { StillInFlight(inflight, txs, i, brokers, ty); }
      IsReported(txs, i, brokers, ty);
      book, lock := ConfirmOne(txs[i], book, lock, shardNum, left, stake, ty, shards);
      if regular { PayOne(balance, book0, txs, i, brokers, ty, shardNum); }
    } else {
      NotConcerned(txs, i, brokers, ty);
      if regular { PayNone(balance, book, txs, i, brokers, ty, shardNum); }
    }
  }

  method ConfirmAll(txs: seq<Tx1>, balance: Book, locked: Book, brokers: seq<Address>, ty: string, shardNum: nat,
                    ghost inflight: multiset<Tx1>, ghost stake: map<Address, int>, ghost shards: set<nat>)
    returns (book: Book, lock: Book)
    requires Booked(balance, locked, stake, shards, shardNum) && forall b :: b in brokers ==> b in stake
    ensures Balanced(book, lock, stake, shards, shardNum)
    ensures (book, lock) == AllReports(balance, locked, txs, brokers, ty, shardNum)
    ensures Payable(Reported(txs, brokers, ty)) ==> Booked(book, lock, stake, shards, shardNum)
    ensures Sound(balance, locked, inflight, stake, ty, shards, shardNum) && Reported(txs, brokers, ty) <= inflight ==>
      Sound(book, lock, inflight - Reported(txs, brokers, ty), stake, ty, shards, shardNum) &&
      AllPaidBack(balance, book, txs, brokers, ty, shardNum)
  {
    book, lock := balance, locked;
    ghost var regular := Sound(balance, locked, inflight, stake, ty, shards, shardNum) &&
      Reported(txs, brokers, ty) <= inflight;
    NothingPaid(balance, txs, brokers, ty, shardNum);
    assert inflight - Reported(txs[..0], brokers, ty) == inflight;
    for i := 0 to |txs|
      invariant Balanced(book, lock, stake, shards, shardNum)
      invariant ReportedTo(balance, locked, txs, i, brokers, ty, shardNum, book, lock)
      invariant Payable(Reported(txs, brokers, ty)) ==> Booked(book, lock, stake, shards, shardNum)
      invariant regular ==> Regular(balance, book, lock, txs, i, brokers, ty, shardNum, inflight, stake, shards)
    {
      book, lock := ConfirmNext(txs, i, balance, locked, book, lock, brokers, ty, shardNum, inflight, stake, shards);
    }
    assert txs[..|txs|] == txs;
  }

  /** The two books of a transaction type, as the source's Broker record keeps them. */
  datatype Broker = Broker(balance: Book, locked: Book)

  /**
   * What a block's reports do: they leave the in-flight set and the books still add up to
   * the stake; and if locks were exact and only transactions in flight were reported, locks
   * stay exact and all is paid back.
   */
  ghost predicate Confirmed(txs: seq<Tx1>, before: Broker, inflight: multiset<Tx1>, after: Broker,
                            flight: multiset<Tx1>, brokers: seq<Address>, stake: map<Address, int>, ty: string,
                            shards: set<nat>, shardNum: nat)
  {
    flight == inflight - Reported(txs, brokers, ty) &&
    Balanced(after.balance, after.locked, stake, shards, shardNum) &&
    (after.balance, after.locked) == AllReports(before.balance, before.locked, txs, brokers, ty, shardNum) &&
    (LocksExact(before.locked, inflight, stake.Keys, ty, shards, shardNum) && Reported(txs, brokers, ty) <= inflight ==>
       LocksExact(after.locked, flight, stake.Keys, ty, shards, shardNum) &&
       AllPaidBack(before.balance, after.balance, txs, brokers, ty, shardNum))
  }

  /** The same, with the ledger's invariant. */
  method ConfirmReported(txs: seq<Tx1>, ghost pool: seq<RawMessage>, broker: Broker, brokers: seq<Address>,
                         ty: string, shardNum: nat, ghost inflight: multiset<Tx1>, ghost stake: map<Address, int>,
                         ghost shards: set<nat>)
    returns (after: Broker, ghost flight: multiset<Tx1>)
    requires LedgerOk(broker, inflight, pool, stake, brokers, ty, shards, shardNum)
    ensures Payable(Reported(txs, brokers, ty)) ==>
      LedgerOk(after, flight, pool, stake, brokers, ty, shards, shardNum)
    ensures Confirmed(txs, broker, inflight, after, flight, brokers, stake, ty, shards, shardNum)
  {
    var book, lock :=
      ConfirmAll(txs, broker.balance, broker.locked, brokers, ty, shardNum, inflight, stake, shards);
    KnownLess(inflight, Reported(txs, brokers, ty), ty, stake.Keys);
    after, flight := Broker(book, lock), inflight - Reported(txs, brokers, ty);
  }

  /** Allocate a batch, rebalance and lock. */
  method DealBatch(batch: seq<RawMessage>, balance: Book, locked: Book, ghost ty: string, brokers: seq<Address>,
                   shards: set<nat>, shardNum: nat, rounds: nat, ghost inflight: multiset<Tx1>,
                   ghost stake: map<Address, int>)
    returns (chosen: seq<RawMessage>, rest: seq<RawMessage>, book: Book, lock: Book, ghost change: Book)
    requires Booked(balance, locked, stake, shards, shardNum) && Known(inflight, ty, stake.Keys)
    requires forall b :: b in balance ==> b in brokers
    requires DistinctTxs(batch) && Typed(batch, ty)
    ensures FairAllocation(batch, balance, shardNum, chosen, rest) && Typed(rest, ty)
    ensures Allocation(batch, balance, shardNum, rounds, chosen, rest)
    ensures Booked(book, lock, stake, shards, shardNum) && Known(inflight + Tx1s(chosen), ty, stake.Keys)
    ensures LocksExact(locked, inflight, stake.Keys, ty, shards, shardNum) ==>
      LocksExact(lock, inflight + Tx1s(chosen), stake.Keys, ty, shards, shardNum)
    ensures Settled(balance, book, change, chosen, ty, shardNum)
  {
    chosen, rest := Allocate(batch, balance, shardNum, rounds);
    FairIsBillable(batch, balance, shards, shardNum, ty, chosen, rest);
    KnownMore(inflight, chosen, ty, stake.Keys, balance, shardNum);
    book, lock, change := Settle(chosen, balance, locked, brokers, shards, shardNum, ty, inflight, stake);
  }

  /**
   * Nothing is negative, available plus locked is the stake, and both what is in flight and
   * what is waiting is of the ledger's type.
   */
  ghost predicate LedgerOk(broker: Broker, inflight: multiset<Tx1>, pool: seq<RawMessage>,
                           stake: map<Address, int>, brokers: seq<Address>, ty: string, shards: set<nat>, shardNum: nat)
  {
    Booked(broker.balance, broker.locked, stake, shards, shardNum) && Known(inflight, ty, stake.Keys) &&
    (forall b :: b in stake <==> b in brokers) && Typed(pool, ty) && DistinctTxs(pool)
  }

  /**
   * The batch is split fairly into messages sent now and messages kept for later; what is
   * sent is locked and in flight, slot by slot accounted for, and exact locks stay exact.
   */
  ghost predicate Dealt(batch: seq<RawMessage>, before: Broker, inflight: multiset<Tx1>, rest: seq<RawMessage>,
                        after: Broker, flight: multiset<Tx1>, sent: seq<RawMessage>, brokers: set<Address>,
                        ty: string, shards: set<nat>, shardNum: nat, rounds: nat)
  {
    FairAllocation(batch, before.balance, shardNum, sent, rest) &&
    Allocation(batch, before.balance, shardNum, rounds, sent, rest) &&
    flight == inflight + Tx1s(sent) &&
    (LocksExact(before.locked, inflight, brokers, ty, shards, shardNum) ==>
       LocksExact(after.locked, flight, brokers, ty, shards, shardNum)) &&
    exists change :: Settled(before.balance, after.balance, change, sent, ty, shardNum)
  }

  /** Messages the next allocation will work on. */
  function NextBatch(pool: seq<RawMessage>, txs: seq<Transaction>, brokers: seq<Address>, shardNum: nat):
    seq<RawMessage>
    requires brokers != []
  {
    FirstBatch(pool + CrossMessages(txs, brokers[0], shardNum))
  }

  /** Classify, cut the batch, allocate it, rebalance and lock. */
  method DealAll(txs: seq<Transaction>, pool: seq<RawMessage>, broker: Broker, ty: string, brokers: seq<Address>,
                 shards: set<nat>, shardNum: nat, rounds: nat, ghost inflight: multiset<Tx1>,
                 ghost stake: map<Address, int>)
    returns (inner: seq<Transaction>, rest: seq<RawMessage>, after: Broker, ghost flight: multiset<Tx1>,
             ghost sent: seq<RawMessage>)
    requires LedgerOk(broker, inflight, pool, stake, brokers, ty, shards, shardNum) && brokers != []
    requires Distinct(txs) && forall t :: t in txs ==> t !in TxsOf(pool) && t.txType == ty && 0 <= t.value
    ensures LedgerOk(after, flight, rest, stake, brokers, ty, shards, shardNum)
    ensures inner == InnerTxs(txs, shardNum)
    ensures Dealt(NextBatch(pool, txs, brokers, shardNum), broker, inflight, rest, after, flight, sent, stake.Keys,
                  ty, shards, shardNum, rounds)
  {
    var cross, local := Classify(txs, brokers[0], shardNum);
    inner := local;
    var batch := pool + cross;
    BatchReady(pool, txs, brokers[0], ty, shardNum);
    if |batch| > BATCH {
      batch := batch[..BATCH];
    }
    var chosen, kept, book, lock, change :=
      DealBatch(batch, broker.balance, broker.locked, ty, brokers, shards, shardNum, rounds, inflight, stake);
    rest, after, sent, flight := kept, Broker(book, lock), chosen, inflight + Tx1s(chosen);
  }

  // ----- the ledger of one transaction type ---------------------------------------------

  /**
   * The broker books of one transaction type.  The source keeps one such pair of
   * books per type, and no operation of one type touches those of another.
   */
  class TypeLedger {
    const txType: string
    const brokers: seq<Address>
    const shardNum: nat
    const shards: set<nat>
    var broker: Broker
    var pool: seq<RawMessage>
    ghost var inflight: multiset<Tx1>
    ghost const stake: map<Address, int>

    /** Holds before and after every step, in whatever order the steps come and whatever is
        reported: nothing is negative, and available plus locked is the stake. */
    ghost predicate Valid()
      reads this
    {
      LedgerOk(broker, inflight, pool, stake, brokers, txType, shards, shardNum)
    }

    /** Locked money is exactly the value in flight. */
    ghost predicate Exact()
      reads this
    {
      LocksExact(broker.locked, inflight, stake.Keys, txType, shards, shardNum)
    }

    /** Every broker starts with the same balance on every shard. */
    constructor (txType: string, brokers: seq<Address>, shardNum: nat, initial: nat)
      requires 0 < shardNum
      ensures Valid() && Exact() && inflight == multiset{} && pool == []
      ensures this.txType == txType && this.brokers == brokers && this.shardNum == shardNum
      ensures forall b :: b in brokers ==> stake[b] == shardNum * initial
    {
      var all := ShardIds(shardNum);
      var row: ShardBalances := map s | s in all :: initial;
      var none: ShardBalances := map s | s in all :: 0;
      var book: Book := map b | b in brokers :: row;
      var nothing: Book := map b | b in brokers :: none;
      this.txType, this.brokers, this.shardNum, this.shards := txType, brokers, shardNum, all;
      broker, pool, inflight := Broker(book, nothing), [], multiset{};
      stake := map b | b in brokers :: shardNum * initial;
      new;
      SumConstant(row, all, initial);
      SumZero(none, all);
      StartsSound(book, nothing, stake, txType, all, shardNum, row, none);
    }

    /**
     * dealTxByBroker: what Dealt says of the batch made of the pool and the new cross-shard
     * transactions.
     */
    method DealTxByBroker(txs: seq<Transaction>, rounds: nat)
      returns (inner: seq<Transaction>, ghost sent: seq<RawMessage>)
      requires Valid() && brokers != [] && Distinct(txs)
      requires forall t :: t in txs ==> t !in TxsOf(pool) && t.txType == txType && 0 <= t.value
      modifies this
      ensures Valid()
      ensures inner == InnerTxs(txs, shardNum)
      ensures Dealt(NextBatch(old(pool), txs, brokers, shardNum), old(broker), old(inflight),
                    pool, broker, inflight, sent, stake.Keys, txType, shards, shardNum, rounds)
    {
      var local, rest, after, flight, chosen :=
        DealAll(txs, pool, broker, txType, brokers, shards, shardNum, rounds, inflight, stake);
      inner, sent := local, chosen;
      Install(after, rest, flight);
    }

    method Install(after: Broker, rest: seq<RawMessage>, ghost flight: multiset<Tx1>)
      modifies this
      ensures broker == after && pool == rest && inflight == flight
    {
      broker, pool, inflight := after, rest, flight;
    }

    /**
     * HandleBlockInfo, for any report: the books add up to the stake, and the invariant holds
     * unless a negative value was reported for one of the brokers.  As long as locks are exact
     * and only transactions in flight are reported, each at most as often as it is in flight,
     * all of them are settled, none is skipped for want of locked money, and locks stay exact.
     */
    method HandleBlockInfo(txs: seq<Tx1>, bodyLength: nat)
      requires Valid()
      modifies this
      ensures Payable(Reported(txs, brokers, txType)) ==> Valid()
      ensures pool == old(pool)
      ensures bodyLength == 0 ==> broker == old(broker) && inflight == old(inflight)
      ensures bodyLength != 0 ==> Confirmed(txs, old(broker), old(inflight), broker, inflight, brokers, stake,
                                            txType, shards, shardNum)
    {
      if bodyLength == 0 {
        return;
      }
      var after, flight := ConfirmReported(txs, pool, broker, brokers, txType, shardNum, inflight, stake, shards);
      Install(after, pool, flight);
    }
  }

  function ShardIds(n: nat): (ids: set<nat>)
    ensures |ids| == n && forall s :: s in ids <==> 0 <= s < n
  {
    if n == 0 then {} else ShardIds(n - 1) + {n - 1}
  }

  lemma {:induction false} SumConstant(row: ShardBalances, keys: set<nat>, v: int)
    requires keys <= row.Keys && forall s :: s in keys ==> row[s] == v
    ensures Sum(row, keys) == |keys| * v
    decreases keys
  {
    if keys != {} {
      var s :| s in keys;
      SumRemove(row, keys, s);
      SumConstant(row, keys - {s}, v);
      assert |keys - {s}| == |keys| - 1;
      Distribute(|keys|, v);
    }
  }

  lemma Distribute(n: int, v: int)
    ensures v + (n - 1) * v == n * v
  {
  }

  lemma StartsSound(book: Book, nothing: Book, stake: map<Address, int>, ty: string, shards: set<nat>,
                    shardNum: nat, row: ShardBalances, none: ShardBalances)
    requires book.Keys == stake.Keys && nothing.Keys == stake.Keys
    requires row.Keys == shards && none.Keys == shards
    requires forall b :: b in book ==> book[b] == row && nothing[b] == none && stake[b] == Sum(row, shards)
    requires (forall s :: s in shards ==> 0 <= row[s] && none[s] == 0) && Sum(none, shards) == 0
    ensures Conserved(book, nothing, stake, shards)
    ensures LocksExact(nothing, multiset{}, stake.Keys, ty, shards, shardNum)
  {
    forall b, s ensures 0 <= At(book, b, s) && 0 <= At(nothing, b, s) { }
    forall b, s | b in stake && s in shards ensures LockExact(nothing, multiset{}, ty, b, s, shardNum) { }
    forall b | b in stake ensures Backed(book, nothing, stake, b) { }
  }
}

/**
 * The Broker2Earn iteration (supervisor/Broker2Earn/B2E.go): relax, round,
 * charge the brokers, and go on with the messages that are left.
 */
module Allocator {
  import opened FiniteSums
  import opened BrokerMessages
  import Rounding
  import Relaxation

  type ShardBalances = map<nat, int>

  /** The messages of `ms` whose transaction is not in `gone`, in order. */
  function Remaining(ms: seq<RawMessage>, gone: set<Transaction>): (left: seq<RawMessage>)
  {
    if ms == [] then []
    else
      var left, m := Remaining(ms[..|ms| - 1], gone), ms[|ms| - 1];
      if m.tx in gone then left else left + [m]
  }

  lemma {:induction false} RemainingKeeps(ms: seq<RawMessage>, gone: set<Transaction>)
    ensures forall m :: m in Remaining(ms, gone) <==> m in ms && m.tx !in gone
    ensures DistinctTxs(ms) ==> DistinctTxs(Remaining(ms, gone))
  {
    if ms != [] {
      var front, last := ms[..|ms| - 1], ms[|ms| - 1];
      assert ms == front + [last];
      RemainingKeeps(front, gone);
    }
  }

  method Difference(a: seq<RawMessage>, b: seq<RawMessage>) returns (diff: seq<RawMessage>)
    ensures diff == Remaining(a, TxsOf(b))
  {
    var gone: set<Transaction> := {};
    for i := 0 to |b|
      invariant gone == TxsOf(b[..i])
    {
      assert b[..i + 1] == b[..i] + [b[i]];
      gone := gone + {b[i].tx};
    }
    assert b[..|b|] == b;
    diff := [];
    for i := 0 to |a|
      invariant diff == Remaining(a[..i], gone)
    {
      assert a[..i + 1][..i] == a[..i];
      if a[i].tx !in gone {
        diff := diff + [a[i]];
      }
    }
    assert a[..|a|] == a;
  }

  predicate CrossShard(t: Transaction, shardNum: nat) {
    ShardOf(t.recipient, shardNum) != ShardOf(t.sender, shardNum)
  }

  /** The cross-shard messages, in order. */
  function CrossPart(ms: seq<RawMessage>, shardNum: nat): (cross: seq<RawMessage>)
  {
    if ms == [] then []
    else
      var cross, m := CrossPart(ms[..|ms| - 1], shardNum), ms[|ms| - 1];
      if CrossShard(m.tx, shardNum) then cross + [m] else cross
  }

  lemma {:induction false} CrossPartKeeps(ms: seq<RawMessage>, shardNum: nat)
    ensures forall m :: m in CrossPart(ms, shardNum) <==> m in ms && CrossShard(m.tx, shardNum)
    ensures DistinctTxs(ms) ==> DistinctTxs(CrossPart(ms, shardNum))
  {
    if ms != [] {
      var front, last := ms[..|ms| - 1], ms[|ms| - 1];
      assert ms == front + [last];
      CrossPartKeeps(front, shardNum);
    }
  }

  method CrossShardOnly(megs: seq<RawMessage>, shardNum: nat) returns (cross: seq<RawMessage>)
    ensures cross == CrossPart(megs, shardNum)
  {
    cross := [];
    for i := 0 to |megs|
      invariant cross == CrossPart(megs[..i], shardNum)
    {
      assert megs[..i + 1][..i] == megs[..i];
      if CrossShard(megs[i].tx, shardNum) {
        cross := cross + [megs[i]];
      }
    }
    assert megs[..|megs|] == megs;
  }

  method AddUp(amounts: ShardBalances) returns (total: int)
    ensures total == Sum(amounts, amounts.Keys)
  {
    total := 0;
    var todo := amounts.Keys;
    while todo != {}
      invariant todo <= amounts.Keys
      invariant total + Sum(amounts, todo) == Sum(amounts, amounts.Keys)
    {
      var s :| s in todo;
      SumRemove(amounts, todo, s);
      total := total + amounts[s];
      todo := todo - {s};
    }
  }

  method Accumulate(balances: map<Address, ShardBalances>) returns (totals: map<Address, int>)
    ensures totals.Keys == balances.Keys
    ensures forall b :: b in balances ==> totals[b] == Sum(balances[b], balances[b].Keys)
  {
    totals := map[];
    var todo := balances.Keys;
    while todo != {}
      invariant todo <= balances.Keys && totals.Keys == balances.Keys - todo
      invariant forall b :: b in totals ==> totals[b] == Sum(balances[b], balances[b].Keys)
    {
      var b :| b in todo;
      var total := AddUp(balances[b]);
      totals := totals[b := total];
      todo := todo - {b};
    }
  }

  /** Subtracts what was placed from the running balances. */
  method Charge(placed: seq<RawMessage>, before: map<Address, int>) returns (after: map<Address, int>)
    requires forall m :: m in placed ==> m.broker in before
    ensures after.Keys == before.Keys
    ensures forall b :: b in before ==> after[b] == before[b] - Total(placed, b)
    ensures after == Charged(before, placed)
  {
    after := before;
    for i := 0 to |placed|
      invariant after.Keys == before.Keys
      invariant forall b :: b in before ==> after[b] == before[b] - Total(placed[..i], b)
    {
      var m := placed[i];
      assert m in placed;
      forall b ensures Total(placed[..i + 1], b) == Total(placed[..i], b) + Share(m, b) {
        assert placed[..i + 1] == placed[..i] + [m];
        TotalSnoc(placed[..i], m, b);
      }
      after := after[m.broker := after[m.broker] - m.tx.value];
    }
    assert placed[..|placed|] == placed;
  }

  /** What relaxing and rounding places: different pending transactions, within every balance. */
  ghost predicate Affordable(placed: seq<RawMessage>, pending: set<Transaction>, balance: map<Address, int>) {
    DistinctTxs(placed) &&
    (forall m :: m in placed ==> m.tx in pending && m.broker in balance) &&
    (forall b :: b in balance && 0 <= balance[b] ==> Total(placed, b) <= balance[b])
  }

  /**
   * One round: `txs` in the order of their fees were offered to the brokers in the order
   * `filling`, and `choices` is what the brokers in the order `visiting` considered.
   */
  datatype Pass = Pass(pending: seq<RawMessage>, balance: map<Address, int>,
                       txs: seq<Transaction>, filling: seq<Address>,
                       choices: seq<RawMessage>, visiting: seq<Address>, placed: seq<RawMessage>)

  /** Every offer was considered once, and placed if its broker could still front it. */
  ghost predicate PassOk(p: Pass) {
    && multiset(p.txs) == multiset(Txs(p.pending))
    && Distinct(p.filling) && (forall b :: b in p.filling <==> b in p.balance)
    && Distinct(p.visiting) && (forall b :: b in p.visiting <==> b in p.balance)
    && Rounding.ConsidersAll(p.choices, p.visiting, Relaxation.Fill(p.txs, p.filling, p.balance).offers)
    && p.placed == Rounding.Placed(p.choices, p.balance)
  }

  method RelaxAndRound(pending: seq<RawMessage>, balance: map<Address, int>)
    returns (placed: seq<RawMessage>, ghost pass: Pass)
    requires DistinctTxs(pending)
    ensures Affordable(placed, TxsOf(pending), balance)
    ensures PassOk(pass) && pass.pending == pending && pass.balance == balance && pass.placed == placed
  {
    var offers, txs, order := Relaxation.Relax(pending, balance);
    var result, choices, visits := Rounding.Round(offers, balance);
    placed, pass := result, Pass(pending, balance, txs, order, choices, visits, result);
    forall m | m in placed ensures m.tx in TxsOf(pending) {
      assert Rounding.Candidate(offers, m.tx, m.broker);
    }
  }

  // ----- the rounds ---------------------------------------------------------------------

  function Charged(balance: map<Address, int>, placed: seq<RawMessage>): map<Address, int> {
    map b | b in balance :: balance[b] - Total(placed, b)
  }

  /** What the next round starts from. */
  function PendingAfter(ps: seq<Pass>, cross: seq<RawMessage>): seq<RawMessage> {
    if ps == [] then cross else Remaining(ps[|ps| - 1].pending, TxsOf(ps[|ps| - 1].placed))
  }

  function BalanceAfter(ps: seq<Pass>, totals: map<Address, int>): map<Address, int> {
    if ps == [] then totals else Charged(ps[|ps| - 1].balance, ps[|ps| - 1].placed)
  }

  function AllPlaced(ps: seq<Pass>): seq<RawMessage> {
    if ps == [] then [] else AllPlaced(ps[..|ps| - 1]) + ps[|ps| - 1].placed
  }

  /** Each round works on what the one before it left pending, with the balances it left. */
  ghost predicate Linked(ps: seq<Pass>, cross: seq<RawMessage>, totals: map<Address, int>) {
    forall i :: 0 <= i < |ps| ==>
      PassOk(ps[i]) && ps[i].pending == PendingAfter(ps[..i], cross) && ps[i].balance == BalanceAfter(ps[..i], totals)
  }

  lemma LinkMore(ps: seq<Pass>, p: Pass, cross: seq<RawMessage>, totals: map<Address, int>)
    requires Linked(ps, cross, totals) && PassOk(p)
    requires p.pending == PendingAfter(ps, cross) && p.balance == BalanceAfter(ps, totals)
    ensures Linked(ps + [p], cross, totals) && AllPlaced(ps + [p]) == AllPlaced(ps) + p.placed
  {
    var more := ps + [p];
    forall i | 0 <= i < |more|
      ensures PassOk(more[i]) && more[i].pending == PendingAfter(more[..i], cross) &&
              more[i].balance == BalanceAfter(more[..i], totals)
    {
      assert more[..i] == if i < |ps| then ps[..i] else ps;
    }
    assert more[..|ps|] == ps;
  }

  /** Where the iteration stands after some rounds. */
  ghost predicate Iterating(taken: seq<RawMessage>, pending: seq<RawMessage>, now: map<Address, int>,
                            cross: seq<RawMessage>, totals: map<Address, int>)
  {
    DistinctTxs(taken) && DistinctTxs(pending) && now.Keys == totals.Keys &&
    (forall m :: m in taken ==> m.tx in TxsOf(cross) && m.broker in totals) &&
    (forall m :: m in pending <==> m in cross && m.tx !in TxsOf(taken)) &&
    (forall b :: b in totals ==> now[b] == totals[b] - Total(taken, b)) &&
    (forall b :: b in totals && 0 <= totals[b] ==> 0 <= now[b])
  }

  lemma RoundKeeps(taken: seq<RawMessage>, pending: seq<RawMessage>, now: map<Address, int>,
                   cross: seq<RawMessage>, totals: map<Address, int>,
                   placed: seq<RawMessage>, after: map<Address, int>)
    requires Iterating(taken, pending, now, cross, totals)
    requires Affordable(placed, TxsOf(pending), now)
    requires after.Keys == now.Keys && forall b :: b in now ==> after[b] == now[b] - Total(placed, b)
    ensures Iterating(taken + placed, Remaining(pending, TxsOf(placed)), after, cross, totals)
  {
    RemainingKeeps(pending, TxsOf(placed));
    var more := taken + placed;
    forall i, j | 0 <= i < j < |more| ensures more[i].tx != more[j].tx {
      if i < |taken| <= j {
        assert taken[i] in taken;
        assert placed[j - |taken|] in placed;
      }
    }
    assert TxsOf(more) == TxsOf(taken) + TxsOf(placed) by {
      forall m | m in taken || m in placed ensures m in more { }
    }
    forall b | b in totals ensures after[b] == totals[b] - Total(more, b) {
      TotalConcat(taken, placed, b);
    }
  }

  /**
   * Allocated and rest partition the input by transaction; only cross-shard
   * transactions are allocated, none twice; no broker fronts more than it owns.
   */
  ghost predicate FairAllocation(megs: seq<RawMessage>, balances: map<Address, ShardBalances>, shardNum: nat,
                                 taken: seq<RawMessage>, rest: seq<RawMessage>)
  {
    DistinctTxs(taken) && DistinctTxs(rest) &&
    TxsOf(taken) !! TxsOf(rest) && TxsOf(taken) + TxsOf(rest) == TxsOf(megs) &&
    (forall m :: m in rest ==> m in megs) &&
    (forall m :: m in taken ==> CrossShard(m.tx, shardNum) && m.broker in balances) &&
    (forall b {:trigger Total(taken, b)} :: b in balances && 0 <= Sum(balances[b], balances[b].Keys) ==>
      Total(taken, b) <= Sum(balances[b], balances[b].Keys))
  }

  /** The same, with the rounds that led there. */
  ghost predicate Underway(ps: seq<Pass>, taken: seq<RawMessage>, pending: seq<RawMessage>, now: map<Address, int>,
                           cross: seq<RawMessage>, totals: map<Address, int>)
  {
    DistinctTxs(pending) && Iterating(taken, pending, now, cross, totals) &&
    Linked(ps, cross, totals) && taken == AllPlaced(ps) &&
    pending == PendingAfter(ps, cross) && now == BalanceAfter(ps, totals)
  }

  lemma RoundUnderway(ps: seq<Pass>, taken: seq<RawMessage>, cross: seq<RawMessage>, totals: map<Address, int>, p: Pass)
    requires Underway(ps, taken, p.pending, p.balance, cross, totals)
    requires PassOk(p) && Affordable(p.placed, TxsOf(p.pending), p.balance)
    ensures Underway(ps + [p], taken + p.placed, Remaining(p.pending, TxsOf(p.placed)), Charged(p.balance, p.placed),
                     cross, totals)
  {
    RoundKeeps(taken, p.pending, p.balance, cross, totals, p.placed, Charged(p.balance, p.placed));
    LinkMore(ps, p, cross, totals);
    assert (ps + [p])[|ps|] == p;
  }

  /** Relax, round, charge, and find what is left. */
  method OneRound(pending: seq<RawMessage>, now: map<Address, int>)
    returns (placed: seq<RawMessage>, left: seq<RawMessage>, after: map<Address, int>, ghost pass: Pass)
    requires DistinctTxs(pending)
    ensures PassOk(pass) && pass.pending == pending && pass.balance == now && pass.placed == placed
    ensures Affordable(placed, TxsOf(pending), now)
    ensures left == Remaining(pending, TxsOf(placed)) && after == Charged(now, placed)
  {
    placed, pass := RelaxAndRound(pending, now);
    after := Charge(placed, now);
    left := Difference(pending, placed);
  }

  /** The rounds, which work on two buffers in turn. */
  method AllRounds(cross: seq<RawMessage>, totals: map<Address, int>, rounds: nat)
    returns (taken: seq<RawMessage>, ghost ps: seq<Pass>, ghost pending: seq<RawMessage>, ghost left: map<Address, int>)
    requires DistinctTxs(cross)
    ensures |ps| == rounds && Underway(ps, taken, pending, left, cross, totals)
  {
    var buffers: seq<seq<RawMessage>> := [cross, []];
    var sign, now := 0, totals;
    taken, ps := [], [];
    for iter := 0 to rounds
      invariant 0 <= sign <= 1 && |buffers| == 2 && |ps| == iter
      invariant Underway(ps, taken, buffers[sign], now, cross, totals)
    {
      var placed, rest, after, pass := OneRound(buffers[sign], now);
      RoundUnderway(ps, taken, cross, totals, pass);
      taken, now, ps := taken + placed, after, ps + [pass];
      buffers := buffers[1 - sign := rest];
      sign := 1 - sign;
    }
    pending, left := buffers[sign], now;
  }

  ghost function Totals(balances: map<Address, ShardBalances>): map<Address, int> {
    map b | b in balances :: Sum(balances[b], balances[b].Keys)
  }

  /** What so many rounds make of the input: what they place, in order, and what is left. */
  ghost predicate Allocation(megs: seq<RawMessage>, balances: map<Address, ShardBalances>, shardNum: nat, rounds: nat,
                             taken: seq<RawMessage>, rest: seq<RawMessage>)
  {
    rest == Remaining(megs, TxsOf(taken)) &&
    exists ps: seq<Pass> :: |ps| == rounds && Linked(ps, CrossPart(megs, shardNum), Totals(balances)) &&
                            taken == AllPlaced(ps)
  }

  method Allocate(megs: seq<RawMessage>, balances: map<Address, ShardBalances>, shardNum: nat, rounds: nat)
    returns (taken: seq<RawMessage>, rest: seq<RawMessage>)
    requires DistinctTxs(megs)
    ensures FairAllocation(megs, balances, shardNum, taken, rest)
    ensures Allocation(megs, balances, shardNum, rounds, taken, rest)
  {
    var cross := CrossShardOnly(megs, shardNum);
    CrossPartKeeps(megs, shardNum);
    var totals := Accumulate(balances);
    ghost var ps, pending, now;
    taken, ps, pending, now := AllRounds(cross, totals, rounds);
    rest := Difference(megs, taken);
    assert totals == Totals(balances);
    Finish(megs, balances, shardNum, taken, pending, now, cross, totals);
  }

  lemma Finish(megs: seq<RawMessage>, balances: map<Address, ShardBalances>, shardNum: nat,
               taken: seq<RawMessage>, pending: seq<RawMessage>, now: map<Address, int>,
               cross: seq<RawMessage>, totals: map<Address, int>)
    requires DistinctTxs(megs) && Iterating(taken, pending, now, cross, totals)
    requires forall m :: m in cross ==> m in megs && CrossShard(m.tx, shardNum)
    requires totals.Keys == balances.Keys
    requires forall b :: b in balances ==> totals[b] == Sum(balances[b], balances[b].Keys)
    ensures FairAllocation(megs, balances, shardNum, taken, Remaining(megs, TxsOf(taken)))
  {
    RemainingKeeps(megs, TxsOf(taken));
  }

  // ----- what is placed, and why something is left ------------------------------------------

  /** The i-th transaction got no offer in its round: all brokers are full, or it exceeds the
      broker being filled, or it is the one that fills the last broker. */
  ghost predicate Skipped(p: Pass, i: nat)
    requires i < |p.txs| && forall b :: b in p.filling ==> b in p.balance
  {
    Relaxation.SkippedAt(p.txs, i, p.filling, p.balance)
  }

  /** The j-th choice found its broker able to front it. */
  ghost predicate Fits(p: Pass, j: nat)
    requires j < |p.choices|
  {
    var m := p.choices[j];
    m.broker in p.balance &&
    Total(Rounding.Placed(p.choices[..j], p.balance), m.broker) + m.tx.value <= p.balance[m.broker]
  }

  lemma PassTxs(p: Pass)
    requires PassOk(p) && DistinctTxs(p.pending)
    ensures Distinct(p.txs) && forall t :: t in p.txs <==> t in TxsOf(p.pending)
  {
    Relaxation.Rearranged(Txs(p.pending), p.txs);
    forall t ensures t in p.txs <==> t in TxsOf(p.pending) {
      assert t in p.txs <==> t in multiset(p.txs);
      assert t in Txs(p.pending) <==> t in multiset(Txs(p.pending));
      if t in TxsOf(p.pending) {
        var m :| m in p.pending && m.tx == t;
        var i :| 0 <= i < |p.pending| && p.pending[i] == m;
        assert Txs(p.pending)[i] == t;
      }
    }
  }

  /**
   * MAIN: in every round a pending transaction is placed if and only if it was offered and
   * the broker that considered it could still front it.
   */
  lemma PlacedIff(p: Pass, i: nat)
    requires PassOk(p) && DistinctTxs(p.pending) && i < |p.txs|
    ensures p.txs[i] in TxsOf(p.placed) <==>
            !Skipped(p, i) && exists j :: 0 <= j < |p.choices| && p.choices[j].tx == p.txs[i] && Fits(p, j)
  {
    var t := p.txs[i];
    forall j | 0 <= j < |p.choices| && p.choices[j].tx == t ensures t in TxsOf(p.placed) <==> Fits(p, j) {
      Rounding.PlacedAt(p.choices, j, p.balance);
    }
    if t in TxsOf(p.placed) { var j := PlacedWasOffered(p, i); }
  }

  /** What is placed was considered, so it was offered. */
  lemma PlacedWasOffered(p: Pass, i: nat) returns (j: nat)
    requires PassOk(p) && DistinctTxs(p.pending) && i < |p.txs| && p.txs[i] in TxsOf(p.placed)
    ensures j < |p.choices| && p.choices[j].tx == p.txs[i] && !Skipped(p, i)
  {
    var offers := Relaxation.Fill(p.txs, p.filling, p.balance).offers;
    PassTxs(p);
    Relaxation.OfferedIff(p.txs, i, p.filling, p.balance);
    Rounding.PlacedOnce(p.choices, p.balance);
    var m :| m in p.placed && m.tx == p.txs[i];
    assert m in p.choices;
    j :| 0 <= j < |p.choices| && p.choices[j] == m;
    assert Rounding.Earliest(p.visiting, offers, p.choices[j]);
    assert Rounding.Candidate(offers, p.txs[i], m.broker);
  }

  /** An offered transaction is always considered. */
  lemma OfferedIsConsidered(p: Pass, i: nat) returns (j: nat)
    requires PassOk(p) && DistinctTxs(p.pending) && i < |p.txs| && !Skipped(p, i)
    ensures j < |p.choices| && p.choices[j].tx == p.txs[i]
  {
    var offers := Relaxation.Fill(p.txs, p.filling, p.balance).offers;
    PassTxs(p);
    Relaxation.OfferedIff(p.txs, i, p.filling, p.balance);
    var b :| Rounding.Candidate(offers, p.txs[i], b);
    Relaxation.FillPicks(p.txs, p.filling, p.balance);
    var x :| 0 <= x < |offers| && offers[x].tx == p.txs[i] && b in offers[x].brokers;
    assert offers[x] in offers && b in p.visiting;
    j :| 0 <= j < |p.choices| && p.choices[j].tx == p.txs[i];
  }

  /** MAIN: a round in which every pending value is below every balance places something. */
  lemma PassPlacesSome(p: Pass)
    requires PassOk(p) && DistinctTxs(p.pending) && p.pending != [] && p.balance != map[]
    requires forall m, b :: m in p.pending && b in p.balance ==> m.tx.value < p.balance[b]
    ensures p.placed != []
  {
    PassTxs(p);
    assert |p.txs| == |multiset(p.txs)| == |multiset(Txs(p.pending))| == |p.pending|;
    var a :| a in p.balance;
    assert a in p.filling;
    assert p.txs[..0] == [];
    assert p.txs[0] in TxsOf(p.pending);
    assert !Skipped(p, 0);
    var j := OfferedIsConsidered(p, 0);
    FirstChoiceFits(p);
    Rounding.PlacedAt(p.choices, 0, p.balance);
  }

  lemma FirstChoiceFits(p: Pass)
    requires PassOk(p) && DistinctTxs(p.pending) && p.choices != []
    requires forall m, b :: m in p.pending && b in p.balance ==> m.tx.value < p.balance[b]
    ensures Fits(p, 0)
  {
    var offers, m := Relaxation.Fill(p.txs, p.filling, p.balance).offers, p.choices[0];
    assert p.choices[..0] == [];
    PassTxs(p);
    Relaxation.FillPicks(p.txs, p.filling, p.balance);
    assert Rounding.Earliest(p.visiting, offers, m);
    var x :| 0 <= x < |offers| && offers[x].tx == m.tx && m.broker in offers[x].brokers;
    assert offers[x] in offers;
    assert m.tx in TxsOf(p.pending);
  }

  lemma FirstPassPlaces(ps: seq<Pass>, cross: seq<RawMessage>, totals: map<Address, int>)
    requires Linked(ps, cross, totals) && ps != [] && DistinctTxs(cross) && cross != [] && totals.Keys != {}
    requires forall m, b :: m in cross && b in totals ==> m.tx.value < totals[b]
    ensures AllPlaced(ps) != []
  {
    assert ps[..0] == [] && ps[0].pending == cross && ps[0].balance == totals;
    PassPlacesSome(ps[0]);
    AllPlacedHolds(ps, 0);
  }

  /** So an allocation of at least one round takes something, if all are small enough. */
  lemma AllocatesSome(megs: seq<RawMessage>, balances: map<Address, ShardBalances>, shardNum: nat, rounds: nat,
                      taken: seq<RawMessage>, rest: seq<RawMessage>)
    requires Allocation(megs, balances, shardNum, rounds, taken, rest) && DistinctTxs(megs)
    requires rounds > 0 && balances != map[] && CrossPart(megs, shardNum) != []
    requires forall m, b :: m in megs && b in balances ==> m.tx.value < Totals(balances)[b]
    ensures taken != []
  {
    var ps: seq<Pass> :| |ps| == rounds && Linked(ps, CrossPart(megs, shardNum), Totals(balances)) &&
                         taken == AllPlaced(ps);
    CrossPartKeeps(megs, shardNum);
    assert Totals(balances).Keys == balances.Keys;
    FirstPassPlaces(ps, CrossPart(megs, shardNum), Totals(balances));
  }

  lemma {:induction false} AllPlacedHolds(ps: seq<Pass>, i: nat)
    requires i < |ps| && ps[i].placed != []
    ensures AllPlaced(ps) != []
  {
    if i < |ps| - 1 { AllPlacedHolds(ps[..|ps| - 1], i); }
  }
}

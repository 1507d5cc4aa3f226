/**
 * The relaxation step (supervisor/Broker2Earn/URFA.go): brokers are filled one
 * after the other, and the transaction that fills one may be offered to the
 * next as well.
 */
module Relaxation {
  import opened BrokerMessages
  import opened Rounding

  /** The offers made so far, the broker being filled, and how much of it is filled. */
  datatype Stage = Stage(offers: seq<RatioMessage>, k: nat, filled: int)

  /** The brokers offered the transaction that fills the `k`-th broker to the brim. */
  function Brim(order: seq<Address>, balance: map<Address, int>, k: nat, rest: int): (offered: set<Address>)
    requires k + 1 < |order| && order[k + 1] in balance
  {
    {order[k]} + if rest <= balance[order[k + 1]] then {order[k + 1]} else {}
  }

  function Offer(s: Stage, t: Transaction, order: seq<Address>, balance: map<Address, int>): (r: Stage)
    requires forall b :: b in order ==> b in balance
  {
    if s.k >= |order| || balance[order[s.k]] < t.value then s
    else if s.filled < balance[order[s.k]] <= s.filled + t.value then
      if s.k + 1 == |order| then Stage(s.offers, s.k + 1, 0)
      else
        var offered := Brim(order, balance, s.k, s.filled + t.value - balance[order[s.k]]);
        Stage(s.offers + [RatioMessage(t, offered)], s.k + 1, 0)
    else
      Stage(s.offers + [RatioMessage(t, {order[s.k]})], s.k, s.filled + t.value)
  }

  function Fill(txs: seq<Transaction>, order: seq<Address>, balance: map<Address, int>): (r: Stage)
    requires forall b :: b in order ==> b in balance
  {
    if txs == [] then Stage([], 0, 0)
    else Offer(Fill(txs[..|txs| - 1], order, balance), txs[|txs| - 1], order, balance)
  }

  lemma FillNext(txs: seq<Transaction>, i: nat, order: seq<Address>, balance: map<Address, int>)
    requires (forall b :: b in order ==> b in balance) && i < |txs|
    ensures Fill(txs[..i + 1], order, balance) == Offer(Fill(txs[..i], order, balance), txs[i], order, balance)
  {
    assert txs[..i + 1][..i] == txs[..i];
  }

  /** Once every broker is full, nothing more is offered. */
  lemma {:induction false} FullStays(txs: seq<Transaction>, i: nat, order: seq<Address>, balance: map<Address, int>)
    requires (forall b :: b in order ==> b in balance) && i <= |txs|
    requires Fill(txs[..i], order, balance).k >= |order|
    ensures Fill(txs, order, balance) == Fill(txs[..i], order, balance)
    decreases |txs| - i
  {
    if i == |txs| {
      assert txs[..i] == txs;
    } else {
      FillNext(txs, i, order, balance);
      FullStays(txs, i + 1, order, balance);
    }
  }

  /** Sorting by fee over value: any rearrangement. */
  method Sorted(txs: seq<Transaction>) returns (sorted: seq<Transaction>)
    ensures multiset(sorted) == multiset(txs)
  {
    assert multiset(txs) == multiset(txs);
    sorted :| multiset(sorted) == multiset(txs);
  }

  /** The search for a broker to take the rest tests the same broker at every turn. */
  method OfferRest(order: seq<Address>, balance: map<Address, int>, filled: map<Address, int>,
                   k: nat, rest: int) returns (brokers: set<Address>)
    requires k + 1 < |order| && order[k + 1] in balance && order[k + 1] in filled && filled[order[k + 1]] == 0
    ensures brokers == Brim(order, balance, k, rest)
  {
    brokers := {order[k]};
    for j := k + 1 to |order|
      invariant brokers == {order[k]}
      invariant j > k + 1 ==> rest > balance[order[k + 1]]
    {
      if balance[order[k + 1]] < filled[order[k + 1]] + rest {
        continue;
      }
      brokers := brokers + {order[j]};
      break;
    }
  }

  /** The loop's variables `result`, `k` and `filled` stand for the stage `s`. */
  ghost predicate Shows(s: Stage, result: seq<RatioMessage>, k: nat, filled: map<Address, int>, order: seq<Address>) {
    s.offers == result && s.k == k <= |order| &&
    (forall b :: b in order ==> b in filled) &&
    (forall j :: k <= j < |order| ==> filled[order[j]] == if j == k then s.filled else 0)
  }

  method Relax(megs: seq<RawMessage>, balance: map<Address, int>)
    returns (result: seq<RatioMessage>, ghost txs: seq<Transaction>, ghost order: seq<Address>)
    ensures multiset(txs) == multiset(Txs(megs))
    ensures Distinct(order) && forall b :: b in order <==> b in balance
    ensures result == Fill(txs, order, balance).offers
    ensures DistinctTxs(megs) ==> DistinctRatios(result)
    ensures DistinctTxs(megs) ==>
      forall o :: o in result ==> o.tx in TxsOf(megs) && o.brokers != {} && o.brokers <= balance.Keys
  {
    var brokers := SomeOrder(balance.Keys);
    var sorted := Sorted(Txs(megs));
    order, txs := brokers, sorted;
    result := OfferAll(sorted, brokers, balance);
    if DistinctTxs(megs) {
      OffersPending(megs, txs, order, balance);
    }
  }

  method OfferAll(sorted: seq<Transaction>, brokers: seq<Address>, balance: map<Address, int>)
    returns (result: seq<RatioMessage>)
    requires Distinct(brokers) && forall b :: b in brokers ==> b in balance
    ensures result == Fill(sorted, brokers, balance).offers
  {
    var filled: map<Address, int> := map b | b in brokers :: 0;
    result := [];
    var k: nat, i: nat := 0, 0;
    while i < |sorted| && k < |brokers|
      invariant i <= |sorted|
      invariant Shows(Fill(sorted[..i], brokers, balance), result, k, filled, brokers)
    {
      FillNext(sorted, i, brokers, balance);
      result, k, filled := OfferOne(sorted[i], brokers, balance, result, k, filled,
                                    Fill(sorted[..i], brokers, balance));
      i := i + 1;
    }
    if i < |sorted| {
      FullStays(sorted, i, brokers, balance);
    } else {
      assert sorted[..i] == sorted;
    }
  }

  /** One turn of the loop over the sorted transactions. */
  method OfferOne(t: Transaction, order: seq<Address>, balance: map<Address, int>,
                  result0: seq<RatioMessage>, k0: nat, filled0: map<Address, int>, ghost s: Stage)
    returns (result: seq<RatioMessage>, k: nat, filled: map<Address, int>)
    requires Distinct(order) && (forall b :: b in order ==> b in balance) && k0 < |order|
    requires Shows(s, result0, k0, filled0, order)
    ensures Shows(Offer(s, t, order, balance), result, k, filled, order)
  {
    result, k, filled := result0, k0, filled0;
    var b := order[k];
    var cap := balance[b];
    if cap < t.value {
      return;
    }
    var offered: set<Address>;
    if filled[b] < cap && filled[b] + t.value >= cap {
      var rest := filled[b] + t.value - cap;
      filled := filled[b := cap];
      k := k + 1;
      if k >= |order| {
        return;
      }
      offered := OfferRest(order, balance, filled, k - 1, rest);
    } else {
      filled := filled[b := filled[b] + t.value];
      offered := {b};
    }
    result := result + [RatioMessage(t, offered)];
  }

  // ----- what the offers satisfy ----------------------------------------------

  /** The position in the order of the broker an offer starts with. */
  ghost predicate StartsAt(o: RatioMessage, order: seq<Address>, k: nat) {
    k < |order| && order[k] in o.brokers && forall j :: 0 <= j < k ==> order[j] !in o.brokers
  }

  /** Values of the offers that start at position `k`. */
  ghost function Load(offers: seq<RatioMessage>, order: seq<Address>, k: nat): int {
    if offers == [] then 0
    else
      var o := offers[|offers| - 1];
      Load(offers[..|offers| - 1], order, k) + if StartsAt(o, order, k) then o.tx.value else 0
  }

  lemma {:induction false} LoadSnoc(offers: seq<RatioMessage>, o: RatioMessage, order: seq<Address>, k: nat)
    ensures Load(offers + [o], order, k) == Load(offers, order, k) + if StartsAt(o, order, k) then o.tx.value else 0
  {
    assert (offers + [o])[..|offers|] == offers;
  }

  /** An offer goes to one broker, or to one and the next in the order. */
  ghost predicate OfferShape(o: RatioMessage, order: seq<Address>, balance: map<Address, int>) {
    exists k: nat :: StartsAt(o, order, k) && order[k] in balance && o.tx.value <= balance[order[k]] &&
      (o.brokers == {order[k]} || (k + 1 < |order| && o.brokers == {order[k], order[k + 1]}))
  }

  /** Before an offer is made, its first broker is not filled beyond its balance. */
  ghost predicate WithinLoad(offers: seq<RatioMessage>, order: seq<Address>, balance: map<Address, int>, p: nat)
    requires p < |offers|
  {
    forall k: nat :: StartsAt(offers[p], order, k) ==>
      order[k] in balance && Load(offers[..p], order, k) <= balance[order[k]]
  }

  ghost predicate OffersSound(offers: seq<RatioMessage>, order: seq<Address>, balance: map<Address, int>) {
    forall p :: 0 <= p < |offers| ==> OfferShape(offers[p], order, balance) && WithinLoad(offers, order, balance, p)
  }

  ghost predicate StageSound(s: Stage, order: seq<Address>, balance: map<Address, int>) {
    s.k <= |order| && OffersSound(s.offers, order, balance) &&
    (s.k < |order| ==> order[s.k] in balance && 0 <= s.filled <= balance[order[s.k]]) &&
    (s.k < |order| ==> s.filled == 0 || s.filled < balance[order[s.k]]) &&
    (s.k < |order| ==> Load(s.offers, order, s.k) == s.filled) &&
    (forall j: nat :: s.k < j < |order| ==> Load(s.offers, order, j) == 0)
  }

  lemma StartsOnce(o: RatioMessage, order: seq<Address>, i: nat, j: nat)
    requires StartsAt(o, order, i) && StartsAt(o, order, j)
    ensures i == j
  {
  }

  lemma ExtendSound(offers: seq<RatioMessage>, o: RatioMessage, order: seq<Address>, balance: map<Address, int>, k: nat)
    requires OffersSound(offers, order, balance)
    requires StartsAt(o, order, k) && OfferShape(o, order, balance)
    requires order[k] in balance && Load(offers, order, k) <= balance[order[k]]
    ensures OffersSound(offers + [o], order, balance)
  {
    var more := offers + [o];
    forall p | 0 <= p < |more|
      ensures OfferShape(more[p], order, balance) && WithinLoad(more, order, balance, p)
    {
      if p < |offers| {
        assert more[p] == offers[p] && more[..p] == offers[..p];
        assert WithinLoad(offers, order, balance, p);
      } else {
        assert more[..p] == offers;
        forall j: nat | StartsAt(more[p], order, j) ensures j == k { StartsOnce(o, order, j, k); }
      }
    }
  }

  /** The offer that `Offer` adds at stage `s` for `t`. */
  ghost predicate FairOffer(o: RatioMessage, s: Stage, t: Transaction, order: seq<Address>) {
    o.tx == t && s.k < |order| &&
    (o.brokers == {order[s.k]} || (s.k + 1 < |order| && o.brokers == {order[s.k], order[s.k + 1]}))
  }

  lemma FairStarts(o: RatioMessage, s: Stage, t: Transaction, order: seq<Address>)
    requires FairOffer(o, s, t, order) && Distinct(order)
    ensures StartsAt(o, order, s.k)
  {
  }

  /** Adding a fair offer loads the broker being filled and no other still to come. */
  lemma AddFair(s: Stage, o: RatioMessage, t: Transaction, order: seq<Address>, balance: map<Address, int>)
    requires Distinct(order) && FairOffer(o, s, t, order) && StageSound(s, order, balance)
    requires t.value <= balance[order[s.k]]
    ensures OffersSound(s.offers + [o], order, balance)
    ensures forall j: nat :: s.k <= j < |order| ==>
      Load(s.offers + [o], order, j) == Load(s.offers, order, j) + if j == s.k then t.value else 0
  {
    FairStarts(o, s, t, order);
    ExtendSound(s.offers, o, order, balance, s.k);
    forall j: nat | s.k <= j < |order|
      ensures Load(s.offers + [o], order, j) == Load(s.offers, order, j) + if j == s.k then t.value else 0
    {
      LoadSnoc(s.offers, o, order, j);
      if StartsAt(o, order, j) { StartsOnce(o, order, j, s.k); }
    }
  }

  /** The offer that does not fill the broker. */
  lemma AddSound(s: Stage, t: Transaction, order: seq<Address>, balance: map<Address, int>)
    requires Distinct(order) && (forall b :: b in order ==> b in balance && 0 <= balance[b])
    requires 0 <= t.value && StageSound(s, order, balance) && s.k < |order| && t.value <= balance[order[s.k]]
    requires !(s.filled < balance[order[s.k]] <= s.filled + t.value)
    ensures StageSound(Stage(s.offers + [RatioMessage(t, {order[s.k]})], s.k, s.filled + t.value), order, balance)
  {
    AddFair(s, RatioMessage(t, {order[s.k]}), t, order, balance);
  }

  /** The offer that does, and goes to the next broker too if that can front the rest. */
  lemma BrimSound(s: Stage, t: Transaction, order: seq<Address>, balance: map<Address, int>, o: RatioMessage)
    requires Distinct(order) && (forall b :: b in order ==> b in balance && 0 <= balance[b])
    requires 0 <= t.value && StageSound(s, order, balance) && s.k + 1 < |order| && t.value <= balance[order[s.k]]
    requires FairOffer(o, s, t, order)
    ensures StageSound(Stage(s.offers + [o], s.k + 1, 0), order, balance)
  {
    AddFair(s, o, t, order, balance);
  }

  lemma OfferKeepsSound(s: Stage, t: Transaction, order: seq<Address>, balance: map<Address, int>)
    requires Distinct(order) && (forall b :: b in order ==> b in balance && 0 <= balance[b])
    requires 0 <= t.value && StageSound(s, order, balance)
    ensures StageSound(Offer(s, t, order, balance), order, balance)
  {
    if s.k < |order| && t.value <= balance[order[s.k]] {
      if s.filled < balance[order[s.k]] <= s.filled + t.value {
        if s.k + 1 < |order| {
          BrimSound(s, t, order, balance,
                    RatioMessage(t, Brim(order, balance, s.k, s.filled + t.value - balance[order[s.k]])));
        }
      } else {
        AddSound(s, t, order, balance);
      }
    }
  }

  /** Non-negative values and balances: brokers are never filled beyond their balance. */
  lemma {:induction false} FillSound(txs: seq<Transaction>, order: seq<Address>, balance: map<Address, int>)
    requires Distinct(order) && (forall b :: b in order ==> b in balance && 0 <= balance[b])
    requires forall t :: t in txs ==> 0 <= t.value
    ensures StageSound(Fill(txs, order, balance), order, balance)
  {
    if txs != [] {
      FillSound(txs[..|txs| - 1], order, balance);
      OfferKeepsSound(Fill(txs[..|txs| - 1], order, balance), txs[|txs| - 1], order, balance);
    }
  }

  /** The load of the broker being filled is what is filled of it. */
  ghost predicate LoadIs(s: Stage, order: seq<Address>) {
    s.k <= |order| && (s.k < |order| ==> Load(s.offers, order, s.k) == s.filled)
  }

  /** A broker that the filling left behind is loaded to its balance. */
  ghost predicate Behind(offers: seq<RatioMessage>, k: nat, order: seq<Address>, balance: map<Address, int>)
    requires forall b :: b in order ==> b in balance
  {
    forall j: nat :: j < k && j + 1 < |order| ==> balance[order[j]] <= Load(offers, order, j)
  }

  /** The last one would be with the transaction that filled it, which is not offered. */
  ghost predicate LastFilledBy(offers: seq<RatioMessage>, t: Transaction, order: seq<Address>,
                               balance: map<Address, int>)
    requires |order| > 0 && forall b :: b in order ==> b in balance
  {
    var last := |order| - 1;
    Load(offers, order, last) < balance[order[last]] <= Load(offers, order, last) + t.value
  }

  ghost predicate LeftFull(s: Stage, txs: seq<Transaction>, order: seq<Address>, balance: map<Address, int>)
    requires forall b :: b in order ==> b in balance
  {
    Behind(s.offers, s.k, order, balance) &&
    (s.k == |order| > 0 ==> exists t :: t in txs && LastFilledBy(s.offers, t, order, balance))
  }

  lemma LoadAfter(offers: seq<RatioMessage>, o: RatioMessage, order: seq<Address>, k: nat, j: nat)
    requires StartsAt(o, order, k)
    ensures Load(offers + [o], order, j) == Load(offers, order, j) + if j == k then o.tx.value else 0
  {
    LoadSnoc(offers, o, order, j);
    if StartsAt(o, order, j) { StartsOnce(o, order, j, k); }
  }

  lemma AddBehind(s: Stage, o: RatioMessage, t: Transaction, order: seq<Address>, balance: map<Address, int>, k: nat)
    requires Distinct(order) && (forall b :: b in order ==> b in balance)
    requires LoadIs(s, order) && FairOffer(o, s, t, order) && Behind(s.offers, s.k, order, balance)
    requires k == s.k || (k == s.k + 1 && balance[order[s.k]] <= s.filled + t.value)
    ensures Behind(s.offers + [o], k, order, balance)
  {
    FairStarts(o, s, t, order);
    forall j: nat | j < k && j + 1 < |order| ensures balance[order[j]] <= Load(s.offers + [o], order, j) {
      LoadAfter(s.offers, o, order, s.k, j);
      assert j < s.k ==> balance[order[j]] <= Load(s.offers, order, j);
    }
  }

  lemma LastFills(s: Stage, t: Transaction, order: seq<Address>, balance: map<Address, int>)
    requires (forall b :: b in order ==> b in balance) && LoadIs(s, order) && s.k + 1 == |order|
    requires s.filled < balance[order[s.k]] <= s.filled + t.value
    ensures LastFilledBy(s.offers, t, order, balance)
  {
  }

  lemma NoneFull(s: Stage, txs: seq<Transaction>, t: Transaction, order: seq<Address>, balance: map<Address, int>)
    requires (forall b :: b in order ==> b in balance) && LeftFull(s, txs, order, balance)
    ensures LeftFull(s, txs + [t], order, balance)
  {
    if s.k == |order| > 0 {
      var x :| x in txs && LastFilledBy(s.offers, x, order, balance);
      assert x in txs + [t];
    }
  }

  lemma LastFull(s: Stage, txs: seq<Transaction>, t: Transaction, order: seq<Address>, balance: map<Address, int>)
    requires (forall b :: b in order ==> b in balance) && Behind(s.offers, s.k, order, balance)
    requires LoadIs(s, order) && s.k + 1 == |order|
    requires s.filled < balance[order[s.k]] <= s.filled + t.value
    ensures LeftFull(Stage(s.offers, s.k + 1, 0), txs + [t], order, balance)
  {
    LastFills(s, t, order, balance);
    assert t in txs + [t];
  }

  lemma MoreFull(s: Stage, txs: seq<Transaction>, t: Transaction, order: seq<Address>, balance: map<Address, int>,
                 o: RatioMessage, k: nat, filled: int)
    requires Distinct(order) && (forall b :: b in order ==> b in balance) && Behind(s.offers, s.k, order, balance)
    requires LoadIs(s, order) && FairOffer(o, s, t, order) && k < |order|
    requires k == s.k || (k == s.k + 1 && balance[order[s.k]] <= s.filled + t.value)
    ensures LeftFull(Stage(s.offers + [o], k, filled), txs + [t], order, balance)
  {
    AddBehind(s, o, t, order, balance, k);
  }

  lemma OfferKeepsFull(s: Stage, txs: seq<Transaction>, t: Transaction, order: seq<Address>, balance: map<Address, int>)
    requires Distinct(order) && (forall b :: b in order ==> b in balance)
    requires LoadIs(s, order) && LeftFull(s, txs, order, balance)
    ensures LeftFull(Offer(s, t, order, balance), txs + [t], order, balance)
  {
    if s.k >= |order| || balance[order[s.k]] < t.value {
      NoneFull(s, txs, t, order, balance);
    } else if s.filled < balance[order[s.k]] <= s.filled + t.value {
      if s.k + 1 == |order| {
        LastFull(s, txs, t, order, balance);
      } else {
        var o := RatioMessage(t, Brim(order, balance, s.k, s.filled + t.value - balance[order[s.k]]));
        MoreFull(s, txs, t, order, balance, o, s.k + 1, 0);
      }
    } else {
      MoreFull(s, txs, t, order, balance, RatioMessage(t, {order[s.k]}), s.k, s.filled + t.value);
    }
  }

  /** MAIN: brokers are filled one after the other, none left before it is full. */
  lemma {:induction false} FillFull(txs: seq<Transaction>, order: seq<Address>, balance: map<Address, int>)
    requires Distinct(order) && (forall b :: b in order ==> b in balance && 0 <= balance[b])
    requires forall t :: t in txs ==> 0 <= t.value
    ensures LeftFull(Fill(txs, order, balance), txs, order, balance)
  {
    if txs != [] {
      var front, t := txs[..|txs| - 1], txs[|txs| - 1];
      FillSound(front, order, balance);
      FillFull(front, order, balance);
      OfferKeepsFull(Fill(front, order, balance), front, t, order, balance);
      assert front + [t] == txs;
    }
  }

  /** Different transactions in, different transactions out, each with some broker. */
  lemma {:induction false} FillPicks(txs: seq<Transaction>, order: seq<Address>, balance: map<Address, int>)
    requires Distinct(txs) && (forall b :: b in order ==> b in balance)
    ensures DistinctRatios(Fill(txs, order, balance).offers)
    ensures forall o :: o in Fill(txs, order, balance).offers ==>
      o.tx in txs && o.brokers != {} && o.brokers <= balance.Keys
  {
    if txs != [] {
      var front, t := txs[..|txs| - 1], txs[|txs| - 1];
      FillPicks(front, order, balance);
      assert t !in front;
      forall o | o in Fill(front, order, balance).offers ensures o.tx != t && o.tx in txs {
        assert o.tx in front;
      }
    }
  }

  /** The i-th transaction finds all brokers full, or exceeds the broker being filled, or is
      the one that fills the last broker. */
  ghost predicate SkippedAt(txs: seq<Transaction>, i: nat, order: seq<Address>, balance: map<Address, int>)
    requires i < |txs| && forall b :: b in order ==> b in balance
  {
    var s, v := Fill(txs[..i], order, balance), txs[i].value;
    s.k >= |order| || balance[order[s.k]] < v ||
    (s.k + 1 == |order| && s.filled < balance[order[s.k]] <= s.filled + v)
  }

  ghost predicate Offered(offers: seq<RatioMessage>, t: Transaction) {
    exists b :: Candidate(offers, t, b)
  }

  /** The brokers that the i-th transaction is offered to: the one being filled, and the next
      one as well if the transaction fills the first and the next could front the rest. */
  ghost predicate OfferedTo(txs: seq<Transaction>, i: nat, order: seq<Address>, balance: map<Address, int>, b: Address)
    requires i < |txs| && forall b :: b in order ==> b in balance
  {
    !SkippedAt(txs, i, order, balance) &&
    var s := Fill(txs[..i], order, balance);
    var over := s.filled + txs[i].value - balance[order[s.k]];
    b == order[s.k] ||
    (s.filled < balance[order[s.k]] && s.k + 1 < |order| && b == order[s.k + 1] && 0 <= over <= balance[b])
  }

  /** MAIN: every transaction is offered to exactly those brokers. */
  lemma {:induction false} CandidateIff(txs: seq<Transaction>, i: nat, order: seq<Address>, balance: map<Address, int>,
                                        b: Address)
    requires Distinct(txs) && i < |txs| && forall b :: b in order ==> b in balance
    ensures Candidate(Fill(txs, order, balance).offers, txs[i], b) <==> OfferedTo(txs, i, order, balance, b)
  {
    var front, last := txs[..|txs| - 1], txs[|txs| - 1];
    var before, after := Fill(front, order, balance), Fill(txs, order, balance);
    if i == |front| {
      assert txs[..i] == front && txs[i] == last && after == Offer(before, last, order, balance);
      LastCandidate(txs, order, balance, b);
    } else {
      assert txs[..i] == front[..i] && txs[i] == front[i] && txs[i] != last;
      CandidateIff(front, i, order, balance, b);
      OfferOfOther(before, last, order, balance, txs[i], b);
    }
  }

  lemma LastCandidate(txs: seq<Transaction>, order: seq<Address>, balance: map<Address, int>, b: Address)
    requires txs != [] && Distinct(txs) && forall b :: b in order ==> b in balance
    ensures var front, last := txs[..|txs| - 1], txs[|txs| - 1];
            Candidate(Offer(Fill(front, order, balance), last, order, balance).offers, last, b) <==>
            OfferedTo(txs, |txs| - 1, order, balance, b)
  {
    var front, last := txs[..|txs| - 1], txs[|txs| - 1];
    var s := Fill(front, order, balance);
    var r := Offer(s, last, order, balance);
    FillPicks(front, order, balance);
    forall o | o in s.offers ensures o.tx != last { assert o.tx in front; }
    if |r.offers| > |s.offers| {
      var o := r.offers[|s.offers|];
      assert o.tx == last && (Candidate(r.offers, last, b) <==> b in o.brokers);
    } else {
      assert r.offers == s.offers;
    }
  }

  /** So exactly the transactions that are not skipped get an offer. */
  lemma OfferedIff(txs: seq<Transaction>, i: nat, order: seq<Address>, balance: map<Address, int>)
    requires Distinct(txs) && i < |txs| && forall b :: b in order ==> b in balance
    ensures Offered(Fill(txs, order, balance).offers, txs[i]) <==> !SkippedAt(txs, i, order, balance)
  {
    var offers := Fill(txs, order, balance).offers;
    if Offered(offers, txs[i]) {
      var b :| Candidate(offers, txs[i], b);
      CandidateIff(txs, i, order, balance, b);
    }
    if !SkippedAt(txs, i, order, balance) {
      CandidateIff(txs, i, order, balance, order[Fill(txs[..i], order, balance).k]);
    }
  }

  lemma OfferOfOther(s: Stage, t: Transaction, order: seq<Address>, balance: map<Address, int>,
                     x: Transaction, b: Address)
    requires x != t && forall a :: a in order ==> a in balance
    ensures Candidate(Offer(s, t, order, balance).offers, x, b) <==> Candidate(s.offers, x, b)
  {
    var r := Offer(s, t, order, balance);
    if Candidate(s.offers, x, b) {
      var i :| 0 <= i < |s.offers| && s.offers[i].tx == x && b in s.offers[i].brokers;
      assert r.offers[i] == s.offers[i];
    }
    if Candidate(r.offers, x, b) {
      var i :| 0 <= i < |r.offers| && r.offers[i].tx == x && b in r.offers[i].brokers;
      assert i < |s.offers| && r.offers[i] == s.offers[i];
    }
  }

  lemma OffersPending(pending: seq<RawMessage>, txs: seq<Transaction>, order: seq<Address>, balance: map<Address, int>)
    requires DistinctTxs(pending) && multiset(txs) == multiset(Txs(pending))
    requires forall b :: b in order ==> b in balance
    ensures DistinctRatios(Fill(txs, order, balance).offers)
    ensures forall o :: o in Fill(txs, order, balance).offers ==>
      o.tx in TxsOf(pending) && o.brokers != {} && o.brokers <= balance.Keys
  {
    Rearranged(Txs(pending), txs);
    FillPicks(txs, order, balance);
    forall t | t in txs ensures t in TxsOf(pending) {
      assert t in multiset(txs);
      assert t in Txs(pending);
      var i :| 0 <= i < |pending| && Txs(pending)[i] == t;
      assert pending[i] in pending;
    }
  }

  /** A rearrangement of distinct elements is distinct. */
  lemma Rearranged<T(!new)>(a: seq<T>, b: seq<T>)
    requires Distinct(a) && multiset(a) == multiset(b)
    ensures Distinct(b)
  {
    forall i, j | 0 <= i < j < |b| ensures b[i] != b[j] {
      if b[i] == b[j] {
        Twice(b, i, j);
        Once(a, b[i]);
        assert false;
      }
    }
  }

  lemma Twice<T>(s: seq<T>, i: nat, j: nat)
    requires i < j < |s| && s[i] == s[j]
    ensures multiset(s)[s[i]] >= 2
  {
    assert s == s[..j] + s[j..];
    assert s[..j][i] == s[i] && s[j..][0] == s[j];
  }

  lemma {:induction false} Once<T(!new)>(s: seq<T>, x: T)
    requires Distinct(s)
    ensures multiset(s)[x] <= 1
  {
    if s != [] {
      Once(s[1..], x);
      assert s == [s[0]] + s[1..];
      if x == s[0] {
        assert x !in s[1..];
      }
    }
  }
}

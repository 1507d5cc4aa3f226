/**
 * The rounding step (supervisor/Broker2Earn/rounding.go).  Per-broker lists of
 * candidate transactions are spliced in place while a second map records every
 * transaction's position in every list, so that a chosen transaction can be cut
 * out of all lists at once.
 */
module Rounding {
  import opened BrokerMessages

  type Lists = map<Address, seq<Transaction>>
  type Positions = map<Transaction, map<Address, int>>

  function ListOf(lists: Lists, b: Address): seq<Transaction> {
    if b in lists then lists[b] else []
  }

  predicate Has(where: Positions, t: Transaction, b: Address) {
    t in where && b in where[t]
  }

  function Position(where: Positions, t: Transaction, b: Address): int {
    if Has(where, t, b) then where[t][b] else -1
  }

  /**
   * Broker `b`'s list is exactly the live transactions recorded for `b`, each
   * once and each at its recorded position.
   */
  ghost predicate ListExact(list: seq<Transaction>, where: Positions, live: set<Transaction>, b: Address) {
    (forall i :: 0 <= i < |list| ==> list[i] in live && Position(where, list[i], b) == i) &&
    (forall t :: t in live && Has(where, t, b) ==>
      0 <= Position(where, t, b) < |list| && list[Position(where, t, b)] == t)
  }

  ghost predicate Indexed(lists: Lists, where: Positions, live: set<Transaction>) {
    forall b :: ListExact(ListOf(lists, b), where, live, b)
  }

  ghost predicate SameShape(a: Positions, b: Positions) {
    forall t, c :: Has(a, t, c) <==> Has(b, t, c)
  }

  ghost predicate SameColumn(a: Positions, b: Positions, c: Address) {
    forall t :: Has(a, t, c) == Has(b, t, c) && Position(a, t, c) == Position(b, t, c)
  }

  lemma ColumnFrame(list: seq<Transaction>, a: Positions, b: Positions, live: set<Transaction>, c: Address)
    requires SameColumn(a, b, c) && ListExact(list, a, live, c)
    ensures ListExact(list, b, live, c)
  {
    forall t | t in live && Has(b, t, c)
      ensures 0 <= Position(b, t, c) < |list| && list[Position(b, t, c)] == t
    {
      assert Has(a, t, c);
    }
  }

  // ----- building the lists ---------------------------------------------------

  function Record(where: Positions, t: Transaction, b: Address, at: int): (r: Positions)
    ensures forall x, c :: Has(r, x, c) <==> Has(where, x, c) || (x == t && c == b)
  {
    where[t := (if t in where then where[t] else map[])[b := at]]
  }

  lemma AppendKeepsIndex(lists: Lists, where: Positions, live: set<Transaction>, t: Transaction, b: Address)
    requires Indexed(lists, where, live)
    requires t in live && !Has(where, t, b)
    ensures Indexed(lists[b := ListOf(lists, b) + [t]], Record(where, t, b, |ListOf(lists, b)|), live)
  {
    var lists', where' := lists[b := ListOf(lists, b) + [t]], Record(where, t, b, |ListOf(lists, b)|);
    forall c ensures ListExact(ListOf(lists', c), where', live, c) {
      assert ListExact(ListOf(lists, c), where, live, c);
      if c != b { ColumnFrame(ListOf(lists, c), where, where', live, c); }
    }
  }

  ghost predicate Candidate(megs: seq<RatioMessage>, t: Transaction, b: Address) {
    exists i :: 0 <= i < |megs| && megs[i].tx == t && b in megs[i].brokers
  }

  ghost function TxSet(megs: seq<RatioMessage>): set<Transaction> {
    set m | m in megs :: m.tx
  }

  ghost predicate DistinctRatios(megs: seq<RatioMessage>) {
    forall i, j :: 0 <= i < j < |megs| ==> megs[i].tx != megs[j].tx
  }

  method ListOne(m: RatioMessage, lists0: Lists, where0: Positions, ghost live: set<Transaction>)
    returns (lists: Lists, where: Positions)
    requires Indexed(lists0, where0, live)
    requires m.tx in live && m.tx !in where0
    ensures Indexed(lists, where, live)
    ensures lists0.Keys <= lists.Keys && where.Keys <= where0.Keys + {m.tx}
    ensures forall t, b :: Has(where, t, b) <==> Has(where0, t, b) || (t == m.tx && b in m.brokers)
  {
    lists, where := lists0, where0;
    var todo := m.brokers;
    while todo != {}
      invariant todo <= m.brokers
      invariant Indexed(lists, where, live)
      invariant lists0.Keys <= lists.Keys && where.Keys <= where0.Keys + {m.tx}
      invariant forall t, b :: Has(where, t, b) <==> Has(where0, t, b) || (t == m.tx && b in m.brokers - todo)
    {
      var b :| b in todo;
      todo := todo - {b};
      AppendKeepsIndex(lists, where, live, m.tx, b);
      lists := lists[b := ListOf(lists, b) + [m.tx]];
      where := Record(where, m.tx, b, |lists[b]| - 1);
    }
  }

  method BuildIndex(megs: seq<RatioMessage>, brokers: seq<Address>) returns (lists: Lists, where: Positions)
    requires DistinctRatios(megs)
    ensures Indexed(lists, where, TxSet(megs))
    ensures forall b :: b in brokers ==> b in lists
    ensures forall t, b :: Has(where, t, b) <==> Candidate(megs, t, b)
  {
    lists, where := map b | b in brokers :: [], map[];
    for i := 0 to |megs|
      invariant Indexed(lists, where, TxSet(megs))
      invariant forall b :: b in brokers ==> b in lists
      invariant forall t, b :: Has(where, t, b) <==> Candidate(megs[..i], t, b)
      invariant forall j :: i <= j < |megs| ==> megs[j].tx !in where
    {
      assert megs[i] in megs;
      lists, where := ListOne(megs[i], lists, where, TxSet(megs));
      forall t, b ensures Has(where, t, b) <==> Candidate(megs[..i + 1], t, b) {
        CandidateNext(megs, i, t, b);
      }
    }
    assert megs[..|megs|] == megs;
  }

  lemma CandidateNext(megs: seq<RatioMessage>, i: nat, t: Transaction, b: Address)
    requires i < |megs|
    ensures Candidate(megs[..i + 1], t, b) <==>
            Candidate(megs[..i], t, b) || (megs[i].tx == t && b in megs[i].brokers)
  {
    if Candidate(megs[..i], t, b) {
      var j :| 0 <= j < i && megs[..i][j].tx == t && b in megs[..i][j].brokers;
      assert megs[..i + 1][j] == megs[..i][j];
    }
    if Candidate(megs[..i + 1], t, b) {
      var j :| 0 <= j < i + 1 && megs[..i + 1][j].tx == t && b in megs[..i + 1][j].brokers;
      if j < i { assert megs[..i][j] == megs[..i + 1][j]; }
    }
    assert megs[..i + 1][i] == megs[i];
  }

  // ----- cutting a chosen transaction out of every list -----------------------

  function Without<T>(s: seq<T>, i: int): (r: seq<T>)
    requires 0 <= i < |s|
    ensures |r| == |s| - 1
    ensures forall j :: 0 <= j < |r| ==> r[j] == if j < i then s[j] else s[j + 1]
  {
    s[..i] + s[i + 1..]
  }

  /** `after` is `before` with `b`'s positions lowered by one for the transactions of `tail`. */
  ghost predicate Lowered(before: Positions, after: Positions, tail: seq<Transaction>, b: Address) {
    SameShape(before, after) &&
    (forall t, c :: Has(before, t, c) ==>
      Position(after, t, c) == Position(before, t, c) - (if c == b && t in tail then 1 else 0))
  }

  method LowerTail(where: Positions, tail: seq<Transaction>, b: Address) returns (lowered: Positions)
    requires Distinct(tail)
    requires forall i :: 0 <= i < |tail| ==> Has(where, tail[i], b)
    ensures Lowered(where, lowered, tail, b)
  {
    lowered := where;
    for i := 0 to |tail|
      invariant Lowered(where, lowered, tail[..i], b)
    {
      var t := tail[i];
      assert t !in tail[..i];
      assert Has(where, t, b);
      lowered := lowered[t := lowered[t][b := lowered[t][b] - 1]];
      assert tail[..i + 1] == tail[..i] + [t];
    }
    assert tail[..|tail|] == tail;
  }

  lemma TailDistinct(list: seq<Transaction>, where: Positions, live: set<Transaction>, b: Address, from: nat)
    requires ListExact(list, where, live, b) && from <= |list|
    ensures Distinct(list[from..])
    ensures forall i :: 0 <= i < |list| - from ==> Has(where, list[from..][i], b)
    ensures forall t :: t in live && Has(where, t, b) ==> (t in list[from..] <==> Position(where, t, b) >= from)
  {
    forall i | 0 <= i < |list| - from
      ensures Position(where, list[from..][i], b) == from + i
    {
      assert list[from..][i] == list[from + i];
    }
    forall t | t in live && Has(where, t, b) && Position(where, t, b) >= from
      ensures t in list[from..]
    {
      assert list[from..][Position(where, t, b) - from] == t;
    }
  }

  lemma CutColumn(list: seq<Transaction>, where: Positions, lowered: Positions, live: set<Transaction>,
                  t: Transaction, b: Address)
    requires ListExact(list, where, live, b)
    requires t in live && Has(where, t, b)
    requires Lowered(where, lowered, list[Position(where, t, b) + 1..], b)
    ensures ListExact(Without(list, Position(where, t, b)), lowered, live - {t}, b)
  {
    var at := Position(where, t, b);
    TailDistinct(list, where, live, b, at + 1);
    var cut := Without(list, at);
    forall i | 0 <= i < |cut|
      ensures cut[i] in live - {t} && Position(lowered, cut[i], b) == i
    {
      var j := if i < at then i else i + 1;
      assert cut[i] == list[j] && Position(where, list[j], b) == j;
    }
    forall x | x in live - {t} && Has(lowered, x, b)
      ensures 0 <= Position(lowered, x, b) < |cut| && cut[Position(lowered, x, b)] == x
    {
      assert Has(where, x, b) && list[Position(where, x, b)] == x;
      assert Position(where, x, b) != at;
    }
  }

  lemma DropUnlisted(list: seq<Transaction>, where: Positions, live: set<Transaction>, t: Transaction, b: Address)
    requires ListExact(list, where, live, b) && !Has(where, t, b)
    ensures ListExact(list, where, live - {t}, b)
  {
    forall i | 0 <= i < |list| ensures list[i] in live - {t} {
      assert Position(where, list[i], b) == i;
    }
  }

  /** The index while `t` is still to be cut out of the lists of the brokers `todo`. */
  ghost predicate Cutting(lists: Lists, where: Positions, live: set<Transaction>,
                          t: Transaction, todo: set<Address>)
  {
    forall b :: ListExact(ListOf(lists, b), where, if b in todo then live else live - {t}, b)
  }

  lemma CutStep(lists: Lists, where: Positions, lowered: Positions, live: set<Transaction>,
                t: Transaction, todo: set<Address>, b: Address)
    requires Cutting(lists, where, live, t, todo)
    requires t in live && Has(where, t, b) && b in todo
    requires 0 <= Position(where, t, b) < |ListOf(lists, b)|
    requires Lowered(where, lowered, ListOf(lists, b)[Position(where, t, b) + 1..], b)
    ensures Cutting(lists[b := Without(ListOf(lists, b), Position(where, t, b))], lowered, live, t, todo - {b})
  {
    var cut := lists[b := Without(ListOf(lists, b), Position(where, t, b))];
    forall c ensures ListExact(ListOf(cut, c), lowered, if c in todo - {b} then live else live - {t}, c) {
      assert ListExact(ListOf(lists, c), where, if c in todo then live else live - {t}, c);
      if c == b {
        CutColumn(ListOf(lists, b), where, lowered, live, t, b);
      } else {
        LoweredColumn(where, lowered, ListOf(lists, b)[Position(where, t, b) + 1..], b, c);
        ColumnFrame(ListOf(lists, c), where, lowered, if c in todo then live else live - {t}, c);
      }
    }
  }

  lemma LoweredColumn(where: Positions, lowered: Positions, tail: seq<Transaction>, b: Address, c: Address)
    requires Lowered(where, lowered, tail, b) && c != b
    ensures SameColumn(where, lowered, c)
  {
  }

  lemma BeginCut(lists: Lists, where: Positions, live: set<Transaction>, t: Transaction)
    requires Indexed(lists, where, live) && t in where
    ensures Cutting(lists, where, live, t, where[t].Keys)
  {
    forall b ensures ListExact(ListOf(lists, b), where, if b in where[t].Keys then live else live - {t}, b) {
      assert ListExact(ListOf(lists, b), where, live, b);
      if b !in where[t].Keys { DropUnlisted(ListOf(lists, b), where, live, t, b); }
    }
  }

  lemma EndCut(lists: Lists, where: Positions, live: set<Transaction>, t: Transaction)
    requires Cutting(lists, where, live, t, {})
    ensures Indexed(lists, where, live - {t})
  {
    forall b ensures ListExact(ListOf(lists, b), where, live - {t}, b) {
      assert ListExact(ListOf(lists, b), where, if b in {} then live else live - {t}, b);
    }
  }

  method CutOut(lists0: Lists, where0: Positions, ghost live: set<Transaction>, t: Transaction)
    returns (lists: Lists, where: Positions)
    requires Indexed(lists0, where0, live) && t in live && t in where0
    ensures Indexed(lists, where, live - {t})
    ensures lists0.Keys <= lists.Keys && SameShape(where, where0)
  {
    lists, where := lists0, where0;
    var todo := where[t].Keys;
    BeginCut(lists, where, live, t);
    while todo != {}
      invariant todo <= where0[t].Keys
      invariant lists0.Keys <= lists.Keys && SameShape(where, where0)
      invariant Cutting(lists, where, live, t, todo)
    {
      var b :| b in todo;
      assert Has(where0, t, b);
      var list, at := ListOf(lists, b), Position(where, t, b);
      assert ListExact(list, where, live, b);
      TailDistinct(list, where, live, b, at + 1);
      var lowered := LowerTail(where, list[at + 1..], b);
      CutStep(lists, where, lowered, live, t, todo, b);
      lists, where := lists[b := Without(list, at)], lowered;
      todo := todo - {b};
    }
    EndCut(lists, where, live, t);
  }

  // ----- the choices and what they place --------------------------------------

  /** Going through the choices in order, a message is placed when its broker can still front it. */
  function Placed(choices: seq<RawMessage>, balance: map<Address, int>): (placed: seq<RawMessage>)
  {
    if choices == [] then []
    else
      var placed, m := Placed(choices[..|choices| - 1], balance), choices[|choices| - 1];
      if m.broker in balance && Total(placed, m.broker) + m.tx.value <= balance[m.broker]
      then placed + [m]
      else placed
  }

  lemma PlacedSnoc(choices: seq<RawMessage>, m: RawMessage, balance: map<Address, int>)
    ensures Placed(choices + [m], balance) ==
            if m.broker in balance && Total(Placed(choices, balance), m.broker) + m.tx.value <= balance[m.broker]
            then Placed(choices, balance) + [m]
            else Placed(choices, balance)
  {
    assert (choices + [m])[..|choices|] == choices;
  }

  /** The broker that gets to consider a transaction: its first candidate in visiting order. */
  ghost predicate Earliest(order: seq<Address>, megs: seq<RatioMessage>, m: RawMessage) {
    Candidate(megs, m.tx, m.broker) &&
    exists k :: 0 <= k < |order| && order[k] == m.broker && NoneOf(order[..k], megs, m.tx)
  }

  ghost predicate NoneOf(brokers: seq<Address>, megs: seq<RatioMessage>, t: Transaction) {
    forall b :: b in brokers ==> !Candidate(megs, t, b)
  }

  /** Every transaction some broker is a candidate for is considered once, by its earliest candidate. */
  ghost predicate ConsidersAll(choices: seq<RawMessage>, order: seq<Address>, megs: seq<RatioMessage>) {
    DistinctTxs(choices) &&
    (forall i :: 0 <= i < |choices| ==> Earliest(order, megs, choices[i])) &&
    (forall t, b :: b in order && Candidate(megs, t, b) ==> exists i :: 0 <= i < |choices| && choices[i].tx == t)
  }

  /** Where the main loop stands: the first `k` brokers are through. */
  ghost predicate Progress(choices: seq<RawMessage>, live: set<Transaction>, order: seq<Address>, k: nat,
                           megs: seq<RatioMessage>)
    requires k <= |order|
  {
    DistinctTxs(choices) &&
    (forall i :: 0 <= i < |choices| ==> choices[i].tx !in live && Earliest(order, megs, choices[i])) &&
    (forall t :: t in TxSet(megs) && t !in live ==> exists i :: 0 <= i < |choices| && choices[i].tx == t) &&
    (forall t :: t in live ==> NoneOf(order[..k], megs, t))
  }

  lemma ChoiceProgress(choices: seq<RawMessage>, live: set<Transaction>, order: seq<Address>, k: nat,
                       megs: seq<RatioMessage>, t: Transaction)
    requires k < |order| && Progress(choices, live, order, k, megs)
    requires t in live && Candidate(megs, t, order[k])
    ensures Progress(choices + [RawMessage(t, order[k])], live - {t}, order, k, megs)
  {
    var m := RawMessage(t, order[k]);
    var more := choices + [m];
    assert Earliest(order, megs, m);
    forall x | x in TxSet(megs) && x !in live - {t}
      ensures exists i :: 0 <= i < |more| && more[i].tx == x
    {
      if x == t {
        assert more[|choices|].tx == x;
      } else {
        var i :| 0 <= i < |choices| && choices[i].tx == x;
        assert more[i].tx == x;
      }
    }
  }

  lemma BrokerDone(choices: seq<RawMessage>, live: set<Transaction>, order: seq<Address>, k: nat,
                   megs: seq<RatioMessage>, where: Positions)
    requires k < |order| && Progress(choices, live, order, k, megs)
    requires ListExact([], where, live, order[k])
    requires forall t, b :: Has(where, t, b) <==> Candidate(megs, t, b)
    ensures Progress(choices, live, order, k + 1, megs)
  {
    forall t | t in live ensures NoneOf(order[..k + 1], megs, t) {
      assert NoneOf(order[..k], megs, t);
      assert !Has(where, t, order[k]);
      assert order[..k + 1] == order[..k] + [order[k]];
    }
  }

  lemma AllConsidered(choices: seq<RawMessage>, live: set<Transaction>, order: seq<Address>, megs: seq<RatioMessage>)
    requires Progress(choices, live, order, |order|, megs)
    ensures ConsidersAll(choices, order, megs)
  {
    assert order[..|order|] == order;
    forall t, b | b in order && Candidate(megs, t, b)
      ensures exists i :: 0 <= i < |choices| && choices[i].tx == t
    {
      var i :| 0 <= i < |megs| && megs[i].tx == t && b in megs[i].brokers;
      assert megs[i] in megs;
      assert t !in live;
    }
  }

  /** The lists are exact for the live transactions and record all candidates. */
  ghost predicate Ready(lists: Lists, where: Positions, live: set<Transaction>,
                        megs: seq<RatioMessage>, brokers: seq<Address>)
  {
    Indexed(lists, where, live) &&
    (forall b :: b in brokers ==> b in lists) &&
    (forall t, b :: Has(where, t, b) <==> Candidate(megs, t, b))
  }

  /** The running totals are those of the messages placed so far. */
  ghost predicate Booked(spent: map<Address, int>, result: seq<RawMessage>, choices: seq<RawMessage>,
                         balance: map<Address, int>)
  {
    spent.Keys == balance.Keys &&
    (forall b :: b in spent ==> spent[b] == Total(result, b)) &&
    result == Placed(choices, balance)
  }

  method PlaceChoice(m: RawMessage, spent0: map<Address, int>, result0: seq<RawMessage>,
                     balance: map<Address, int>, ghost choices: seq<RawMessage>)
    returns (spent: map<Address, int>, result: seq<RawMessage>)
    requires m.broker in balance && Booked(spent0, result0, choices, balance)
    ensures Booked(spent, result, choices + [m], balance)
  {
    spent, result := spent0, result0;
    PlacedSnoc(choices, m, balance);
    if spent[m.broker] + m.tx.value <= balance[m.broker] {
      forall b ensures Total(result + [m], b) == Total(result, b) + Share(m, b) {
        TotalSnoc(result, m, b);
      }
      spent := spent[m.broker := spent[m.broker] + m.tx.value];
      result := result + [m];
    }
  }

  /** Any in-range picks until one broker's list is empty. */
  method DrainBroker(b: Address, lists0: Lists, where0: Positions, spent0: map<Address, int>,
                     result0: seq<RawMessage>, balance: map<Address, int>,
                     ghost choices0: seq<RawMessage>, ghost live0: set<Transaction>,
                     ghost megs: seq<RatioMessage>, ghost order: seq<Address>, ghost k: nat)
    returns (lists: Lists, where: Positions, spent: map<Address, int>, result: seq<RawMessage>,
             ghost choices: seq<RawMessage>, ghost live: set<Transaction>)
    requires k < |order| && order[k] == b && b in balance
    requires Ready(lists0, where0, live0, megs, order)
    requires Progress(choices0, live0, order, k, megs)
    requires Booked(spent0, result0, choices0, balance)
    ensures Ready(lists, where, live, megs, order)
    ensures Progress(choices, live, order, k + 1, megs)
    ensures Booked(spent, result, choices, balance)
  {
    lists, where, spent, result := lists0, where0, spent0, result0;
    choices, live := choices0, live0;
    while |lists[b]| != 0
      invariant Ready(lists, where, live, megs, order)
      invariant Progress(choices, live, order, k, megs)
      invariant Booked(spent, result, choices, balance)
      decreases |live|
    {
      var pick :| 0 <= pick < |lists[b]|;
      var t := lists[b][pick];
      Listed(lists, where, live, b, pick);
      spent, result := PlaceChoice(RawMessage(t, b), spent, result, balance, choices);
      ChoiceProgress(choices, live, order, k, megs, t);
      choices := choices + [RawMessage(t, b)];
      lists, where := CutOut(lists, where, live, t);
      live := live - {t};
    }
    assert ListExact(ListOf(lists, b), where, live, b);
    BrokerDone(choices, live, order, k, megs, where);
  }

  /**
   * Whatever the picks: the index maps stay exact, every candidate transaction is
   * considered exactly once, and what is returned is what the choices place.
   */
  method Round(megs: seq<RatioMessage>, balance: map<Address, int>)
    returns (result: seq<RawMessage>, ghost choices: seq<RawMessage>, ghost order: seq<Address>)
    requires DistinctRatios(megs)
    ensures Distinct(order) && forall b :: b in order <==> b in balance
    ensures ConsidersAll(choices, order, megs)
    ensures result == Placed(choices, balance)
    ensures DistinctTxs(result) && forall m :: m in result ==> m.broker in balance && Candidate(megs, m.tx, m.broker)
    ensures forall b :: b in balance && 0 <= balance[b] ==> Total(result, b) <= balance[b]
  {
    var brokers := SomeOrder(balance.Keys);
    order := brokers;
    var lists, where := BuildIndex(megs, brokers);
    var spent: map<Address, int> := map b | b in balance :: 0;
    result, choices := [], [];
    ghost var live := TxSet(megs);
    for k := 0 to |brokers|
      invariant Ready(lists, where, live, megs, order)
      invariant Progress(choices, live, order, k, megs)
      invariant Booked(spent, result, choices, balance)
    {
      lists, where, spent, result, choices, live :=
        DrainBroker(brokers[k], lists, where, spent, result, balance, choices, live, megs, order, k);
    }
    AllConsidered(choices, live, order, megs);
    PlacedOnce(choices, balance);
    forall m | m in result ensures Candidate(megs, m.tx, m.broker) { assert m in choices; }
    forall b | b in balance && 0 <= balance[b] ensures Total(result, b) <= balance[b] {
      PlacedWithin(choices, balance, b);
    }
  }

  lemma Listed(lists: Lists, where: Positions, live: set<Transaction>, b: Address, i: nat)
    requires Indexed(lists, where, live) && b in lists && i < |lists[b]|
    ensures lists[b][i] in live && Has(where, lists[b][i], b)
  {
    assert ListExact(ListOf(lists, b), where, live, b);
  }

  // ----- what every outcome satisfies -----------------------------------------

  /** No broker is assigned more than its balance. */
  lemma {:induction false} PlacedWithin(choices: seq<RawMessage>, balance: map<Address, int>, b: Address)
    ensures b in balance && 0 <= balance[b] ==> Total(Placed(choices, balance), b) <= balance[b]
    ensures b !in balance ==> Total(Placed(choices, balance), b) == 0
  {
    if choices != [] {
      var front, m := choices[..|choices| - 1], choices[|choices| - 1];
      PlacedWithin(front, balance, b);
      TotalSnoc(Placed(front, balance), m, b);
    }
  }

  /** Placed messages are choices, each placed at most once. */
  lemma {:induction false} PlacedOnce(choices: seq<RawMessage>, balance: map<Address, int>)
    requires DistinctTxs(choices)
    ensures DistinctTxs(Placed(choices, balance))
    ensures forall m :: m in Placed(choices, balance) ==> m in choices && m.broker in balance
  {
    if choices != [] {
      var front, m := choices[..|choices| - 1], choices[|choices| - 1];
      PlacedOnce(front, balance);
      forall x | x in Placed(front, balance) ensures x.tx != m.tx && x in choices {
        assert x in front;
      }
    }
  }

  /** A choice left out really did not fit: even at the end its broker could not front it. */
  lemma {:induction false} LeftOutDoesNotFit(choices: seq<RawMessage>, balance: map<Address, int>, m: RawMessage)
    requires m in choices && m.broker in balance && m !in Placed(choices, balance)
    requires forall x :: x in choices ==> 0 <= x.tx.value
    ensures Total(Placed(choices, balance), m.broker) + m.tx.value > balance[m.broker]
  {
    var front, last := choices[..|choices| - 1], choices[|choices| - 1];
    assert choices == front + [last];
    TotalSnoc(Placed(front, balance), last, m.broker);
    if m in front {
      if m in Placed(front, balance) {
        assert false;
      }
      LeftOutDoesNotFit(front, balance, m);
    }
  }

  /** A choice is placed if and only if its broker could front it when it was considered. */
  lemma {:induction false} PlacedAt(choices: seq<RawMessage>, i: nat, balance: map<Address, int>)
    requires DistinctTxs(choices) && i < |choices|
    ensures var m := choices[i];
            m.tx in TxsOf(Placed(choices, balance)) <==>
            m.broker in balance && Total(Placed(choices[..i], balance), m.broker) + m.tx.value <= balance[m.broker]
  {
    var front, last, m := choices[..|choices| - 1], choices[|choices| - 1], choices[i];
    var before, after := Placed(front, balance), Placed(choices, balance);
    PlacedOnce(front, balance);
    if i == |front| {
      assert choices[..i] == front;
      assert m.tx !in TxsOf(before) by {
        forall x | x in before ensures x.tx != m.tx { assert x in front; }
      }
      if after != before { assert after[|before|] == m; }
    } else {
      assert choices[..i] == front[..i] && m == front[i] && m.tx != last.tx;
      PlacedAt(front, i, balance);
      forall x | x in after ensures x in before || x == last { }
      forall x | x in before ensures x in after { }
    }
  }
}

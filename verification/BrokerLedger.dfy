/**
 * The broker committee's ledger (supervisor/committee/committee_broker_b2e.go):
 * allocating messages, moving money between a broker's shards, locking it, and
 * releasing it when the broker-1 transaction is reported in a block.
 */
module BrokerLedger {
  import opened FiniteSums
  import opened BrokerMessages
  import opened Allocator
  import opened Rebalance
  import opened BrokerBooks

  /** A transfer of a broker to itself that debits (`gives`) or credits one shard. */
  datatype Move = Move(broker: Address, value: int, gives: bool)

  type Moves = map<nat, seq<Move>>

  function Signed(m: Move, b: Address): int {
    if m.broker != b then 0 else if m.gives then -m.value else m.value
  }

  /** What a list of moves does to broker `b`'s balance. */
  function Net(list: seq<Move>, b: Address): (sum: int)
  {
    if list == [] then 0 else Net(list[..|list| - 1], b) + Signed(list[|list| - 1], b)
  }

  lemma NetSnoc(list: seq<Move>, m: Move, b: Address)
    ensures Net(list + [m], b) == Net(list, b) + Signed(m, b)
  {
    assert (list + [m])[..|list|] == list;
  }

  ghost predicate OneEach(list: seq<Move>) {
    forall i, j :: 0 <= i < j < |list| ==> list[i].broker != list[j].broker
  }

  /** With one move per broker, a balance is at any point untouched or final. */
  lemma {:induction false} NetPrefix(list: seq<Move>, p: nat, b: Address)
    requires OneEach(list) && p <= |list|
    ensures Net(list[..p], b) == 0 || Net(list[..p], b) == Net(list, b)
    ensures (forall i :: 0 <= i < |list| ==> list[i].broker != b) ==> Net(list, b) == 0
  {
    if list != [] {
      var front, m := list[..|list| - 1], list[|list| - 1];
      if p < |list| {
        assert list[..p] == front[..p];
        NetPrefix(front, p, b);
        if m.broker == b {
          NetPrefix(front[..p], p, b);
          assert front[..p][..p] == front[..p];
        }
      } else {
        NetPrefix(front, |front|, b);
        assert list[..p] == list;
      }
    }
  }

  // ----- what is short where ---------------------------------------------------

  /** A message the book has a slot for. */
  ghost predicate Billable(m: RawMessage, ty: string, book: Book, shardNum: nat) {
    m.broker in book && ShardOf(m.tx.recipient, shardNum) in book[m.broker] && m.tx.txType == ty && 0 <= m.tx.value
  }

  ghost predicate AllBillable(ms: seq<RawMessage>, ty: string, book: Book, shardNum: nat) {
    forall i :: 0 <= i < |ms| ==> Billable(ms[i], ty, book, shardNum)
  }

  /** What `b` has to lock on shard `s` for the messages `ms`. */
  ghost function Claim(ms: seq<RawMessage>, ty: string, b: Address, s: nat, shardNum: nat): (sum: int)
  {
    if ms == [] then 0
    else Claim(ms[..|ms| - 1], ty, b, s, shardNum) + Portion(Tx1Of(ms[|ms| - 1]), ty, b, s, shardNum)
  }

  lemma {:induction false} ClaimIsDue(ms: seq<RawMessage>, ty: string, b: Address, s: nat, shardNum: nat)
    ensures Claim(ms, ty, b, s, shardNum) == Due(Tx1s(ms), ty, b, s, shardNum)
  {
    if ms != [] {
      ClaimIsDue(ms[..|ms| - 1], ty, b, s, shardNum);
      DueAdd(Tx1s(ms[..|ms| - 1]), Tx1Of(ms[|ms| - 1]), ty, b, s, shardNum);
    }
  }

  lemma ClaimNext(ms: seq<RawMessage>, i: nat, ty: string, b: Address, s: nat, shardNum: nat)
    requires i < |ms|
    ensures Claim(ms[..i + 1], ty, b, s, shardNum) ==
            Claim(ms[..i], ty, b, s, shardNum) + Portion(Tx1Of(ms[i]), ty, b, s, shardNum)
  {
    assert ms[..i + 1][..i] == ms[..i];
  }

  /** `after` is `before` less what is claimed for `ms` on every slot. */
  ghost predicate Drawn(before: Book, after: Book, ms: seq<RawMessage>, ty: string, shardNum: nat) {
    after.Keys == before.Keys && (forall b :: b in before ==> after[b].Keys == before[b].Keys) &&
    (forall b, s :: At(after, b, s) == At(before, b, s) - Claim(ms, ty, b, s, shardNum))
  }

  /** One more message, drawn from `after`. */
  lemma DrawNext(before: Book, after: Book, ms: seq<RawMessage>, i: nat, ty: string, shardNum: nat)
    requires i < |ms| && Drawn(before, after, ms[..i], ty, shardNum) && ms[i].tx.txType == ty
    requires ms[i].broker in before && ShardOf(ms[i].tx.recipient, shardNum) in before[ms[i].broker]
    ensures Drawn(before, Entry(after, ms[i].broker, ShardOf(ms[i].tx.recipient, shardNum), -ms[i].tx.value),
                  ms[..i + 1], ty, shardNum)
  {
    var x, r, v := ms[i].broker, ShardOf(ms[i].tx.recipient, shardNum), ms[i].tx.value;
    forall b, s
      ensures At(Entry(after, x, r, -v), b, s) == At(before, b, s) - Claim(ms[..i + 1], ty, b, s, shardNum)
    {
      ClaimNext(ms, i, ty, b, s, shardNum);
      EntryAt(after, x, r, -v, b, s);
    }
  }

  method PeekChange(ms: seq<RawMessage>, balance: Book, shardNum: nat, ghost ty: string)
    returns (peek: Book)
    requires AllBillable(ms, ty, balance, shardNum)
    ensures Drawn(balance, peek, ms, ty, shardNum)
  {
    peek := balance;
    for i := 0 to |ms|
      invariant Drawn(balance, peek, ms[..i], ty, shardNum)
    {
      assert Billable(ms[i], ty, balance, shardNum);
      DrawNext(balance, peek, ms, i, ty, shardNum);
      peek := Entry(peek, ms[i].broker, ShardOf(ms[i].tx.recipient, shardNum), -ms[i].tx.value);
    }
    assert ms[..|ms|] == ms;
  }

  // ----- moving money between shards -------------------------------------------

  /** Every broker's row after covering; deficits all vanish exactly when its total suffices. */
  ghost predicate Covered(peek: Book, final: Book, change: Book, b: Address) {
    b in peek && b in final && b in change && Moved(peek[b], final[b], change[b]) &&
    ((forall s :: s in final[b] ==> 0 <= final[b][s]) <==> 0 <= Holding(peek, b))
  }

  method CoverBrokers(peek: Book) returns (ghost final: Book, change: Book)
    ensures final.Keys == peek.Keys && change.Keys == peek.Keys
    ensures forall b :: b in peek ==> Covered(peek, final, change, b)
  {
    final, change := map[], map[];
    var todo := peek.Keys;
    while todo != {}
      invariant todo <= peek.Keys && final.Keys == peek.Keys - todo && change.Keys == peek.Keys - todo
      invariant forall b :: b in change ==> Covered(peek, final, change, b)
    {
      var b :| b in todo;
      var covered, row := CoverAll(peek[b]);
      assert forall s :: s in covered ==> covered[s] == peek[b][s] + row[s];
      final, change := final[b := covered], change[b := row];
      todo := todo - {b};
    }
  }

  /** The move that makes `diff`, if any. */
  function WithMove(list: seq<Move>, b: Address, diff: int): seq<Move> {
    if diff < 0 then list + [Move(b, -diff, true)]
    else if diff > 0 then list + [Move(b, diff, false)]
    else list
  }

  /** The list of shard `s` says exactly what `change` says about the brokers `done`. */
  ghost predicate ListSays(list: seq<Move>, change: Book, done: set<Address>, s: nat) {
    OneEach(list) &&
    (forall m :: m in list ==> m.broker in done && 0 < m.value) &&
    (forall b :: b in done ==> Net(list, b) == At(change, b, s))
  }

  ghost predicate Says(moves: Moves, change: Book, done: set<Address>, shards: set<nat>) {
    moves.Keys == shards && forall s :: s in shards ==> ListSays(moves[s], change, done, s)
  }

  lemma {:induction false} NoMoves(list: seq<Move>, b: Address)
    requires forall m :: m in list ==> m.broker != b
    ensures Net(list, b) == 0
  {
    if list != [] { NoMoves(list[..|list| - 1], b); }
  }

  lemma ListSaysMove(list: seq<Move>, m: Move, change: Book, done: set<Address>, s: nat)
    requires ListSays(list, change, done, s) && m.broker !in done
    requires 0 < m.value && Signed(m, m.broker) == At(change, m.broker, s)
    ensures ListSays(list + [m], change, done + {m.broker}, s)
  {
    var more := list + [m];
    forall x | x in done + {m.broker} ensures Net(more, x) == At(change, x, s) {
      NetSnoc(list, m, x);
      if x == m.broker { NoMoves(list, x); }
    }
    forall i, j | 0 <= i < j < |more| ensures more[i].broker != more[j].broker {
      assert list[i] in list;
    }
  }

  lemma ListSaysNothing(list: seq<Move>, b: Address, change: Book, done: set<Address>, s: nat)
    requires ListSays(list, change, done, s) && b !in done && At(change, b, s) == 0
    ensures ListSays(list, change, done + {b}, s)
  {
    NoMoves(list, b);
  }

  lemma ListSaysNext(list: seq<Move>, change: Book, done: set<Address>, s: nat, b: Address)
    requires ListSays(list, change, done, s) && b !in done
    ensures ListSays(WithMove(list, b, At(change, b, s)), change, done + {b}, s)
  {
    var diff := At(change, b, s);
    if diff == 0 {
      ListSaysNothing(list, b, change, done, s);
    } else if diff < 0 {
      ListSaysMove(list, Move(b, -diff, true), change, done, s);
    } else {
      ListSaysMove(list, Move(b, diff, false), change, done, s);
    }
  }

  lemma SaysNext(moves0: Moves, moves: Moves, change: Book, done: set<Address>, shards: set<nat>, b: Address)
    requires Says(moves0, change, done, shards) && b !in done && moves.Keys == shards
    requires forall s :: s in shards ==> moves[s] == WithMove(moves0[s], b, At(change, b, s))
    ensures Says(moves, change, done + {b}, shards)
  {
    forall s | s in shards ensures ListSays(moves[s], change, done + {b}, s) {
      ListSaysNext(moves0[s], change, done, s, b);
    }
  }

  /** One broker's moves, shard by shard in any order. */
  method ListBroker(b: Address, row: ShardBalances, moves0: Moves) returns (moves: Moves)
    requires row.Keys == moves0.Keys
    ensures moves.Keys == moves0.Keys
    ensures forall s :: s in moves ==> moves[s] == WithMove(moves0[s], b, row[s])
  {
    moves := moves0;
    var todo := row.Keys;
    while todo != {}
      invariant todo <= row.Keys && moves.Keys == moves0.Keys
      invariant forall s :: s in moves ==>
        moves[s] == if s in todo then moves0[s] else WithMove(moves0[s], b, row[s])
    {
      var s :| s in todo;
      todo := todo - {s};
      var list := moves[s];
      if row[s] < 0 {
        list := list + [Move(b, -row[s], true)];
      } else if row[s] > 0 {
        list := list + [Move(b, row[s], false)];
      }
      assert list == WithMove(moves0[s], b, row[s]);
      moves := moves[s := list];
    }
  }

  method ListMoves(change: Book, shards: set<nat>) returns (moves: Moves)
    requires Shaped(change, change.Keys, shards)
    ensures Says(moves, change, change.Keys, shards)
  {
    moves := map s | s in shards :: [];
    var todo := change.Keys;
    while todo != {}
      invariant todo <= change.Keys
      invariant Says(moves, change, change.Keys - todo, shards)
    {
      var b :| b in todo;
      var more := ListBroker(b, change[b], moves);
      SaysNext(moves, more, change, change.Keys - todo, shards, b);
      assert change.Keys - todo + {b} == change.Keys - (todo - {b});
      moves := more;
      todo := todo - {b};
    }
    assert change.Keys - todo == change.Keys;
  }

  lemma CoveredShape(peek: Book, final: Book, change: Book, shards: set<nat>)
    requires Shaped(peek, peek.Keys, shards) && change.Keys == peek.Keys
    requires forall b :: b in peek ==> Covered(peek, final, change, b)
    ensures Shaped(change, peek.Keys, shards)
  {
    forall b | b in change ensures change[b].Keys == shards {
      assert Covered(peek, final, change, b);
    }
  }

  /**
   * One move per broker and shard; if a broker's total suffices for its messages,
   * the moves leave on every shard what is about to be locked there.
   */
  ghost predicate MovesServe(moves: Moves, ms: seq<RawMessage>, balance: Book, ty: string, shards: set<nat>,
                             shardNum: nat)
  {
    moves.Keys == shards && (forall s :: s in moves ==> OneEach(moves[s])) &&
    (forall b, s :: b in balance && s in moves && Total(ms, b) <= Holding(balance, b) ==>
      Claim(ms, ty, b, s, shardNum) <= At(balance, b, s) + Net(moves[s], b))
  }

  /**
   * GenerateAllocatedTx: the moves that cover every broker's deficits.  `peek` is
   * what would be left without moving, `final` what is left after it.
   */
  method GenerateMoves(ms: seq<RawMessage>, balance: Book, shards: set<nat>, shardNum: nat, ghost ty: string)
    returns (moves: Moves, ghost peek: Book, ghost final: Book, ghost change: Book)
    requires Shaped(balance, balance.Keys, shards) && AllBillable(ms, ty, balance, shardNum)
    ensures Drawn(balance, peek, ms, ty, shardNum)
    ensures Shaped(change, balance.Keys, shards)
    ensures forall b :: b in balance ==> Covered(peek, final, change, b)
    ensures Says(moves, change, balance.Keys, shards)
    ensures MovesServe(moves, ms, balance, ty, shards, shardNum)
  {
    var left := PeekChange(ms, balance, shardNum, ty);
    var covered, changes := CoverBrokers(left);
    CoveredShape(left, covered, changes, shards);
    moves := ListMoves(changes, shards);
    peek, final, change := left, covered, changes;
    AllMovesCover(ms, balance, shards, shardNum, ty, moves, left, covered, changes);
  }

  lemma AllMovesCover(ms: seq<RawMessage>, balance: Book, shards: set<nat>, shardNum: nat, ty: string, moves: Moves,
                      peek: Book, final: Book, change: Book)
    requires Shaped(balance, balance.Keys, shards) && AllBillable(ms, ty, balance, shardNum)
    requires Drawn(balance, peek, ms, ty, shardNum) && Says(moves, change, balance.Keys, shards)
    requires forall b :: b in balance ==> Covered(peek, final, change, b)
    ensures MovesServe(moves, ms, balance, ty, shards, shardNum)
  {
    forall b, s | b in balance && s in shards && Total(ms, b) <= Holding(balance, b)
      ensures Claim(ms, ty, b, s, shardNum) <= At(balance, b, s) + Net(moves[s], b)
    {
      MovesCover(ms, balance, shards, shardNum, ty, moves, peek, final, change, b, s);
    }
    forall s | s in shards ensures OneEach(moves[s]) { assert ListSays(moves[s], change, balance.Keys, s); }
  }

  /** With a sufficient total, the moves leave on every slot what is about to be locked there. */
  lemma MovesCover(ms: seq<RawMessage>, balance: Book, shards: set<nat>, shardNum: nat, ty: string, moves: Moves,
                   peek: Book, final: Book, change: Book, b: Address, s: nat)
    requires Shaped(balance, balance.Keys, shards) && AllBillable(ms, ty, balance, shardNum)
    requires Drawn(balance, peek, ms, ty, shardNum) && Says(moves, change, balance.Keys, shards)
    requires b in balance && s in shards && Covered(peek, final, change, b) && Total(ms, b) <= Holding(balance, b)
    ensures Claim(ms, ty, b, s, shardNum) <= At(balance, b, s) + Net(moves[s], b)
  {
    forall i | 0 <= i < |ms| ensures ms[i].tx.txType == ty && ShardOf(ms[i].tx.recipient, shardNum) in shards {
      assert Billable(ms[i], ty, balance, shardNum);
    }
    DrawnHolding(balance, peek, ms, ty, b, shards, shardNum);
    SlotCovered(balance, peek, final, change, ms, ty, shardNum, b, s);
    assert ListSays(moves[s], change, balance.Keys, s);
  }

  /** `after` is `before` with the moves of one shard's list. */
  ghost predicate Applied(before: Book, after: Book, list: seq<Move>, s: nat) {
    after.Keys == before.Keys && (forall b :: b in before ==> after[b].Keys == before[b].Keys) &&
    (forall b, y :: At(after, b, y) == At(before, b, y) + if y == s then Net(list, b) else 0)
  }

  ghost predicate StepsCovered(book: Book, list: seq<Move>, s: nat) {
    forall b, p :: 0 <= p <= |list| ==> 0 <= At(book, b, s) + Net(list[..p], b)
  }

  lemma ApplyNone(before: Book, list: seq<Move>, s: nat)
    ensures Applied(before, before, list[..0], s)
  {
    forall b ensures Net(list[..0], b) == 0 { assert list[..0] == []; }
  }

  lemma ApplyNext(before: Book, now: Book, list: seq<Move>, i: nat, s: nat)
    requires i < |list| && Applied(before, now, list[..i], s)
    requires list[i].broker in before && s in before[list[i].broker]
    ensures Applied(before, Entry(now, list[i].broker, s, Signed(list[i], list[i].broker)), list[..i + 1], s)
  {
    var m := list[i];
    var next := Entry(now, m.broker, s, Signed(m, m.broker));
    forall b, y ensures At(next, b, y) == At(before, b, y) + if y == s then Net(list[..i + 1], b) else 0 {
      EntryAt(now, m.broker, s, Signed(m, m.broker), b, y);
      assert list[..i + 1] == list[..i] + [m];
      NetSnoc(list[..i], m, b);
    }
  }

  lemma AppliedNonNegative(before: Book, now: Book, list: seq<Move>, i: nat, s: nat)
    requires i <= |list| && Applied(before, now, list[..i], s)
    ensures NonNegative(before) && StepsCovered(before, list, s) ==> NonNegative(now)
  {
    if NonNegative(before) && StepsCovered(before, list, s) {
      forall b, y ensures 0 <= At(now, b, y) {
        assert 0 <= At(before, b, s) + Net(list[..i], b);
        assert 0 <= At(before, b, y);
      }
    }
  }

  /** One shard's moves; with every step covered, no balance is negative in between. */
  method ApplyList(list: seq<Move>, s: nat, before: Book) returns (after: Book)
    requires forall i :: 0 <= i < |list| ==> list[i].broker in before && s in before[list[i].broker]
    ensures Applied(before, after, list, s)
    ensures NonNegative(before) && StepsCovered(before, list, s) ==> NonNegative(after)
  {
    after := before;
    ApplyNone(before, list, s);
    for i := 0 to |list|
      invariant Applied(before, after, list[..i], s)
      invariant NonNegative(before) && StepsCovered(before, list, s) ==> NonNegative(after)
    {
      ApplyNext(before, after, list, i, s);
      var m := list[i];
      after := Entry(after, m.broker, s, if m.gives then -m.value else m.value);
      AppliedNonNegative(before, after, list, i + 1, s);
    }
    assert list[..|list|] == list;
  }

  // ----- all shards ------------------------------------------------------------

  /** `after` is `before` with the moves of the shards `done`. */
  ghost predicate AllApplied(before: Book, after: Book, moves: Moves, done: set<nat>) {
    after.Keys == before.Keys && (forall b :: b in before ==> after[b].Keys == before[b].Keys) &&
    (forall b, y :: At(after, b, y) == At(before, b, y) + if y in moves && y in done then Net(moves[y], b) else 0)
  }

  ghost predicate AllStepsCovered(book: Book, moves: Moves) {
    forall s :: s in moves ==> StepsCovered(book, moves[s], s)
  }

  lemma ApplyShard(before: Book, now: Book, after: Book, moves: Moves, done: set<nat>, s: nat)
    requires AllApplied(before, now, moves, done) && s in moves && s !in done
    requires Applied(now, after, moves[s], s)
    ensures AllApplied(before, after, moves, done + {s})
  {
    forall b, y
      ensures At(after, b, y) == At(before, b, y) + if y in moves && y in done + {s} then Net(moves[y], b) else 0
    {
      assert At(now, b, y) == At(before, b, y) + if y in moves && y in done then Net(moves[y], b) else 0;
    }
  }

  lemma StillCovered(before: Book, now: Book, moves: Moves, done: set<nat>, s: nat)
    requires AllApplied(before, now, moves, done) && s in moves && s !in done
    requires StepsCovered(before, moves[s], s)
    ensures StepsCovered(now, moves[s], s)
  {
    forall b ensures At(now, b, s) == At(before, b, s) { }
  }

  method HandleMoves(moves: Moves, before: Book) returns (after: Book)
    requires forall s, i :: s in moves && 0 <= i < |moves[s]| ==>
      moves[s][i].broker in before && s in before[moves[s][i].broker]
    ensures AllApplied(before, after, moves, moves.Keys)
    ensures NonNegative(before) && AllStepsCovered(before, moves) ==> NonNegative(after)
  {
    after := before;
    var todo := moves.Keys;
    while todo != {}
      invariant todo <= moves.Keys && AllApplied(before, after, moves, moves.Keys - todo)
      invariant NonNegative(before) && AllStepsCovered(before, moves) ==> NonNegative(after)
    {
      var s :| s in todo;
      var next := ApplyList(moves[s], s, after);
      ApplyShard(before, after, next, moves, moves.Keys - todo, s);
      if StepsCovered(before, moves[s], s) { StillCovered(before, after, moves, moves.Keys - todo, s); }
      assert moves.Keys - todo + {s} == moves.Keys - (todo - {s});
      after := next;
      todo := todo - {s};
    }
    assert moves.Keys - todo == moves.Keys;
  }

  /** With non-negative values, claims only grow from message to message. */
  lemma {:induction false} ClaimGrows(ms: seq<RawMessage>, i: nat, ty: string, b: Address, s: nat, shardNum: nat)
    requires i <= |ms| && forall j :: 0 <= j < |ms| ==> 0 <= ms[j].tx.value
    ensures Claim(ms[..i], ty, b, s, shardNum) <= Claim(ms, ty, b, s, shardNum)
    decreases |ms| - i
  {
    if i == |ms| {
      assert ms[..i] == ms;
    } else {
      ClaimNext(ms, i, ty, b, s, shardNum);
      ClaimGrows(ms, i + 1, ty, b, s, shardNum);
    }
  }

  /** One more message, locked. */
  lemma LockNext(unlocked: Book, locked: Book, ms: seq<RawMessage>, i: nat, ty: string, shardNum: nat)
    requires i < |ms| && Drawn(locked, unlocked, ms[..i], ty, shardNum) && ms[i].tx.txType == ty
    requires ms[i].broker in locked && ShardOf(ms[i].tx.recipient, shardNum) in locked[ms[i].broker]
    ensures Drawn(Entry(locked, ms[i].broker, ShardOf(ms[i].tx.recipient, shardNum), ms[i].tx.value), unlocked,
                  ms[..i + 1], ty, shardNum)
  {
    var x, r, v := ms[i].broker, ShardOf(ms[i].tx.recipient, shardNum), ms[i].tx.value;
    forall b, s
      ensures At(unlocked, b, s) == At(Entry(locked, x, r, v), b, s) - Claim(ms[..i + 1], ty, b, s, shardNum)
    {
      ClaimNext(ms, i, ty, b, s, shardNum);
      EntryAt(locked, x, r, v, b, s);
    }
  }

  lemma DrawnNone(book: Book, ms: seq<RawMessage>, ty: string, shardNum: nat)
    ensures Drawn(book, book, ms[..0], ty, shardNum)
  {
    forall b, s ensures Claim(ms[..0], ty, b, s, shardNum) == 0 { assert ms[..0] == []; }
  }

  /** Enough on every slot for the whole list is enough after every message of it. */
  lemma DrawnNonNegative(before: Book, now: Book, ms: seq<RawMessage>, i: nat, ty: string, shardNum: nat)
    requires i <= |ms| && Drawn(before, now, ms[..i], ty, shardNum)
    requires forall j :: 0 <= j < |ms| ==> 0 <= ms[j].tx.value
    requires forall b, s :: Claim(ms, ty, b, s, shardNum) <= At(before, b, s)
    ensures NonNegative(now)
  {
    forall b, s ensures 0 <= At(now, b, s) {
      ClaimGrows(ms, i, ty, b, s, shardNum);
      assert Claim(ms, ty, b, s, shardNum) <= At(before, b, s);
    }
  }

  ghost predicate Sufficient(book: Book, ms: seq<RawMessage>, ty: string, shardNum: nat) {
    forall b, s :: Claim(ms, ty, b, s, shardNum) <= At(book, b, s)
  }

  /** lockToken: the claims move from the balances to the locks. */
  method LockToken(ms: seq<RawMessage>, balance0: Book, locked0: Book, brokers: seq<Address>,
                   shardNum: nat, ghost ty: string)
    returns (balance: Book, locked: Book)
    requires AllBillable(ms, ty, balance0, shardNum) && AllBillable(ms, ty, locked0, shardNum)
    requires forall b :: b in balance0 ==> b in brokers
    ensures Drawn(balance0, balance, ms, ty, shardNum) && Drawn(locked, locked0, ms, ty, shardNum)
    ensures Sufficient(balance0, ms, ty, shardNum) ==> NonNegative(balance)
  {
    balance, locked := balance0, locked0;
    DrawnNone(balance0, ms, ty, shardNum);
    DrawnNone(locked0, ms, ty, shardNum);
    for i := 0 to |ms|
      invariant Drawn(balance0, balance, ms[..i], ty, shardNum)
      invariant Drawn(locked, locked0, ms[..i], ty, shardNum)
    {
      var m := ms[i];
      assert Billable(m, ty, balance0, shardNum) && Billable(m, ty, locked0, shardNum);
      if m.broker in brokers {
        DrawNext(balance0, balance, ms, i, ty, shardNum);
        LockNext(locked0, locked, ms, i, ty, shardNum);
        locked := Entry(locked, m.broker, ShardOf(m.tx.recipient, shardNum), m.tx.value);
        balance := Entry(balance, m.broker, ShardOf(m.tx.recipient, shardNum), -m.tx.value);
      }
    }
    assert ms[..|ms|] == ms;
    LockStep(balance0, balance, ms, |ms|, ty, shardNum);
  }

  /** No balance is negative after any number of the messages. */
  lemma LockStep(before: Book, now: Book, ms: seq<RawMessage>, i: nat, ty: string, shardNum: nat)
    requires i <= |ms| && Drawn(before, now, ms[..i], ty, shardNum) && AllBillable(ms, ty, before, shardNum)
    ensures Sufficient(before, ms, ty, shardNum) ==> NonNegative(now)
  {
    if Sufficient(before, ms, ty, shardNum) {
      forall j | 0 <= j < |ms| ensures 0 <= ms[j].tx.value { assert Billable(ms[j], ty, before, shardNum); }
      DrawnNonNegative(before, now, ms, i, ty, shardNum);
    }
  }

  // ----- totals ----------------------------------------------------------------

  ghost function ClaimRow(ms: seq<RawMessage>, ty: string, b: Address, shards: set<nat>, shardNum: nat): ShardBalances {
    map s | s in shards :: Claim(ms, ty, b, s, shardNum)
  }

  /** Over all shards, a broker's claims are what it fronts. */
  lemma {:induction false} ClaimTotal(ms: seq<RawMessage>, ty: string, b: Address, shards: set<nat>, shardNum: nat)
    requires forall i :: 0 <= i < |ms| ==> ms[i].tx.txType == ty && ShardOf(ms[i].tx.recipient, shardNum) in shards
    ensures Sum(ClaimRow(ms, ty, b, shards, shardNum), shards) == Total(ms, b)
  {
    var row := ClaimRow(ms, ty, b, shards, shardNum);
    if ms == [] {
      SumZero(row, shards);
    } else {
      var front, m := ms[..|ms| - 1], ms[|ms| - 1];
      var prior := ClaimRow(front, ty, b, shards, shardNum);
      var r := ShardOf(m.tx.recipient, shardNum);
      ClaimTotal(front, ty, b, shards, shardNum);
      SumUpdate(prior, shards, r, prior[r] + Share(m, b));
      SumAgree(row, prior[r := prior[r] + Share(m, b)], shards);
    }
  }

  lemma DrawnHolding(before: Book, after: Book, ms: seq<RawMessage>, ty: string, b: Address, shards: set<nat>,
                     shardNum: nat)
    requires Drawn(before, after, ms, ty, shardNum) && b in before && before[b].Keys == shards
    requires forall i :: 0 <= i < |ms| ==> ms[i].tx.txType == ty && ShardOf(ms[i].tx.recipient, shardNum) in shards
    ensures Holding(after, b) == Holding(before, b) - Total(ms, b)
  {
    var row := ClaimRow(ms, ty, b, shards, shardNum);
    forall s | s in shards ensures before[b][s] == after[b][s] + row[s] {
      assert At(after, b, s) == At(before, b, s) - Claim(ms, ty, b, s, shardNum);
    }
    MovedSum(after[b], before[b], row, shards);
    ClaimTotal(ms, ty, b, shards, shardNum);
  }

  lemma MovesHolding(before: Book, after: Book, change: Book, moves: Moves, b: Address, shards: set<nat>)
    requires AllApplied(before, after, moves, shards) && Says(moves, change, before.Keys, shards)
    requires b in before && before[b].Keys == shards && b in change && change[b].Keys == shards
    requires Sum(change[b], shards) == 0
    ensures Holding(after, b) == Holding(before, b)
  {
    forall s | s in shards ensures after[b][s] == before[b][s] + change[b][s] {
      assert ListSays(moves[s], change, before.Keys, s);
      assert At(after, b, s) == At(before, b, s) + Net(moves[s], b);
    }
    MovedSum(before[b], after[b], change[b], shards);
  }

  // ----- rebalancing covers the lock --------------------------------------------

  lemma {:induction false} ClaimNonNegative(ms: seq<RawMessage>, ty: string, b: Address, s: nat, book: Book,
                                            shardNum: nat)
    requires AllBillable(ms, ty, book, shardNum)
    ensures 0 <= Claim(ms, ty, b, s, shardNum)
    ensures b !in book || s !in book[b] ==> Claim(ms, ty, b, s, shardNum) == 0
  {
    if ms != [] {
      var front := ms[..|ms| - 1];
      forall i | 0 <= i < |front| ensures Billable(front[i], ty, book, shardNum) {
        assert Billable(ms[i], ty, book, shardNum);
      }
      ClaimNonNegative(front, ty, b, s, book, shardNum);
      assert Billable(ms[|ms| - 1], ty, book, shardNum);
    }
  }

  /** What is left on a slot after the moves still covers all its claims. */
  lemma SlotCovered(balance: Book, peek: Book, final: Book, change: Book, ms: seq<RawMessage>, ty: string,
                    shardNum: nat, b: Address, s: nat)
    requires AllBillable(ms, ty, balance, shardNum) && Drawn(balance, peek, ms, ty, shardNum)
    requires b in balance && s in balance[b] && Covered(peek, final, change, b) && 0 <= Holding(peek, b)
    ensures Claim(ms, ty, b, s, shardNum) <= At(balance, b, s) + At(change, b, s)
    ensures 0 <= At(balance, b, s) + At(change, b, s)
  {
    ClaimNonNegative(ms, ty, b, s, balance, shardNum);
    assert At(peek, b, s) == At(balance, b, s) - Claim(ms, ty, b, s, shardNum);
    assert 0 <= final[b][s];
  }

  /** No balance is negative at any point while the moves are applied. */
  lemma EveryMoveCovered(balance: Book, peek: Book, final: Book, change: Book, moves: Moves, ms: seq<RawMessage>,
                         ty: string, shards: set<nat>, shardNum: nat)
    requires Shaped(balance, balance.Keys, shards) && NonNegative(balance)
    requires AllBillable(ms, ty, balance, shardNum) && Drawn(balance, peek, ms, ty, shardNum)
    requires forall b :: b in balance ==> Covered(peek, final, change, b) && 0 <= Holding(peek, b)
    requires Says(moves, change, balance.Keys, shards)
    ensures AllStepsCovered(balance, moves)
  {
    forall s | s in moves ensures StepsCovered(balance, moves[s], s) {
      assert ListSays(moves[s], change, balance.Keys, s);
      forall b, p | 0 <= p <= |moves[s]| ensures 0 <= At(balance, b, s) + Net(moves[s][..p], b) {
        NetPrefix(moves[s], p, b);
        assert 0 <= At(balance, b, s);
        if b in balance {
          SlotCovered(balance, peek, final, change, ms, ty, shardNum, b, s);
        } else {
          NoMoves(moves[s], b);
        }
      }
    }
  }

  /** After the moves, every slot has what is about to be locked on it. */
  lemma MovesSuffice(balance: Book, peek: Book, final: Book, change: Book, moves: Moves, after: Book,
                     ms: seq<RawMessage>, ty: string, shards: set<nat>, shardNum: nat)
    requires Shaped(balance, balance.Keys, shards) && NonNegative(balance)
    requires AllBillable(ms, ty, balance, shardNum) && Drawn(balance, peek, ms, ty, shardNum)
    requires forall b :: b in balance ==> Covered(peek, final, change, b) && 0 <= Holding(peek, b)
    requires Says(moves, change, balance.Keys, shards) && AllApplied(balance, after, moves, moves.Keys)
    ensures Sufficient(after, ms, ty, shardNum)
  {
    forall b, s ensures Claim(ms, ty, b, s, shardNum) <= At(after, b, s) {
      if b in balance && s in shards {
        SlotCovered(balance, peek, final, change, ms, ty, shardNum, b, s);
        assert ListSays(moves[s], change, balance.Keys, s);
        assert At(after, b, s) == At(balance, b, s) + Net(moves[s], b);
      } else {
        ClaimNonNegative(ms, ty, b, s, balance, shardNum);
      }
    }
  }
}

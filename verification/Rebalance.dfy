/**
 * Covering one broker's shard deficits from its other shards
 * (supervisor/committee/committee_broker_b2e.go, GenerateAllocatedTx).
 */
module Rebalance {
  import opened FiniteSums
  import opened Allocator

  /**
   * `peek` is `start` after `change`.  Money only moves between shards, a shard
   * with a deficit only receives and at most its deficit, any other only gives
   * and at most what it has.
   */
  ghost predicate Moved(start: ShardBalances, peek: ShardBalances, change: ShardBalances) {
    peek.Keys == start.Keys && change.Keys == start.Keys &&
    Sum(change, change.Keys) == 0 &&
    (forall s :: s in start ==> peek[s] == start[s] + change[s]) &&
    (forall s :: s in start ==> if start[s] < 0 then 0 <= change[s] && peek[s] <= 0
                                else change[s] <= 0 <= peek[s])
  }

  function Shift(row: ShardBalances, from: nat, to: nat, v: int): (r: ShardBalances)
    requires from in row && to in row && from != to
  {
    row[from := row[from] - v][to := row[to] + v]
  }

  lemma ShiftSum(row: ShardBalances, from: nat, to: nat, v: int)
    requires from in row && to in row && from != to
    ensures Shift(row, from, to, v).Keys == row.Keys
    ensures Sum(Shift(row, from, to, v), row.Keys) == Sum(row, row.Keys)
  {
    SumUpdate(row, row.Keys, from, row[from] - v);
    SumUpdate(row[from := row[from] - v], row.Keys, to, row[to] + v);
  }

  lemma ShiftMoves(start: ShardBalances, peek: ShardBalances, change: ShardBalances, from: nat, to: nat, v: int)
    requires Moved(start, peek, change)
    requires from in start && to in start && from != to
    requires 0 <= v <= peek[from] && v <= -peek[to] && 0 < peek[from] && peek[to] < 0
    ensures Moved(start, Shift(peek, from, to, v), Shift(change, from, to, v))
    ensures Sum(Shift(peek, from, to, v), start.Keys) == Sum(peek, start.Keys)
  {
    ShiftSum(change, from, to, v);
    ShiftSum(peek, from, to, v);
  }

  /** Moving money keeps the total, so a total of at least zero is what covering needs. */
  lemma {:induction false} MovedSum(start: ShardBalances, peek: ShardBalances, change: ShardBalances, keys: set<nat>)
    requires peek.Keys == start.Keys == change.Keys && keys <= start.Keys
    requires forall s :: s in start ==> peek[s] == start[s] + change[s]
    ensures Sum(peek, keys) == Sum(start, keys) + Sum(change, keys)
    decreases keys
  {
    if keys != {} {
      var s :| s in keys;
      SumRemove(peek, keys, s);
      SumRemove(start, keys, s);
      SumRemove(change, keys, s);
      MovedSum(start, peek, change, keys - {s});
    }
  }

  /** With everything else used up, a remaining deficit means the total is negative. */
  lemma OthersUsedUp(peek: ShardBalances, s: nat)
    requires s in peek && peek[s] < 0
    requires forall id :: id in peek && id != s ==> peek[id] <= 0
    ensures Sum(peek, peek.Keys) < 0
  {
    SumRemove(peek, peek.Keys, s);
    var none: ShardBalances := map k | k in peek :: 0;
    SumMonotone(peek, none, peek.Keys - {s});
    SumZero(none, peek.Keys - {s});
  }

  lemma {:induction false} SumZero(f: ShardBalances, keys: set<nat>)
    requires keys <= f.Keys && forall k :: k in keys ==> f[k] == 0
    ensures Sum(f, keys) == 0
    decreases keys
  {
    if keys != {} {
      var k :| k in keys;
      SumRemove(f, keys, k);
      SumZero(f, keys - {k});
    }
  }

  /** Covering the deficit of `s`: the shards not in `todo` have been asked. */
  ghost predicate Covering(s: nat, peek0: ShardBalances, peek: ShardBalances, todo: set<nat>)
    requires s in peek && peek.Keys == peek0.Keys
  {
    peek[s] <= 0 && todo <= peek.Keys &&
    (peek[s] < 0 ==> forall id :: id in peek && id != s && id !in todo ==> peek[id] <= 0) &&
    (forall id :: id in peek && id != s && peek0[id] <= 0 ==> peek[id] == peek0[id]) &&
    Sum(peek, peek.Keys) == Sum(peek0, peek0.Keys)
  }

  lemma AskOne(s: nat, id: nat, start: ShardBalances, peek0: ShardBalances, peek: ShardBalances,
               change: ShardBalances, todo: set<nat>, v: int)
    requires Moved(start, peek, change) && peek0.Keys == start.Keys && s in start && id in todo && id != s
    requires Covering(s, peek0, peek, todo)
    requires peek[s] < 0 < peek[id] && v == if peek[id] < -peek[s] then peek[id] else -peek[s]
    ensures Moved(start, Shift(peek, id, s, v), Shift(change, id, s, v))
    ensures Covering(s, peek0, Shift(peek, id, s, v), todo - {id})
  {
    ShiftMoves(start, peek, change, id, s, v);
  }

  /** One shard's deficit is covered from the others, in any order. */
  method CoverShard(s: nat, ghost start: ShardBalances, peek0: ShardBalances, change0: ShardBalances)
    returns (peek: ShardBalances, change: ShardBalances)
    requires s in peek0 && Moved(start, peek0, change0)
    ensures Moved(start, peek, change)
    ensures forall id :: id in start && id != s && peek0[id] <= 0 ==> peek[id] == peek0[id]
    ensures 0 <= Sum(peek0, peek0.Keys) ==> 0 <= peek[s]
  {
    peek, change := peek0, change0;
    if peek[s] >= 0 {
      return;
    }
    var deficit := -peek[s];
    var todo := peek.Keys;
    while todo != {}
      invariant Moved(start, peek, change) && Covering(s, peek0, peek, todo)
      invariant deficit == -peek[s]
    {
      if deficit == 0 {
        break;
      }
      var id :| id in todo;
      if id != s && peek[id] > 0 {
        var v := deficit;
        if peek[id] < deficit {
          v := peek[id];
          deficit := deficit - peek[id];
        } else {
          deficit := 0;
        }
        AskOne(s, id, start, peek0, peek, change, todo, v);
        peek := Shift(peek, id, s, v);
        change := Shift(change, id, s, v);
      }
      todo := todo - {id};
    }
    if deficit > 0 {
      OthersUsedUp(peek, s);
    }
  }

  /** All deficits are covered exactly when the broker's total suffices. */
  method CoverAll(start: ShardBalances) returns (ghost peek: ShardBalances, change: ShardBalances)
    ensures Moved(start, peek, change)
    ensures change.Keys == start.Keys && Sum(change, change.Keys) == 0
    ensures forall s :: s in start ==>
      if start[s] < 0 then 0 <= change[s] <= -start[s] else -start[s] <= change[s] <= 0
    ensures (forall s :: s in start ==> 0 <= start[s] + change[s]) <==> 0 <= Sum(start, start.Keys)
  {
    var now := start;
    change := map s | s in start :: 0;
    SumZero(change, change.Keys);
    var todo := start.Keys;
    while todo != {}
      invariant todo <= start.Keys
      invariant Moved(start, now, change)
      invariant 0 <= Sum(start, start.Keys) ==> forall s :: s in start && s !in todo ==> 0 <= now[s]
    {
      var s :| s in todo;
      todo := todo - {s};
      MovedSum(start, now, change, start.Keys);
      now, change := CoverShard(s, start, now, change);
    }
    peek := now;
    MovedSum(start, now, change, start.Keys);
    if forall s :: s in start ==> 0 <= peek[s] {
      SumNonNegative(peek, start.Keys);
    }
  }
}

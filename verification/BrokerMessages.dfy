/**
 * Transactions, the messages that pair them with a broker, and the sums over
 * them that every part of the Broker2Earn allocator is stated with.
 */
module BrokerMessages {

  /** An account address, by its hexadecimal digits. */
  datatype Address = Address(hex: string)

  /** `id` stands for the pointer: two transactions are the same exactly when they are equal. */
  datatype Transaction = Transaction(id: nat, sender: Address, recipient: Address, value: int, txType: string)

  datatype RawMessage = RawMessage(tx: Transaction, broker: Address)

  /** A relaxed assignment; the ratios only weight the random pick and are dropped. */
  datatype RatioMessage = RatioMessage(tx: Transaction, brokers: set<Address>)

  /** The value of a hexadecimal digit; the source stops on any other character. */
  function HexDigit(c: char): nat {
    if '0' <= c <= '9' then (c - '0') as nat
    else if 'a' <= c <= 'f' then (c - 'a') as nat + 10
    else if 'A' <= c <= 'F' then (c - 'A') as nat + 10
    else 0
  }

  function HexValue(s: string): nat {
    if s == "" then 0 else 16 * HexValue(s[..|s| - 1]) + HexDigit(s[|s| - 1])
  }

  /** utils.Addr2Shard: the last eight hexadecimal digits, modulo the number of shards. */
  function ShardOf(addr: Address, shardNum: nat): (shard: nat)
    ensures 0 < shardNum ==> shard < shardNum
  {
    var last := if |addr.hex| > 8 then addr.hex[|addr.hex| - 8..] else addr.hex;
    if shardNum == 0 then 0 else HexValue(last) % shardNum
  }

  /** Only the last eight digits count. */
  lemma LastEightDecide(digits: string, last: string, shardNum: nat)
    requires |last| == 8
    ensures ShardOf(Address(digits + last), shardNum) == ShardOf(Address(last), shardNum)
  {
    var all := digits + last;
    assert |all| > 8 ==> all[|all| - 8..] == last;
    assert |all| == 8 ==> all == last;
  }

  /** With two shards the last digit decides. */
  lemma LastDigitDecides(addr: Address)
    requires |addr.hex| >= 8
    ensures ShardOf(addr, 2) == HexDigit(addr.hex[|addr.hex| - 1]) % 2
  {
    var last := addr.hex[|addr.hex| - 8..];
    assert |addr.hex| == 8 ==> last == addr.hex;
    LastDigit(last[..7], last[7]);
    assert last[..7] + [last[7]] == last;
  }

  lemma LastDigit(s: string, c: char)
    ensures HexValue(s + [c]) % 2 == HexDigit(c) % 2
  {
    assert (s + [c])[..|s|] == s;
    EvenPart(HexValue(s), HexDigit(c));
  }

  lemma EvenPart(h: nat, d: nat)
    ensures (16 * h + d) % 2 == d % 2
  {
  }

  /** A forty-digit address that ends in `digit`. */
  function Ending(digit: char): (addr: Address)
    ensures |addr.hex| == 40 && addr.hex[39] == digit
  {
    Address(seq(39, _ => '0') + [digit])
  }

  function Txs(ms: seq<RawMessage>): (txs: seq<Transaction>)
  {
    seq(|ms|, i requires 0 <= i < |ms| => ms[i].tx)
  }

  function TxsOf(ms: seq<RawMessage>): (txs: set<Transaction>) {
    set m | m in ms :: m.tx
  }

  /** All positions hold different transactions. */
  ghost predicate DistinctTxs(ms: seq<RawMessage>) {
    forall i, j :: 0 <= i < j < |ms| ==> ms[i].tx != ms[j].tx
  }

  ghost predicate Distinct<T(!new)>(s: seq<T>) {
    forall i, j :: 0 <= i < j < |s| ==> s[i] != s[j]
  }

  /** What `broker` has to front for the messages assigned to it. */
  function Total(ms: seq<RawMessage>, broker: Address): (sum: int)
  {
    if ms == [] then 0
    else
      Total(ms[..|ms| - 1], broker) + Share(ms[|ms| - 1], broker)
  }

  function Share(m: RawMessage, broker: Address): int {
    if m.broker == broker then m.tx.value else 0
  }

  lemma TotalSnoc(ms: seq<RawMessage>, m: RawMessage, broker: Address)
    ensures Total(ms + [m], broker) == Total(ms, broker) + Share(m, broker)
  {
    assert (ms + [m])[..|ms|] == ms;
  }

  lemma {:induction false} TotalConcat(a: seq<RawMessage>, b: seq<RawMessage>, broker: Address)
    ensures Total(a + b, broker) == Total(a, broker) + Total(b, broker)
  {
    if b == [] {
      assert a + b == a;
    } else {
      TotalConcat(a, b[..|b| - 1], broker);
      assert (a + b)[..|a + b| - 1] == a + b[..|b| - 1];
    }
  }

  /** The keys of a map in some order: Go's range order is arbitrary. */
  method SomeOrder<K(==,!new)>(keys: set<K>) returns (order: seq<K>)
    ensures Distinct(order)
    ensures forall k :: k in order <==> k in keys
  {
    order := [];
    var todo := keys;
    while todo != {}
      invariant todo <= keys
      invariant Distinct(order)
      invariant forall k :: k in order <==> k in keys && k !in todo
    {
      var k :| k in todo;
      order := order + [k];
      todo := todo - {k};
    }
  }
}

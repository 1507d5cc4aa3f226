/** The three trie key encodings and the loops that convert between them
    (vm/trie/encoding.go:37-125).  COMPACT is the hex-prefix encoding of Appendix C of
    the Ethereum Yellow Paper. */
module TrieEncoding {
  import opened Basics

  type Bytes = seq<bv8>
  const TERM: bv8 := 16

  predicate HasTerm(s: Bytes) {
    |s| > 0 && s[|s| - 1] == TERM
  }

  predicate Nibbles(s: Bytes) {
    forall i :: 0 <= i < |s| ==> s[i] < 16
  }

  /** A HEX key: nibbles and perhaps a terminator. */
  predicate HexKey(s: Bytes) {
    Nibbles(if HasTerm(s) then s[..|s| - 1] else s)
  }

  function Join(hi: bv8, lo: bv8): bv8 {
    (hi << 4) | lo
  }

  /** Pairs of nibbles into bytes. */
  function Pack(n: Bytes): (b: Bytes)
    ensures |b| == |n| / 2
  {
    if |n| < 2 then [] else [Join(n[0], n[1])] + Pack(n[2..])
  }

  /** Bytes into pairs of nibbles. */
  function Unpack(b: Bytes): (n: Bytes)
    ensures |n| == 2 * |b|
  {
    if b == [] then [] else [b[0] / 16, b[0] % 16] + Unpack(b[1..])
  }

  function Body(hex: Bytes): Bytes {
    if HasTerm(hex) then hex[..|hex| - 1] else hex
  }

  /** The flag byte: terminator bit, odd bit, and the first nibble of an odd key. */
  function FirstByte(hex: Bytes): bv8 {
    var t: bv8 := if HasTerm(hex) then 1 << 5 else 0;
    var body := Body(hex);
    if |body| % 2 == 1 then t | (1 << 4) | body[0] else t
  }

  function HexToCompact(hex: Bytes): Bytes {
    var body := Body(hex);
    [FirstByte(hex)] + Pack(body[|body| % 2..])
  }

  function KeybytesToHex(str: Bytes): Bytes {
    Unpack(str) + [TERM]
  }

  function CompactToHex(compact: Bytes): Bytes {
    if compact == [] then []
    else
      var base := KeybytesToHex(compact);
      var kept := if base[0] < 2 then base[..|base| - 1] else base;
      kept[if base[0] & 1 == 1 then 1 else 2..]
  }

  /** None is the panic on an odd number of nibbles. */
  function HexToKeybytes(hex: Bytes): Option<Bytes> {
    var body := Body(hex);
    if |body| % 2 != 0 then None else Some(Pack(body))
  }

  // ----- nibbles -----

  lemma JoinSplit(hi: bv8, lo: bv8)
    requires hi < 16 && lo < 16
    ensures Join(hi, lo) / 16 == hi && Join(hi, lo) % 16 == lo
  {
  }

  lemma SplitJoin(b: bv8)
    ensures b / 16 < 16 && b % 16 < 16 && Join(b / 16, b % 16) == b
  {
  }

  lemma {:induction false} UnpackPack(n: Bytes)
    requires Nibbles(n) && |n| % 2 == 0
    ensures Unpack(Pack(n)) == n
  {
    if n != [] {
      JoinSplit(n[0], n[1]);
      UnpackPack(n[2..]);
      assert Pack(n)[1..] == Pack(n[2..]);
      assert n == [n[0], n[1]] + n[2..];
    }
  }

  lemma {:induction false} PackUnpack(b: Bytes)
    ensures Nibbles(Unpack(b)) && Pack(Unpack(b)) == b
  {
    if b != [] {
      SplitJoin(b[0]);
      PackUnpack(b[1..]);
      assert Unpack(b)[2..] == Unpack(b[1..]);
      assert b == [b[0]] + b[1..];
    }
  }

  /** Pack, index by index. */
  lemma {:induction false} PackIs(n: Bytes, b: Bytes)
    requires |n| == 2 * |b|
    requires forall i :: 0 <= i < |b| ==> b[i] == Join(n[2 * i], n[2 * i + 1])
    ensures b == Pack(n)
  {
    if b != [] {
      var rest := n[2..];
      forall i | 0 <= i < |b[1..]| ensures b[1..][i] == Join(rest[2 * i], rest[2 * i + 1]) {
        assert b[i + 1] == Join(n[2 * (i + 1)], n[2 * (i + 1) + 1]);
      }
      PackIs(rest, b[1..]);
      assert b[0] == Join(n[2 * 0], n[2 * 0 + 1]);
      assert b == [b[0]] + b[1..];
    }
  }

  /** Unpack, index by index. */
  lemma {:induction false} UnpackIs(b: Bytes, n: Bytes)
    requires |n| == 2 * |b|
    requires forall i :: 0 <= i < |b| ==> n[2 * i] == b[i] / 16 && n[2 * i + 1] == b[i] % 16
    ensures n == Unpack(b)
  {
    if b != [] {
      var rest := n[2..];
      forall i | 0 <= i < |b[1..]| ensures rest[2 * i] == b[1..][i] / 16 && rest[2 * i + 1] == b[1..][i] % 16 {
        assert n[2 * (i + 1)] == b[i + 1] / 16;
      }
      UnpackIs(b[1..], rest);
      assert n[2 * 0] == b[0] / 16;
      assert n == [n[0], n[1]] + rest;
    }
  }

  // ----- round trips -----

  /** What the flag byte says about the key. */
  lemma FlagNibble(hex: Bytes)
    requires HexKey(hex)
    ensures var body, f := Body(hex), FirstByte(hex);
            && (f / 16 < 2 <==> !HasTerm(hex))
            && ((f / 16) & 1 == 1 <==> |body| % 2 == 1)
            && f / 16 < 4
            && f % 16 == (if |body| % 2 == 1 then body[0] else 0)
  {
    var body := Body(hex);
    if |body| % 2 == 1 {
      var x := body[0];
      assert x < 16;
      assert (0x20 | (1 << 4) | x) / 16 == 3 && (0x20 | (1 << 4) | x) % 16 == x;
      assert (0 | (1 << 4) | x) / 16 == 1 && (0 | (1 << 4) | x) % 16 == x;
    }
  }

  lemma Chop<T>(hi: T, lo: T, rest: seq<T>, term: T, odd: bool, short: bool)
    ensures var base := [hi, lo] + rest + [term];
            var kept := if short then base[..|base| - 1] else base;
            kept[if odd then 1 else 2..] == (if odd then [lo] else []) + rest + (if short then [] else [term])
  {
    var base := [hi, lo] + rest + [term];
    assert base[..|base| - 1] == [hi, lo] + rest;
  }

  /** compactToHex of a flag byte and packed nibbles. */
  lemma CompactToHexIs(f: bv8, rest: Bytes)
    requires Nibbles(rest) && |rest| % 2 == 0
    ensures CompactToHex([f] + Pack(rest))
         == (if (f / 16) & 1 == 1 then [f % 16] else []) + rest + (if f / 16 < 2 then [] else [TERM])
  {
    var c := [f] + Pack(rest);
    UnpackPack(rest);
    assert c[1..] == Pack(rest);
    assert KeybytesToHex(c) == [f / 16, f % 16] + rest + [TERM];
    Chop(f / 16, f % 16, rest, TERM, (f / 16) & 1 == 1, f / 16 < 2);
  }

  /** A key is its odd first nibble, the pairs after it, and its terminator. */
  lemma KeyParts(hex: Bytes)
    ensures var body := Body(hex);
            hex == (if |body| % 2 == 1 then [body[0]] else []) + body[|body| % 2..]
                   + (if HasTerm(hex) then [TERM] else [])
  {
    var body := Body(hex);
    assert hex == body + if HasTerm(hex) then [TERM] else [];
    assert body == (if |body| % 2 == 1 then [body[0]] else []) + body[|body| % 2..];
  }

  /** MAIN: compactToHex undoes hexToCompact on every nibble key, terminated or not. */
  lemma CompactRoundTrip(hex: Bytes)
    requires HexKey(hex)
    ensures CompactToHex(HexToCompact(hex)) == hex
  {
    var rest := Body(hex)[|Body(hex)| % 2..];
    FlagNibble(hex);
    KeyParts(hex);
    assert Nibbles(rest) && |rest| % 2 == 0;
    CompactToHexIs(FirstByte(hex), rest);
  }

  lemma HexToCompactInjective(a: Bytes, b: Bytes)
    requires HexKey(a) && HexKey(b) && HexToCompact(a) == HexToCompact(b)
    ensures a == b
  {
    CompactRoundTrip(a);
    CompactRoundTrip(b);
  }

  /** MAIN: hexToKeybytes undoes keybytesToHex on every byte string. */
  lemma KeybytesRoundTrip(str: Bytes)
    ensures HexKey(KeybytesToHex(str)) && HexToKeybytes(KeybytesToHex(str)) == Some(str)
  {
    PackUnpack(str);
    assert Body(KeybytesToHex(str)) == Unpack(str);
  }

  // ----- what the bytes are -----

  lemma JoinIs(hi: bv8, lo: bv8)
    requires hi < 16 && lo < 16
    ensures Join(hi, lo) == 16 * hi + lo
  {
  }

  lemma {:induction false} PackAt(n: Bytes, i: nat)
    requires Nibbles(n) && 2 * i + 1 < |n|
    ensures Pack(n)[i] == 16 * n[2 * i] + n[2 * i + 1]
  {
    if i == 0 {
      JoinIs(n[0], n[1]);
    } else {
      PackAt(n[2..], i - 1);
    }
  }

  lemma {:induction false} UnpackAt(b: Bytes, i: nat)
    requires i < |b|
    ensures var n := Unpack(b); n[2 * i] < 16 && n[2 * i + 1] < 16 && b[i] == 16 * n[2 * i] + n[2 * i + 1]
  {
    if i == 0 { SplitJoin(b[0]); } else { UnpackAt(b[1..], i - 1); }
  }

  /** The flag nibble: 2 for a terminator and 1 for an odd length. */
  function FlagOf(term: bool, odd: bool): bv8 {
    if term then (if odd then 3 else 2) else if odd then 1 else 0
  }

  lemma FlagJoined(x: bv8, term: bool)
    requires x < 16
    ensures (if term then 1 << 5 else 0) | (1 << 4) | x == 16 * FlagOf(term, true) + x
  {
    if term { assert 32 | 16 | x == 48 + x; } else { assert 0 | 16 | x == 16 + x; }
  }

  lemma FirstByteIs(hex: Bytes)
    requires HexKey(hex)
    ensures var body := Body(hex);
            FirstByte(hex) == 16 * FlagOf(HasTerm(hex), |body| % 2 == 1) + if |body| % 2 == 1 then body[0] else 0
  {
    var body := Body(hex);
    if |body| % 2 == 1 { FlagJoined(body[0], HasTerm(hex)); }
  }

  /** MAIN: the compact form is the hex-prefix encoding of Appendix C of the Yellow Paper: the
      flag nibble, the odd first nibble or a zero, and then the nibbles in pairs, the higher
      one first. */
  lemma CompactIsHexPrefix(hex: Bytes, i: nat)
    requires HexKey(hex) && i <= |Body(hex)| / 2
    ensures var body, odd := Body(hex), |Body(hex)| % 2;
            && |HexToCompact(hex)| == |body| / 2 + 1
            && HexToCompact(hex)[i] ==
               if i > 0 then 16 * body[odd + 2 * (i - 1)] + body[odd + 2 * (i - 1) + 1]
               else 16 * FlagOf(HasTerm(hex), odd == 1) + if odd == 1 then body[0] else 0
  {
    FirstByteIs(hex);
    if i > 0 { PackAt(Body(hex)[|Body(hex)| % 2..], i - 1); }
  }

  /** MAIN: a byte string in HEX form is its nibbles, the higher of each byte first, and the
      terminator. */
  lemma HexIsNibbles(str: Bytes, i: nat)
    requires i < |str|
    ensures var hex := KeybytesToHex(str);
            && |hex| == 2 * |str| + 1 && hex[2 * |str|] == TERM
            && hex[2 * i] < 16 && hex[2 * i + 1] < 16 && str[i] == 16 * hex[2 * i] + hex[2 * i + 1]
  {
    UnpackAt(str, i);
  }

  // ----- the loops -----

  method DecodeNibbles(nibbles: Bytes, bytes: array<bv8>, offset: nat)
    requires |nibbles| % 2 == 0 && offset + |nibbles| / 2 == bytes.Length
    modifies bytes
    ensures bytes[offset..] == Pack(nibbles) && bytes[..offset] == old(bytes[..offset])
  {
    var bi, ni := 0, 0;
    while ni < |nibbles|
      invariant ni == 2 * bi && ni <= |nibbles|
      invariant bytes[..offset] == old(bytes[..offset])
      invariant forall x :: 0 <= x < bi ==> bytes[offset + x] == Join(nibbles[2 * x], nibbles[2 * x + 1])
    {
      bytes[offset + bi] := Join(nibbles[ni], nibbles[ni + 1]);
      bi, ni := bi + 1, ni + 2;
    }
    PackIs(nibbles, bytes[offset..]);
  }

  method EncodeCompact(hex: Bytes) returns (buf: array<bv8>)
    ensures fresh(buf) && buf[..] == HexToCompact(hex)
  {
    var terminator: bv8 := 0;
    var body := hex;
    if HasTerm(hex) {
      terminator := 1;
      body := hex[..|hex| - 1];
    }
    buf := new bv8[|body| / 2 + 1];
    buf[0] := terminator << 5;
    var rest := body;
    if |body| % 2 == 1 {
      buf[0] := buf[0] | (1 << 4);
      buf[0] := buf[0] | body[0];
      rest := body[1..];
    }
    DecodeNibbles(rest, buf, 1);
    assert buf[..] == buf[..1] + buf[1..];
  }

  /** The x-th byte of the packed nibbles. */
  function PairAt(n: Bytes, x: int): bv8 {
    if 0 <= x && 2 * x + 1 < |n| then Join(n[2 * x], n[2 * x + 1]) else 0
  }

  /** The buffer when bi - 1 pairs of `was` are packed: reading stays ahead of writing. */
  ghost predicate PackedUpTo(cur: Bytes, was: Bytes, start: nat, bi: nat) {
    && start <= 1 <= bi <= |cur| && start + |was| <= |cur| && 2 * (bi - 1) <= |was|
    && (forall x :: start + 2 * (bi - 1) <= x < start + |was| ==> cur[x] == was[x - start])
    && (forall y :: 1 <= y < bi ==> cur[y] == PairAt(was, y - 1))
  }

  lemma PackPair(cur: Bytes, was: Bytes, start: nat, bi: nat)
    requires PackedUpTo(cur, was, start, bi) && 2 * bi <= |was|
    ensures var ni := start + 2 * (bi - 1);
            bi < |cur| && PackedUpTo(cur[bi := Join(cur[ni], cur[ni + 1])], was, start, bi + 1)
  {
    var ni := start + 2 * (bi - 1);
    assert cur[ni] == was[ni - start] && cur[ni + 1] == was[ni + 1 - start];
    assert PairAt(was, bi - 1) == Join(was[2 * (bi - 1)], was[2 * (bi - 1) + 1]);
  }

  /** The loop that packs nibbles into the buffer it is still reading. */
  method PackInPlace(hex: array<bv8>, start: nat, hexLen: nat, ghost pairs: nat)
    requires start <= 1 && hexLen == start + 2 * pairs && hexLen <= hex.Length && hex.Length > 0
    modifies hex
    ensures pairs + 1 <= hex.Length && hex[1..pairs + 1] == Pack(old(hex[start..hexLen]))
  {
    ghost var was := hex[start..hexLen];
    var ni, bi := start, 1;
    while ni < hexLen
      invariant ni == start + 2 * (bi - 1) && 1 <= bi <= pairs + 1
      invariant PackedUpTo(hex[..], was, start, bi)
    {
      ghost var cur := hex[..];
      PackPair(cur, was, start, bi);
      hex[bi] := Join(hex[ni], hex[ni + 1]);
      assert hex[..] == cur[bi := Join(cur[ni], cur[ni + 1])];
      bi, ni := bi + 1, ni + 2;
    }
    PackDone(hex[..], was, start, bi);
  }

  lemma PackDone(cur: Bytes, was: Bytes, start: nat, bi: nat)
    requires PackedUpTo(cur, was, start, bi) && 2 * (bi - 1) == |was|
    ensures cur[1..bi] == Pack(was)
  {
    forall x | 0 <= x < bi - 1 ensures cur[1..bi][x] == Join(was[2 * x], was[2 * x + 1]) {
      assert cur[x + 1] == PairAt(was, x);
    }
    PackIs(was, cur[1..bi]);
  }

  /** The length without terminator, the flag byte, and where the pairs start. */
  method Flags(hex: array<bv8>) returns (hexLen: nat, firstByte: bv8, ni: nat)
    requires hex.Length > 0
    ensures hexLen <= hex.Length && hex[..hexLen] == Body(hex[..])
    ensures firstByte == FirstByte(hex[..]) && ni == hexLen % 2
  {
    hexLen, firstByte, ni := hex.Length, 0, 0;
    if hex[hexLen - 1] == 16 {
      firstByte := 1 << 5;
      hexLen := hexLen - 1;
    }
    assert hex[..hexLen] == Body(hex[..]);
    if hexLen % 2 == 1 {
      firstByte := firstByte | (1 << 4);
      firstByte := firstByte | hex[0];
      ni := 1;
    }
  }

  /** The compact key overwrites the hex key. */
  method EncodeCompactInPlace(hex: array<bv8>) returns (binLen: nat)
    requires hex.Length > 0
    modifies hex
    ensures binLen <= hex.Length && hex[..binLen] == HexToCompact(old(hex[..]))
  {
    ghost var was, body := hex[..], Body(hex[..]);
    var hexLen, firstByte, ni := Flags(hex);
    binLen := hexLen / 2 + 1;
    assert hex[ni..hexLen] == body[ni..];
    PackInPlace(hex, ni, hexLen, hexLen / 2);
    ghost var done := hex[1..binLen];
    hex[0] := firstByte;
    assert hex[1..binLen] == done;
    assert hex[..binLen] == [hex[0]] + hex[1..binLen];
  }

  method DecodeKeybytes(str: Bytes) returns (nibbles: array<bv8>)
    ensures fresh(nibbles) && nibbles[..] == KeybytesToHex(str)
  {
    var l := |str| * 2 + 1;
    nibbles := new bv8[l];
    for i := 0 to |str|
      invariant forall j :: 0 <= j < i ==> nibbles[2 * j] == str[j] / 16 && nibbles[2 * j + 1] == str[j] % 16
    {
      nibbles[i * 2] := str[i] / 16;
      nibbles[i * 2 + 1] := str[i] % 16;
    }
    nibbles[l - 1] := 16;
    UnpackIs(str, nibbles[..l - 1]);
    assert nibbles[..] == nibbles[..l - 1] + [TERM];
  }

  /** The slices of compactToHex on a fresh buffer. */
  method DecodeCompact(compact: Bytes) returns (hex: Bytes)
    ensures hex == CompactToHex(compact)
  {
    if |compact| == 0 { return compact; }
    var buf := DecodeKeybytes(compact);
    var base := buf[..];
    if base[0] < 2 {
      base := base[..|base| - 1];
    }
    var chop := if base[0] & 1 == 1 then 1 else 2;
    hex := base[chop..];
  }
}

/** JUMPDEST analysis: the packed bit vector of vm/analysis.go against the linear walk
    over instructions, and the two-level cache of vm/contract.go:71-116. */
module CodeBitmap {
  import opened Basics

  type Code = seq<Byte>
  const PUSH1: Byte := 0x60
  const JUMPDEST: Byte := 0x5b

  // ----- the linear walk -----

  /** How many data bytes follow an opcode. */
  function PushSize(op: Byte): nat {
    if 0x60 <= op <= 0x7f then op - 0x5f else 0
  }

  /** i is reached by walking instruction by instruction from `from`. */
  predicate Reaches(code: Code, from: nat, i: nat)
    decreases if from < |code| then |code| - from else 0
  {
    from == i || (from < i && from < |code| && Reaches(code, from + 1 + PushSize(code[from]), i))
  }

  /** i is an instruction boundary. */
  predicate IsStart(code: Code, i: nat) {
    Reaches(code, 0, i)
  }

  lemma {:induction false} ReachesNext(code: Code, from: nat, at: nat)
    requires Reaches(code, from, at) && at < |code|
    ensures Reaches(code, from, at + 1 + PushSize(code[at]))
    decreases if from < |code| then |code| - from else 0
  {
    if from != at {
      ReachesNext(code, from + 1 + PushSize(code[from]), at);
    }
  }

  /** Beyond a boundary the walk continues from it. */
  lemma {:induction false} ReachesFrom(code: Code, from: nat, at: nat, i: nat)
    requires Reaches(code, from, at) && i >= at
    ensures Reaches(code, from, i) == Reaches(code, at, i)
    decreases if from < |code| then |code| - from else 0
  {
    if from != at {
      ReachesFrom(code, from + 1 + PushSize(code[from]), at, i);
    }
  }

  /** Between an instruction and the next lies only its data. */
  lemma DataBetween(code: Code, at: nat, i: nat)
    requires IsStart(code, at) && at < |code| && at < i <= at + PushSize(code[at])
    ensures !IsStart(code, i)
  {
    ReachesFrom(code, 0, at, i);
  }

  // ----- bits -----

  function Mask(k: nat): bv8
    requires k < 8
  {
    if k == 0 then 1 else if k == 1 then 2 else if k == 2 then 4 else if k == 3 then 8
    else if k == 4 then 16 else if k == 5 then 32 else if k == 6 then 64 else 128
  }

  predicate Bit(b: bv8, k: nat)
    requires k < 8
  {
    b & Mask(k) != 0
  }

  predicate BitAt(bits: seq<bv8>, i: nat)
    requires i < 8 * |bits|
  {
    Bit(bits[i / 8], i % 8)
  }

  function LowByte(a: bv16): bv8 {
    (a & 0xff) as bv8
  }

  /** The masks of the packed writes; n is how many bits each sets. */
  predicate IsFlag(flag: bv16, n: nat) {
    (n == 1 && flag == 1) || (n == 2 && flag == 0x3) || (n == 3 && flag == 0x7) || (n == 4 && flag == 0xf)
    || (n == 5 && flag == 0x1f) || (n == 6 && flag == 0x3f) || (n == 7 && flag == 0x7f)
  }

  lemma FlagBits(flag: bv16, n: nat, r: nat, k: nat)
    requires r < 8 && k < 8 && IsFlag(flag, n)
    ensures Bit(LowByte(flag << r), k) <==> r <= k < r + n
    ensures Bit(LowByte((flag << r) >> 8), k) <==> k + 8 < r + n
  {
    if n == 1 { } else if n == 2 { } else if n == 3 { } else if n == 4 { }
    else if n == 5 { } else if n == 6 { } else { }
  }

  /** The part of a run of ones that starts at bit r of a byte. */
  function Tail(r: nat): bv8
    requires r < 8
  {
    (0xff as bv8) << r
  }

  lemma TailBits(r: nat, k: nat)
    requires r < 8 && k < 8
    ensures Bit(Tail(r), k) <==> k >= r
    ensures Bit(!Tail(r), k) <==> k < r
  {
  }

  lemma OrBits(a: bv8, b: bv8, k: nat)
    requires k < 8
    ensures Bit(a | b, k) <==> Bit(a, k) || Bit(b, k)
  {
  }

  lemma AllOnes(k: nat)
    requires k < 8
    ensures Bit(0xff, k) && !Bit(0, k)
  {
  }

  lemma NoBits(b: bv8)
    requires b == 0
    ensures forall k :: 0 <= k < 8 ==> !Bit(b, k)
  {
  }

  // ----- packed writes -----

  ghost predicate ClearFrom(bits: seq<bv8>, pos: nat) {
    forall j :: pos <= j < 8 * |bits| ==> !BitAt(bits, j)
  }

  /** after is before with the n bits from pos on set. */
  ghost predicate Marks(before: seq<bv8>, after: seq<bv8>, pos: nat, n: nat) {
    && |after| == |before|
    && forall j :: 0 <= j < 8 * |before| ==> (BitAt(after, j) <==> BitAt(before, j) || pos <= j < pos + n)
  }

  lemma MarksAgain(a: seq<bv8>, b: seq<bv8>, c: seq<bv8>, pos: nat, n: nat, m: nat)
    requires Marks(a, b, pos, n) && Marks(b, c, pos + n, m)
    ensures Marks(a, c, pos, n + m)
  {
    forall j | 0 <= j < 8 * |a| ensures BitAt(c, j) <==> BitAt(a, j) || pos <= j < pos + n + m {
      assert BitAt(b, j) <==> BitAt(a, j) || pos <= j < pos + n;
      assert BitAt(c, j) <==> BitAt(b, j) || pos + n <= j < pos + n + m;
    }
  }

  lemma MarksClear(a: seq<bv8>, b: seq<bv8>, pos: nat, n: nat)
    requires Marks(a, b, pos, n) && ClearFrom(a, pos)
    ensures ClearFrom(b, pos + n)
  {
    forall j | pos + n <= j < 8 * |b| ensures !BitAt(b, j) {
      assert !BitAt(a, j);
    }
  }

  /** One byte of a packed write: x is its old and y its new value, d its distance from
      the byte where the run of n bits starts at bit r. */
  lemma SpillByte(x: bv8, y: bv8, flag: bv16, n: nat, r: nat, d: int, k: nat)
    requires IsFlag(flag, n) && r < 8 && k < 8
    requires d == 0 ==> y == x | LowByte(flag << r)
    requires d == 1 ==> x == 0 && (y == LowByte((flag << r) >> 8) || (y == x && LowByte((flag << r) >> 8) == 0))
    requires d != 0 && d != 1 ==> y == x
    ensures Bit(y, k) <==> Bit(x, k) || r <= 8 * d + k < r + n
  {
    FlagBits(flag, n, r, k);
    OrBits(x, LowByte(flag << r), k);
    NoBits(0);
  }

  lemma RunByte(x: bv8, y: bv8, r: nat, bytes: nat, d: int, k: nat)
    requires r < 8 && k < 8 && 1 <= bytes
    requires d == 0 ==> y == x | Tail(r)
    requires 0 < d < bytes ==> x == 0 && y == 0xff
    requires d == bytes ==> x == 0 && y == !Tail(r)
    requires d < 0 || d > bytes ==> y == x
    ensures Bit(y, k) <==> Bit(x, k) || r <= 8 * d + k < r + 8 * bytes
  {
    TailBits(r, k);
    OrBits(x, Tail(r), k);
    AllOnes(k);
  }

  lemma {:induction false} ZeroByte(b: bv8)
    requires forall k :: 0 <= k < 8 ==> !Bit(b, k)
    ensures b == 0
  {
    assert !Bit(b, 0) && !Bit(b, 1) && !Bit(b, 2) && !Bit(b, 3) && !Bit(b, 4) && !Bit(b, 5) && !Bit(b, 6) && !Bit(b, 7);
  }

  lemma ClearByte(bits: seq<bv8>, pos: nat, q: nat)
    requires ClearFrom(bits, pos) && q < |bits| && 8 * q >= pos
    ensures bits[q] == 0
  {
    forall k | 0 <= k < 8 ensures !Bit(bits[q], k) {
      assert !BitAt(bits, 8 * q + k);
    }
    ZeroByte(bits[q]);
  }

  /** A run of ones over whole bytes, starting inside byte q. */
  lemma RunMarks(before: seq<bv8>, after: seq<bv8>, pos: nat, bytes: nat)
    requires |after| == |before| && 1 <= bytes && pos / 8 + bytes < |before| && ClearFrom(before, pos)
    requires after[pos / 8] == before[pos / 8] | Tail(pos % 8) && after[pos / 8 + bytes] == !Tail(pos % 8)
    requires forall i :: pos / 8 < i < pos / 8 + bytes ==> after[i] == 0xff
    requires forall i :: 0 <= i < pos / 8 || pos / 8 + bytes < i < |before| ==> after[i] == before[i]
    ensures Marks(before, after, pos, 8 * bytes)
  {
    var q := pos / 8;
    forall j | 0 <= j < 8 * |before| ensures BitAt(after, j) <==> BitAt(before, j) || pos <= j < pos + 8 * bytes {
      var i := j / 8;
      if q < i { ClearByte(before, pos, i); }
      RunByte(before[i], after[i], pos % 8, bytes, i - q, j % 8);
    }
  }

  /** setN, and set1 as its smallest case: the second byte is overwritten only if the
      run spills into it. */
  method SetN(bits: array<bv8>, flag: bv16, ghost n: nat, pos: nat)
    requires IsFlag(flag, n) && pos / 8 + 1 < bits.Length && ClearFrom(bits[..], pos)
    modifies bits
    ensures Marks(old(bits[..]), bits[..], pos, n)
  {
    ghost var before := bits[..];
    var q, r := pos / 8, pos % 8;
    ClearByte(before, pos, q + 1);
    var a := flag << r;
    bits[q] := bits[q] | LowByte(a);
    var b := LowByte(a >> 8);
    if b != 0 {
      bits[q + 1] := b;
    }
    ghost var after := bits[..];
    forall j | 0 <= j < 8 * |before| ensures BitAt(after, j) <==> BitAt(before, j) || pos <= j < pos + n {
      SpillByte(before[j / 8], after[j / 8], flag, n, r, j / 8 - q, j % 8);
    }
  }

  method Set8(bits: array<bv8>, pos: nat)
    requires pos / 8 + 1 < bits.Length && ClearFrom(bits[..], pos)
    modifies bits
    ensures Marks(old(bits[..]), bits[..], pos, 8)
  {
    ghost var before := bits[..];
    var q, r := pos / 8, pos % 8;
    var a := Tail(r);
    bits[q] := bits[q] | a;
    bits[q + 1] := !a;
    RunMarks(before, bits[..], pos, 1);
  }

  method Set16(bits: array<bv8>, pos: nat)
    requires pos / 8 + 2 < bits.Length && ClearFrom(bits[..], pos)
    modifies bits
    ensures Marks(old(bits[..]), bits[..], pos, 16)
  {
    ghost var before := bits[..];
    var q, r := pos / 8, pos % 8;
    var a := Tail(r);
    bits[q] := bits[q] | a;
    bits[q + 1] := 0xff;
    bits[q + 2] := !a;
    RunMarks(before, bits[..], pos, 2);
  }

  /** The mask for the last one to seven data bytes. */
  function FlagOf(n: nat): (flag: bv16)
    requires 1 <= n <= 7
    ensures IsFlag(flag, n)
  {
    if n == 1 then 1 else if n == 2 then 0x3 else if n == 3 then 0x7 else if n == 4 then 0xf
    else if n == 5 then 0x1f else if n == 6 then 0x3f else 0x7f
  }

  /** One PUSH's data: sixteens, then eights, then the rest. */
  method MarkData(bits: array<bv8>, start: nat, size: nat) returns (pc: nat)
    requires size <= 32 && start / 8 + 4 < bits.Length && ClearFrom(bits[..], start)
    modifies bits
    ensures pc == start + size && Marks(old(bits[..]), bits[..], start, size)
  {
    ghost var before := bits[..];
    pc := start;
    var numbits := size;
    while numbits >= 16
      invariant pc + numbits == start + size && (pc == start || pc == start + 16 || pc == start + 32)
      invariant Marks(before, bits[..], start, pc - start)
    {
      ghost var b := bits[..];
      MarksClear(before, b, start, pc - start);
      Set16(bits, pc);
      MarksAgain(before, b, bits[..], start, pc - start, 16);
      pc, numbits := pc + 16, numbits - 16;
    }
    while numbits >= 8
      invariant pc + numbits == start + size && numbits <= 15
      invariant pc == start || pc == start + 8 || pc == start + 16 || pc == start + 24 || pc == start + 32
      invariant Marks(before, bits[..], start, pc - start)
    {
      ghost var b := bits[..];
      MarksClear(before, b, start, pc - start);
      Set8(bits, pc);
      MarksAgain(before, b, bits[..], start, pc - start, 8);
      pc, numbits := pc + 8, numbits - 8;
    }
    if numbits > 0 {
      ghost var b := bits[..];
      MarksClear(before, b, start, pc - start);
      SetN(bits, FlagOf(numbits), numbits, pc);
      MarksAgain(before, b, bits[..], start, pc - start, numbits);
      pc := pc + numbits;
    }
  }

  /** A set bit is PUSH data, a clear one an instruction boundary. */
  ghost predicate IsBitmap(bits: seq<bv8>, code: Code) {
    && |code| <= 8 * |bits|
    && forall i :: 0 <= i < |code| ==> (BitAt(bits, i) <==> !IsStart(code, i))
  }

  /** What is known when the walk stands at pc. */
  ghost predicate MarkedUpTo(bits: seq<bv8>, code: Code, pc: nat) {
    && IsStart(code, pc) && ClearFrom(bits, pc)
    && forall i :: 0 <= i < pc && i < 8 * |bits| ==> (BitAt(bits, i) <==> !IsStart(code, i))
  }

  lemma MarkedNext(b: seq<bv8>, c: seq<bv8>, code: Code, pc: nat)
    requires MarkedUpTo(b, code, pc) && pc < |code| && Marks(b, c, pc + 1, PushSize(code[pc]))
    ensures MarkedUpTo(c, code, pc + 1 + PushSize(code[pc]))
  {
    var n := PushSize(code[pc]);
    ReachesNext(code, 0, pc);
    forall j | pc + 1 + n <= j < 8 * |c| ensures !BitAt(c, j) {
      assert !BitAt(b, j);
    }
    forall i | 0 <= i < pc + 1 + n && i < 8 * |c| ensures BitAt(c, i) <==> !IsStart(code, i) {
      if i > pc { DataBetween(code, pc, i); }
      assert i >= pc ==> !BitAt(b, i);
    }
  }

  function Int8(op: Byte): int {
    if op < 128 then op else op - 256
  }

  /** MAIN: codeBitmap marks exactly the PUSH data of the linear walk, and every packed
      write, a trailing PUSH32's included, stays inside the len/8+5 bytes. */
  method ComputeBitmap(code: Code) returns (bits: array<bv8>)
    ensures fresh(bits) && bits.Length == |code| / 8 + 5 && IsBitmap(bits[..], code)
  {
    bits := new bv8[|code| / 8 + 1 + 4](_ => 0);
    forall j | 0 <= j < 8 * bits.Length ensures !BitAt(bits[..], j) { NoBits(0); }
    var pc := 0;
    while pc < |code|
      invariant pc <= |code| + 32 && MarkedUpTo(bits[..], code, pc)
      decreases |code| + 33 - pc
    {
      ghost var before, at := bits[..], pc;
      var op := code[pc];
      pc := pc + 1;
      if Int8(op) >= Int8(PUSH1) {
        var numbits := op - PUSH1 + 1;
        forall j | pc <= j < 8 * bits.Length ensures !BitAt(bits[..], j) { }
        pc := MarkData(bits, pc, numbits);
      }
      MarkedNext(before, bits[..], code, at);
    }
  }

  /** codeSegment, as the source shifts it. */
  method CodeSegment(bits: seq<bv8>, pos: nat) returns (isCode: bool)
    requires pos < 8 * |bits|
    ensures isCode <==> !BitAt(bits, pos)
  {
    isCode := (bits[pos / 8] >> (pos % 8)) & 1 == 0;
    ShiftedBit(bits[pos / 8], pos % 8);
  }

  lemma ShiftedBit(b: bv8, k: nat)
    requires k < 8
    ensures (b >> k) & 1 == 0 <==> !Bit(b, k)
  {
  }

  // ----- the two-level cache -----

  /** The analyses shared by a contract and the contracts it calls, keyed by code hash.
      `codeOf` says that equal non-zero hashes mean equal code. */
  class JumpdestCache {
    ghost const codeOf: nat -> Code
    var analyses: map<nat, seq<bv8>>

    constructor (ghost codeOf: nat -> Code)
      ensures this.codeOf == codeOf && Valid()
    {
      this.codeOf, analyses := codeOf, map[];
    }

    ghost predicate Valid()
      reads this
    {
      forall h :: h in analyses ==> IsBitmap(analyses[h], codeOf(h))
    }
  }

  class Contract {
    const code: Code
    const codeHash: nat
    const jumpdests: JumpdestCache
    var analysis: Option<seq<bv8>>

    constructor (code: Code, codeHash: nat, jumpdests: JumpdestCache)
      requires jumpdests.Valid() && (codeHash != 0 ==> jumpdests.codeOf(codeHash) == code)
      ensures Valid() && this.code == code && this.codeHash == codeHash && this.jumpdests == jumpdests
    {
      this.code, this.codeHash, this.jumpdests, analysis := code, codeHash, jumpdests, None;
    }

    ghost predicate Valid()
      reads this, jumpdests
    {
      && jumpdests.Valid()
      && (codeHash != 0 ==> jumpdests.codeOf(codeHash) == code)
      && (analysis.Some? ==> IsBitmap(analysis.value, code))
    }

    function GetOp(n: nat): Byte {
      if n < |code| then code[n] else 0
    }

    /** Whichever cache answers, the answer is a fresh analysis's. */
    method IsCode(udest: nat) returns (isCode: bool)
      requires Valid() && udest < |code|
      modifies this, jumpdests
      ensures Valid() && (isCode <==> IsStart(code, udest))
    {
      if analysis.Some? {
        isCode := CodeSegment(analysis.value, udest);
        return;
      }
      if codeHash != 0 {
        if codeHash !in jumpdests.analyses {
          var bits := ComputeBitmap(code);
          jumpdests.analyses := jumpdests.analyses[codeHash := bits[..]];
        }
        analysis := Some(jumpdests.analyses[codeHash]);
        isCode := CodeSegment(analysis.value, udest);
        return;
      }
      var bits := ComputeBitmap(code);
      analysis := Some(bits[..]);
      isCode := CodeSegment(analysis.value, udest);
    }

    /** MAIN: a jump destination is valid exactly when it is a JUMPDEST on an instruction
        boundary, for every state of the caches. */
    method ValidJumpdest(dest: nat) returns (ok: bool)
      requires Valid()
      modifies this, jumpdests
      ensures Valid() && (ok <==> JumpTarget(code, dest))
    {
      // a destination of 2^64 or more is past the code as well
      if dest >= |code| { return false; }
      if code[dest] != JUMPDEST { return false; }
      ok := IsCode(dest);
    }
  }

  predicate JumpTarget(code: Code, dest: nat) {
    dest < |code| && code[dest] == JUMPDEST && IsStart(code, dest)
  }
}

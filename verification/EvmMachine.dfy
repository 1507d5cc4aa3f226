/** The interpreter loop of vm/interpreter.go:206-305 with the Cancun table: stack bounds,
    memory growth before access, and where the program counter may stand. */
module EvmMachine {
  import opened Basics
  import opened CodeBitmap

  const STACK_LIMIT: nat := 1024

  type Stack = seq<U256>

  // ----- the jump table -----

  /** The stack items an operation takes (vm/jump_table.go, vm/eips.go). */
  function Pops(op: Byte): nat {
    if 0x01 <= op <= 0x07 then 2
    else if op == 0x08 || op == 0x09 then 3
    else if op == 0x0a || op == 0x0b || 0x10 <= op <= 0x14 then 2
    else if op == 0x15 || op == 0x19 then 1
    else if 0x16 <= op <= 0x18 || 0x1a <= op <= 0x1d || op == 0x20 then 2
    else if op == 0x31 || op == 0x35 || op == 0x3b || op == 0x3f || op == 0x40 || op == 0x49 then 1
    else if op == 0x37 || op == 0x39 || op == 0x3e then 3
    else if op == 0x3c then 4
    else if op == 0x50 || op == 0x51 || op == 0x54 || op == 0x56 || op == 0x5c then 1
    else if op == 0x52 || op == 0x53 || op == 0x55 || op == 0x57 || op == 0x5d then 2
    else if op == 0x5e then 3
    else if 0x80 <= op <= 0x8f then op - 0x7f
    else if 0x90 <= op <= 0x9f then op - 0x8e
    else if 0xa0 <= op <= 0xa4 then op - 0x9e
    else if op == 0xf0 then 3
    else if op == 0xf1 || op == 0xf2 then 7
    else if op == 0xf4 || op == 0xfa then 6
    else if op == 0xf5 then 4
    else if op == 0xf3 || op == 0xfd then 2
    else if op == 0xff then 1
    else 0
  }

  /** The stack items it leaves in their place. */
  function Pushes(op: Byte): nat {
    if 0x01 <= op <= 0x0b || 0x10 <= op <= 0x1d || op == 0x20 then 1
    else if 0x30 <= op <= 0x4a then (if op == 0x37 || op == 0x39 || op == 0x3c || op == 0x3e then 0 else 1)
    else if op == 0x51 || op == 0x54 || 0x58 <= op <= 0x5a || op == 0x5c || 0x5f <= op <= 0x7f then 1
    else if 0x80 <= op <= 0x8f then op - 0x7e
    else if 0x90 <= op <= 0x9f then op - 0x8e
    else if op == 0xf0 || op == 0xf1 || op == 0xf2 || op == 0xf4 || op == 0xf5 || op == 0xfa then 1
    else 0
  }

  predicate Defined(op: Byte) {
    op <= 0x0b || 0x10 <= op <= 0x1d || op == 0x20 || 0x30 <= op <= 0x4a || 0x50 <= op <= 0xa4
    || 0xf0 <= op <= 0xf5 || op == 0xfa || op == 0xfd || op == 0xff
  }

  /** execute returns an error token: STOP, RETURN, REVERT, SELFDESTRUCT and the undefined. */
  predicate Halts(op: Byte) {
    !Defined(op) || op == 0x00 || op == 0xf3 || op == 0xfd || op == 0xff
  }

  // ----- memory sizes -----

  function Back(st: Stack, n: nat): U256
    requires n < |st|
  {
    st[|st| - 1 - n]
  }

  datatype Range = Range(offset: U256, size: U256)

  /** The memory an operation reads or writes, by its stack arguments (vm/instructions.go). */
  function Touched(op: Byte, st: Stack): seq<Range>
    requires |st| >= Pops(op)
  {
    if op == 0x20 || op == 0xf3 || op == 0xfd || 0xa0 <= op <= 0xa4 then [Range(Back(st, 0), Back(st, 1))]
    else if op == 0x37 || op == 0x39 || op == 0x3e then [Range(Back(st, 0), Back(st, 2))]
    else if op == 0x3c then [Range(Back(st, 1), Back(st, 3))]
    else if op == 0x51 || op == 0x52 then [Range(Back(st, 0), 32)]
    else if op == 0x53 then [Range(Back(st, 0), 1)]
    else if op == 0x5e then [Range(Back(st, 0), Back(st, 2)), Range(Back(st, 1), Back(st, 2))]
    else if op == 0xf0 || op == 0xf5 then [Range(Back(st, 1), Back(st, 2))]
    else if op == 0xf1 || op == 0xf2 then [Range(Back(st, 3), Back(st, 4)), Range(Back(st, 5), Back(st, 6))]
    else if op == 0xf4 || op == 0xfa then [Range(Back(st, 2), Back(st, 3)), Range(Back(st, 4), Back(st, 5))]
    else []
  }

  /** calcMemSize64: None is an overflow of uint64. */
  function CalcMemSize(off: U256, len: U256): Option<nat> {
    if len >= TWO64 then None
    else if len == 0 then Some(0)
    else if off >= TWO64 then None
    else if off + len >= TWO64 then None
    else Some(off + len)
  }

  function Larger(a: Option<nat>, b: Option<nat>): Option<nat> {
    if a.None? || b.None? then None else if a.value > b.value then a else b
  }

  /** The memorySize functions of vm/memory_table.go; operations without one ask for nothing. */
  function MemorySize(op: Byte, st: Stack): Option<nat>
    requires |st| >= Pops(op)
  {
    if op == 0x20 || op == 0xf3 || op == 0xfd || 0xa0 <= op <= 0xa4 then CalcMemSize(Back(st, 0), Back(st, 1))
    else if op == 0x37 || op == 0x39 || op == 0x3e then CalcMemSize(Back(st, 0), Back(st, 2))
    else if op == 0x3c then CalcMemSize(Back(st, 1), Back(st, 3))
    else if op == 0x51 || op == 0x52 then CalcMemSize(Back(st, 0), 32)
    else if op == 0x53 then CalcMemSize(Back(st, 0), 1)
    else if op == 0x5e then CalcMemSize(if Back(st, 1) > Back(st, 0) then Back(st, 1) else Back(st, 0), Back(st, 2))
    else if op == 0xf0 || op == 0xf5 then CalcMemSize(Back(st, 1), Back(st, 2))
    else if op == 0xf1 || op == 0xf2 then
      Larger(CalcMemSize(Back(st, 5), Back(st, 6)), CalcMemSize(Back(st, 3), Back(st, 4)))
    else if op == 0xf4 || op == 0xfa then
      Larger(CalcMemSize(Back(st, 4), Back(st, 5)), CalcMemSize(Back(st, 2), Back(st, 3)))
    else Some(0)
  }

  /** toWordSize then SafeMul by 32: None when the rounded size no longer fits a uint64. */
  function Rounded(size: nat): Option<nat> {
    var words := if size > TWO64 - 1 - 31 then (TWO64 - 1) / 32 + 1 else (size + 31) / 32;
    if words * 32 >= TWO64 then None else Some(words * 32)
  }

  lemma RoundedUp(size: nat)
    requires size < TWO64
    ensures Rounded(size).Some? <==> size <= TWO64 - 32
    ensures Rounded(size).Some? ==> Rounded(size).value % 32 == 0 && size <= Rounded(size).value < size + 32
  {
  }

  /** Nothing is accessed, or the range lies below n and no argument was truncated. */
  predicate Within(r: Range, n: nat) {
    r.size == 0 || (r.size < TWO64 && r.offset < TWO64 && r.offset + r.size <= n)
  }

  /** MAIN: a memorySize that does not overflow covers every range the operation touches,
      both ranges of a call and of MCOPY, and zero-length ranges at any offset. */
  lemma SizeCoversTouched(op: Byte, st: Stack, i: nat)
    requires |st| >= Pops(op) && MemorySize(op, st).Some? && i < |Touched(op, st)|
    ensures Within(Touched(op, st)[i], MemorySize(op, st).value)
  {
  }

  // ----- and no more memory than that -----

  /** One past the last byte of a range; an empty range needs none. */
  function EndOf(r: Range): nat {
    if r.size == 0 then 0 else r.offset + r.size
  }

  /** The least number of bytes that holds all the ranges. */
  function Needed(ranges: seq<Range>): (n: nat) {
    if ranges == [] then 0
    else
      var rest, last := Needed(ranges[..|ranges| - 1]), EndOf(ranges[|ranges| - 1]);
      if last > rest then last else rest
  }

  lemma {:induction false} NeededIsLeast(ranges: seq<Range>, n: nat)
    ensures Needed(ranges) <= n <==> forall i :: 0 <= i < |ranges| ==> EndOf(ranges[i]) <= n
  {
    if ranges != [] {
      var front := ranges[..|ranges| - 1];
      NeededIsLeast(front, n);
      assert forall i :: 0 <= i < |front| ==> ranges[i] == front[i];
    }
  }

  lemma OneNeeded(r: Range)
    ensures Needed([r]) == EndOf(r)
  {
    assert [r][..0] == [];
  }

  lemma TwoNeeded(r: Range, q: Range)
    ensures Needed([r, q]) == if EndOf(q) > EndOf(r) then EndOf(q) else EndOf(r)
  {
    assert [r, q][..1] == [r];
    OneNeeded(r);
  }

  /** A memorySize function answers what is needed, or that it does not fit a uint64. */
  lemma CalcIs(r: Range)
    ensures CalcMemSize(r.offset, r.size) == if EndOf(r) < TWO64 then Some(EndOf(r)) else None
  {
  }

  /** MAIN: the memory table asks for exactly the bytes that the operation touches. */
  lemma SizeIsNeeded(op: Byte, st: Stack)
    requires |st| >= Pops(op)
    ensures MemorySize(op, st) ==
            if Needed(Touched(op, st)) < TWO64 then Some(Needed(Touched(op, st))) else None
  {
    var ranges := Touched(op, st);
    if |ranges| == 1 {
      CalcIs(ranges[0]);
      OneNeeded(ranges[0]);
    } else if |ranges| == 2 {
      CalcIs(ranges[0]);
      CalcIs(ranges[1]);
      TwoNeeded(ranges[0], ranges[1]);
    }
  }

  /** Whole words. */
  function InWords(n: nat): nat {
    (n + 31) / 32 * 32
  }

  lemma RoundedIsInWords(size: nat)
    requires size < TWO64
    ensures Rounded(size) == if InWords(size) < TWO64 then Some(InWords(size)) else None
  {
  }

  /** The size that the loop resizes to, or an overflow. */
  lemma AskedSize(op: Byte, st: Stack)
    requires |st| >= Pops(op)
    ensures var asked := MemorySize(op, st);
            var words := InWords(Needed(Touched(op, st)));
            if asked.None? then words >= TWO64
            else Rounded(asked.value) == if words < TWO64 then Some(words) else None
  {
    SizeIsNeeded(op, st);
    if MemorySize(op, st).Some? { RoundedIsInWords(MemorySize(op, st).value); }
  }

  /** Memory after the resize: as long as it was, or just long enough, with zeros added. */
  function Grown(memory: seq<Byte>, ranges: seq<Range>): (grown: seq<Byte>) {
    var size := InWords(Needed(ranges));
    if size > |memory| then memory + seq(size - |memory|, _ => 0) else memory
  }

  /** MAIN: memory that is whole words grows to the shortest whole words that hold it and
      every range, and to nothing more. */
  lemma GrownIsLeast(memory: seq<Byte>, ranges: seq<Range>, n: nat)
    requires |memory| % 32 == 0 && n % 32 == 0
    ensures |Grown(memory, ranges)| % 32 == 0 && memory <= Grown(memory, ranges)
    ensures |Grown(memory, ranges)| <= n <==>
            |memory| <= n && forall i :: 0 <= i < |ranges| ==> EndOf(ranges[i]) <= n
  {
    NeededIsLeast(ranges, n);
    WordsLeast(Needed(ranges), n);
  }

  lemma WordsLeast(x: nat, n: nat)
    requires n % 32 == 0
    ensures InWords(x) % 32 == 0 && x <= InWords(x) && (InWords(x) <= n <==> x <= n)
  {
  }

  // ----- the program counter -----

  /** On an instruction boundary of the linear walk, or past the end. */
  predicate Boundary(code: Code, pc: nat) {
    pc >= |code| || IsStart(code, pc)
  }

  /** MAIN: from a boundary, stepping over an instruction and its data, or jumping to a
      valid destination, leads to a boundary. */
  lemma BoundaryKept(code: Code, pc: nat, next: nat)
    requires pc < |code| && Boundary(code, pc)
    requires next == pc + 1 + PushSize(code[pc]) || JumpTarget(code, next)
    ensures Boundary(code, next)
  {
    if next == pc + 1 + PushSize(code[pc]) { ReachesNext(code, 0, pc); }
  }

  function Wrap64(x: int): nat {
    x % 0x1_0000_0000_0000_0000
  }

  /** The jump writes dest - 1 and the loop adds one: 0 goes through 2^64 - 1. */
  lemma JumpWraps(dest: nat)
    requires dest < TWO64
    ensures Wrap64(Wrap64(dest - 1) + 1) == dest
  {
    if dest == 0 { assert Wrap64(-1) == TWO64 - 1; }
  }

  // ----- bytes and words -----

  function Pow256(n: nat): (r: nat)
    ensures r > 0
  {
    if n == 0 then 1 else 256 * Pow256(n - 1)
  }

  /** SetBytes: the number a big-endian byte string stands for. */
  function BigEndian(bytes: seq<Byte>): (x: nat)
    ensures x < Pow256(|bytes|)
  {
    if bytes == [] then 0 else 256 * BigEndian(bytes[..|bytes| - 1]) + bytes[|bytes| - 1]
  }

  lemma PowWord()
    ensures Pow256(32) == TWO256
  {
    assert Pow256(4) == 0x1_0000_0000;
    PowAdds(4, 4);
    PowAdds(8, 8);
    PowAdds(16, 16);
  }

  lemma WordFits(bytes: seq<Byte>)
    requires |bytes| <= 32
    ensures BigEndian(bytes) < TWO256
  {
    PowGrows(|bytes|, 32);
    PowWord();
  }

  /** At most 32 bytes make a word. */
  function Word(bytes: seq<Byte>): (x: U256)
    requires |bytes| <= 32
    ensures x == BigEndian(bytes)
  {
    WordFits(bytes);
    BigEndian(bytes)
  }

  lemma {:induction false} PowGrows(m: nat, n: nat)
    requires m <= n
    ensures Pow256(m) <= Pow256(n)
  {
    if m < n { PowGrows(m, n - 1); }
  }

  lemma {:induction false} PowAdds(m: nat, n: nat)
    ensures Pow256(m + n) == Pow256(m) * Pow256(n)
  {
    if n > 0 {
      PowAdds(m, n - 1);
      assert m + n - 1 == m + (n - 1);
      Regroup(Pow256(m), Pow256(n - 1));
    }
  }

  /** The first byte counts most. */
  lemma {:induction false} HighByteFirst(b: Byte, rest: seq<Byte>)
    ensures BigEndian([b] + rest) == b * Pow256(|rest|) + BigEndian(rest)
  {
    if rest == [] {
      assert [b] + rest == [b] && [b][..0] == [];
    } else {
      var n := |rest| - 1;
      assert ([b] + rest)[..|rest|] == [b] + rest[..n];
      HighByteFirst(b, rest[..n]);
      Regroup(b, Pow256(n));
    }
  }

  lemma Regroup(a: nat, b: nat)
    ensures 256 * (a * b) == a * (256 * b)
  {
  }

  /** Bytes32 and byte(): the low n bytes of a number, highest first. */
  function Digits(x: nat, n: nat): (bytes: seq<Byte>)
    ensures |bytes| == n
  {
    if n == 0 then [] else Digits(x / 256, n - 1) + [x % 256]
  }

  /** A stored word reads back as the number stored. */
  lemma {:induction false} WordRoundTrip(x: nat, n: nat)
    requires x < Pow256(n)
    ensures BigEndian(Digits(x, n)) == x
  {
    if n > 0 {
      WordRoundTrip(x / 256, n - 1);
      assert Digits(x, n)[..n - 1] == Digits(x / 256, n - 1);
    }
  }

  /** MLOAD reads what MSTORE wrote. */
  lemma StoreThenLoad(before: seq<Byte>, after: seq<Byte>, offset: nat, x: U256)
    requires offset < TWO256 && offset + 32 <= |before| && Overwritten(before, after, offset, 32, Digits(x, 32))
    ensures BigEndian(Slice(after, Range(offset, 32))) == x
  {
    PowWord();
    WordRoundTrip(x, 32);
    assert Slice(after, Range(offset, 32)) == Digits(x, 32);
  }

  /** getData and RightPadBytes: a window of a buffer, zeros past its end. */
  function Window(data: seq<Byte>, start: nat, size: nat): (bytes: seq<Byte>)
    ensures |bytes| == size
    ensures forall i :: 0 <= i < size ==> bytes[i] == if start + i < |data| then data[start + i] else 0
  {
    seq(size, i requires 0 <= i < size => if start + i < |data| then data[start + i] else 0)
  }

  /** getData, bounds first and padding after. */
  method GetData(data: seq<Byte>, start: nat, size: nat) returns (bytes: seq<Byte>)
    ensures bytes == Window(data, start, size)
  {
    var from := if start > |data| then |data| else start;
    var end := if from + size > |data| then |data| else from + size;
    bytes := data[from..end] + seq(size - (end - from), _ => 0);
  }

  /** Only `size` bytes from `offset` on changed, and those took the data there is. */
  ghost predicate Overwritten(before: seq<Byte>, after: seq<Byte>, offset: nat, size: nat, data: seq<Byte>) {
    |after| == |before| &&
    forall i :: 0 <= i < |after| ==>
      after[i] == if offset <= i < offset + size && i - offset < |data| then data[i - offset] else before[i]
  }

  /** Memory outside the ranges an operation touches is what it was. */
  ghost predicate UntouchedKept(ranges: seq<Range>, before: seq<Byte>, after: seq<Byte>) {
    |before| <= |after| &&
    forall i :: 0 <= i < |before| && OutsideAll(ranges, i) ==> after[i] == before[i]
  }

  predicate OutsideAll(ranges: seq<Range>, i: nat) {
    forall k :: 0 <= k < |ranges| ==> !(ranges[k].offset <= i < ranges[k].offset + ranges[k].size)
  }

  lemma OverwrittenKept(ranges: seq<Range>, k: nat, before: seq<Byte>, after: seq<Byte>, data: seq<Byte>)
    requires k < |ranges| && Overwritten(before, after, ranges[k].offset, ranges[k].size, data)
    ensures UntouchedKept(ranges, before, after)
  {
  }

  lemma KeptThrough(ranges: seq<Range>, before: seq<Byte>, grown: seq<Byte>, after: seq<Byte>)
    requires before <= grown && UntouchedKept(ranges, grown, after)
    ensures UntouchedKept(ranges, before, after)
  {
  }

  function Slice(memory: seq<Byte>, r: Range): seq<Byte> {
    if r.size == 0 || r.offset + r.size > |memory| then [] else memory[r.offset..r.offset + r.size]
  }

  // ----- the machine -----

  /** What an operation brings in from outside: the values it pushes, the buffer it copies
      from or a call's return data, whether a call's return data is written, and whether
      the operation fails on its own account. */
  datatype Input = Input(results: seq<U256>, data: seq<Byte>, writes: bool, fails: bool)

  /** As many results as the operation pushes. */
  function Results(op: Byte, input: Input): (r: seq<U256>)
    ensures |r| == Pushes(op)
  {
    seq(Pushes(op), i requires 0 <= i => if i < |input.results| then input.results[i] else 0)
  }

  /** What an operation that touches no memory leaves on top: PC and MSIZE from the machine,
      the others from outside. */
  function Pushed(op: Byte, pc: U64, size: U64, input: Input): (r: seq<U256>)
    ensures |r| == Pushes(op)
  {
    if op == 0x58 then [pc] else if op == 0x59 then [size] else Results(op, input)
  }

  // ----- what an operation does, memory being large enough -----

  /** The arguments gone and `values` in their place. */
  ghost predicate Leaves(op: Byte, st: Stack, after: Stack, values: seq<int>)
    requires |st| >= Pops(op)
  {
    |after| == |st| - Pops(op) + |values| && st[..|st| - Pops(op)] <= after &&
    forall i :: 0 <= i < |values| ==> after[|st| - Pops(op) + i] == values[i]
  }

  ghost predicate StackEffect(op: Byte, code: Code, pc: U64, input: Input, st: Stack, memory: seq<Byte>, after: Stack)
    requires |st| >= Pops(op) && |memory| < TWO64
  {
    if 0x5f <= op <= 0x7f then Leaves(op, st, after, [BigEndian(Window(code, pc + 1, PushSize(op)))])
    else if 0x80 <= op <= 0x8f then after == st + [Back(st, op - 0x80)]
    else if 0x90 <= op <= 0x9f then
      after == st[|st| - 1 := Back(st, op - 0x8f)][|st| - 1 - (op - 0x8f) := Back(st, 0)]
    else if op == 0x51 then Leaves(op, st, after, [BigEndian(Slice(memory, Range(Back(st, 0), 32)))])
    else Leaves(op, st, after, Pushed(op, pc, |memory|, input))
  }

  ghost predicate MemoryEffect(op: Byte, code: Code, input: Input, st: Stack, before: seq<Byte>, after: seq<Byte>)
    requires |st| >= Pops(op)
  {
    if op == 0x52 then Overwritten(before, after, Back(st, 0), 32, Digits(Back(st, 1), 32))
    else if op == 0x53 then Overwritten(before, after, Back(st, 0), 1, Digits(Back(st, 1), 1))
    else if op == 0x5e then
      Overwritten(before, after, Back(st, 0), Back(st, 2), Slice(before, Range(Back(st, 1), Back(st, 2))))
    else if op == 0x39 then
      Overwritten(before, after, Back(st, 0), Back(st, 2), Window(code, Back(st, 1), Back(st, 2)))
    else if op == 0x37 || op == 0x3e then
      Overwritten(before, after, Back(st, 0), Back(st, 2), Window(input.data, Back(st, 1), Back(st, 2)))
    else if op == 0x3c then
      Overwritten(before, after, Back(st, 1), Back(st, 3), Window(input.data, Back(st, 2), Back(st, 3)))
    else if op == 0xf1 || op == 0xf2 then
      Overwritten(before, after, Back(st, 5), Back(st, 6), if input.writes then input.data else [])
    else if op == 0xf4 || op == 0xfa then
      Overwritten(before, after, Back(st, 4), Back(st, 5), if input.writes then input.data else [])
    else after == before
  }

  datatype Outcome = Continue | Stop | Underflow | Overflow | SizeOverflow | BadJump | OpError

  /** How an operation ends whose stack items and memory are there. */
  function Ending(op: Byte, code: Code, st: Stack, input: Input): Outcome
    requires |st| >= Pops(op)
  {
    if input.fails then OpError
    else if Halts(op) then Stop
    else if Jumps(op, st) && !JumpTarget(code, Back(st, 0)) then BadJump
    else if op == 0x3e && PastEnd(Back(st, 1), Back(st, 2), input.data) then OpError
    else Continue
  }

  /** JUMP, and JUMPI with a condition that is not zero. */
  predicate Jumps(op: Byte, st: Stack)
    requires |st| >= Pops(op)
  {
    op == 0x56 || (op == 0x57 && Back(st, 1) != 0)
  }

  /** Past the instruction and its data, or at the destination. */
  function NextPc(op: Byte, pc: nat, st: Stack): nat
    requires |st| >= Pops(op)
  {
    if Jumps(op, st) then Back(st, 0) else pc + 1 + PushSize(op)
  }

  /** How a turn ends, whatever the operation. */
  function TurnEnds(op: Byte, code: Code, pc: nat, st: Stack, input: Input): Outcome {
    if |st| < Pops(op) then Underflow
    else if |st| > STACK_LIMIT + Pops(op) - Pushes(op) then Overflow
    else if InWords(Needed(Touched(op, st))) >= TWO64 then SizeOverflow
    else if !Defined(op) then OpError
    else if pc >= |code| then Stop
    else Ending(op, code, st, input)
  }

  class Machine {
    const contract: Contract
    var pc: nat
    var stack: Stack
    var memory: seq<Byte>

    constructor (contract: Contract)
      requires contract.Valid() && |contract.code| + 33 < TWO64
      ensures this.contract == contract && Valid()
      ensures pc == 0 && stack == [] && memory == []
    {
      this.contract, pc, stack, memory := contract, 0, [], [];
    }

    ghost predicate Valid()
      reads this, contract, contract.jumpdests
    {
      && contract.Valid() && |contract.code| + 33 < TWO64
      && pc < TWO64 && Boundary(contract.code, pc)
      && |stack| <= STACK_LIMIT
      && |memory| % 32 == 0 && |memory| < TWO64
    }

    // The primitives; their preconditions are the conditions under which Go would panic.

    method Pop() returns (x: U256)
      requires |stack| > 0
      modifies this`stack
      ensures x == old(stack[|stack| - 1]) && stack == old(stack[..|stack| - 1])
    {
      x := stack[|stack| - 1];
      stack := stack[..|stack| - 1];
    }

    method Push(x: U256)
      modifies this`stack
      ensures stack == old(stack) + [x]
    {
      stack := stack + [x];
    }

    /** GetPtr and GetCopy with 64-bit truncated arguments. */
    method Read(offset: U256, size: U256) returns (bytes: seq<Byte>)
      requires Within(Range(offset, size), |memory|)
      ensures bytes == Slice(memory, Range(offset, size))
    {
      var off, n := offset % TWO64, size % TWO64;
      if n == 0 { return []; }
      bytes := memory[off..off + n];
    }

    /** Memory.Set: copies at most size bytes of data. */
    method Write(offset: U256, size: U256, data: seq<Byte>)
      requires Within(Range(offset, size), |memory|)
      modifies this`memory
      ensures Overwritten(old(memory), memory, offset, size, data)
    {
      var off, n := offset % TWO64, size % TWO64;
      if n > 0 {
        var k := if |data| < n then |data| else n;
        memory := memory[..off] + data[..k] + memory[off + k..];
      }
    }

    method Resize(size: nat)
      modifies this`memory
      ensures |memory| == (if size > |old(memory)| then size else |old(memory)|)
      ensures old(memory) <= memory && forall i :: |old(memory)| <= i < |memory| ==> memory[i] == 0
    {
      if |memory| < size {
        memory := memory + seq(size - |memory|, _ => 0);
      }
    }

    /** What every operation starts from: its stack items are there and, after the resize,
        so is the memory it will touch. */
    ghost predicate Ready(op: Byte)
      reads this, contract, contract.jumpdests
    {
      && Valid() && pc < |contract.code| && contract.code[pc] == op && Defined(op)
      && Pops(op) <= |stack| && |stack| + Pushes(op) <= STACK_LIMIT + Pops(op)
      && forall i :: 0 <= i < |Touched(op, stack)| ==> Within(Touched(op, stack)[i], |memory|)
    }

    /** What an operation that goes on has done to the stack. */
    ghost predicate Replaced(op: Byte, before: Stack)
      requires |before| >= Pops(op)
      reads this
    {
      |stack| == |before| - Pops(op) + Pushes(op) && before[..|before| - Pops(op)] <= stack
    }

    /** The arguments of an operation, popped one after the other. */
    method PopMany(n: nat) returns (xs: seq<U256>)
      requires n <= |stack|
      modifies this`stack
      ensures |xs| == n && stack == old(stack)[..|old(stack)| - n]
      ensures forall i :: 0 <= i < n ==> xs[i] == Back(old(stack), i)
    {
      xs := [];
      for i := 0 to n
        invariant |xs| == i && stack == old(stack)[..|old(stack)| - i]
        invariant forall j :: 0 <= j < i ==> xs[j] == Back(old(stack), j)
      {
        var x := Pop();
        xs := xs + [x];
      }
    }

    /** PUSH0 to PUSH32: the value is the data bytes, zeros past the end of the code, and
        the counter steps over them. */
    method ExecPush(op: Byte)
      requires Ready(op) && 0x5f <= op <= 0x7f
      modifies this`pc, this`stack
      ensures Replaced(op, old(stack)) && pc == old(pc) + PushSize(op)
      ensures stack[|stack| - 1] == BigEndian(Window(contract.code, old(pc) + 1, PushSize(op)))
    {
      var n := PushSize(op);
      var bytes := GetData(contract.code, pc + 1, n);
      Push(Word(bytes));
      pc := Wrap64(pc + n);
    }

    method ExecDup(op: Byte)
      requires Ready(op) && 0x80 <= op <= 0x8f
      modifies this`stack
      ensures Replaced(op, old(stack)) && stack == old(stack) + [Back(old(stack), op - 0x80)]
    {
      Push(stack[|stack| - (op - 0x7f)]);
    }

    method ExecSwap(op: Byte)
      requires Ready(op) && 0x90 <= op <= 0x9f
      modifies this`stack
      ensures Replaced(op, old(stack)) && multiset(stack) == multiset(old(stack))
      ensures var top, n := |old(stack)| - 1, op - 0x8f;
        stack == old(stack)[top := Back(old(stack), n)][top - n := Back(old(stack), 0)]
    {
      var top, other := |stack| - 1, |stack| - (op - 0x8e);
      stack := stack[top := stack[other]][other := stack[top]];
    }

    /** JUMP and JUMPI; the loop's increment is still to come. */
    method ExecJump(op: Byte) returns (out: Outcome, jumped: bool)
      requires Ready(op) && (op == 0x56 || op == 0x57)
      modifies this`pc, this`stack, contract, contract.jumpdests
      ensures contract.Valid() && (out == Continue || out == BadJump) && |stack| <= |old(stack)|
      ensures out == Continue ==> Replaced(op, old(stack))
      ensures out == BadJump || !jumped ==> pc == old(pc)
      ensures out == Continue && jumped ==>
        pc == Wrap64((Back(old(stack), 0) as int) - 1) && JumpTarget(contract.code, Back(old(stack), 0))
      ensures out == BadJump ==> !JumpTarget(contract.code, Back(old(stack), 0))
      ensures jumped || out == BadJump <==> op == 0x56 || Back(old(stack), 1) != 0
    {
      var pos := Pop();
      jumped := true;
      if op == 0x57 {
        var cond := Pop();
        jumped := cond != 0;
      }
      if jumped {
        var ok := contract.ValidJumpdest(pos);
        if !ok { return BadJump, false; }
        var target: int := pos;
        pc := Wrap64(target - 1);
      }
      out := Continue;
    }

    /** LOG0 to LOG4, KECCAK256, CREATE and CREATE2 read one range. */
    method ExecRead(op: Byte, results: seq<U256>) returns (bytes: seq<Byte>)
      requires Ready(op) && (op == 0x20 || 0xa0 <= op <= 0xa4 || op == 0xf0 || op == 0xf5) && |results| == Pushes(op)
      modifies this`stack
      ensures Replaced(op, old(stack)) && Leaves(op, old(stack), stack, results)
      ensures bytes == Slice(memory, Touched(op, old(stack))[0])
    {
      assert Within(Touched(op, stack)[0], |memory|);
      var xs := PopMany(Pops(op));
      var at := if op == 0xf0 || op == 0xf5 then 1 else 0;
      bytes := Read(xs[at], xs[at + 1]);
      stack := stack + results;
    }

    /** CALLDATACOPY, CODECOPY and EXTCODECOPY write a window of a buffer, zeros past its
        end; RETURNDATACOPY refuses a window that is not inside the buffer. */
    method ExecCopy(op: Byte, data: seq<Byte>) returns (out: Outcome)
      requires Ready(op) && (op == 0x37 || op == 0x39 || op == 0x3e || op == 0x3c)
      modifies this`stack, this`memory
      ensures Replaced(op, old(stack)) && out in {Continue, OpError}
      ensures out == OpError <==>
        op == 0x3e && PastEnd(Back(old(stack), 1), Back(old(stack), 2), data)
      ensures out == OpError ==> memory == old(memory)
      ensures out == Continue ==>
        var r := Touched(op, old(stack))[0];
        var from := Back(old(stack), if op == 0x3c then 2 else 1);
        Overwritten(old(memory), memory, r.offset, r.size, Window(data, from, r.size))
    {
      assert Within(Touched(op, stack)[0], |memory|);
      var xs := PopMany(Pops(op));
      var at := if op == 0x3c then 1 else 0;
      var from, size := xs[at + 1], xs[at + 2];
      if op == 0x3e && PastEnd(from, size, data) { return OpError; }
      var bytes := GetData(data, from, size);
      Write(xs[at], size, bytes);
      out := Continue;
    }

    method ExecMload(ghost input: Input)
      requires Ready(0x51)
      modifies this`stack
      ensures Replaced(0x51, old(stack)) && StackEffect(0x51, contract.code, pc, input, old(stack), memory, stack)
      ensures stack[|stack| - 1] == BigEndian(Slice(memory, Range(Back(old(stack), 0), 32)))
    {
      assert Within(Touched(0x51, stack)[0], |memory|);
      var offset := Pop();
      var bytes := Read(offset, 32);
      Push(Word(bytes));
    }

    /** MSTORE writes the 32 bytes of the value, MSTORE8 its lowest. */
    method ExecMstore(op: Byte)
      requires Ready(op) && (op == 0x52 || op == 0x53)
      modifies this`stack, this`memory
      ensures Replaced(op, old(stack))
      ensures var n := if op == 0x52 then 32 else 1;
        Overwritten(old(memory), memory, Back(old(stack), 0), n, Digits(Back(old(stack), 1), n))
    {
      assert Within(Touched(op, stack)[0], |memory|);
      var xs := PopMany(2);
      var n := if op == 0x52 then 32 else 1;
      Write(xs[0], n, Digits(xs[1], n));
    }

    /** MCOPY: the destination takes what the source range held before, overlapping or not. */
    method ExecMcopy()
      requires Ready(0x5e)
      modifies this`stack, this`memory
      ensures Replaced(0x5e, old(stack))
      ensures var ranges := Touched(0x5e, old(stack));
        Overwritten(old(memory), memory, ranges[0].offset, ranges[0].size, Slice(old(memory), ranges[1]))
    {
      assert Within(Touched(0x5e, stack)[0], |memory|) && Within(Touched(0x5e, stack)[1], |memory|);
      var xs := PopMany(3);
      var bytes := Read(xs[1], xs[2]);
      Write(xs[0], xs[2], bytes);
    }

    /** CALL, CALLCODE, DELEGATECALL and STATICCALL: arguments are read before the call, the
        return data is written after it if the call succeeded or reverted. */
    method ExecCall(op: Byte, result: U256, ret: seq<Byte>, writes: bool) returns (args: seq<Byte>)
      requires Ready(op) && (op == 0xf1 || op == 0xf2 || op == 0xf4 || op == 0xfa)
      modifies this`stack, this`memory
      ensures Replaced(op, old(stack)) && stack[|stack| - 1] == result
      ensures args == Slice(old(memory), Touched(op, old(stack))[0])
      ensures var r := Touched(op, old(stack))[1];
        Overwritten(old(memory), memory, r.offset, r.size, if writes then ret else [])
    {
      assert Within(Touched(op, stack)[0], |memory|) && Within(Touched(op, stack)[1], |memory|);
      var xs := PopMany(Pops(op));
      var at := if op == 0xf1 || op == 0xf2 then 3 else 2;
      args := Read(xs[at], xs[at + 1]);
      Push(result);
      if writes { Write(xs[at + 2], xs[at + 3], ret); }
    }

    /** The operations that only exchange stack items. */
    method ExecPlain(op: Byte, results: seq<U256>)
      requires Ready(op) && |results| == Pushes(op)
      modifies this`stack
      ensures Replaced(op, old(stack)) && Leaves(op, old(stack), stack, results)
    {
      var _ := PopMany(Pops(op));
      stack := stack + results;
    }

    /** The table's execute functions; memory changes only in the ranges of Touched. */
    method Execute(op: Byte, input: Input) returns (out: Outcome, ghost jumped: bool)
      requires Ready(op)
      modifies this, contract, contract.jumpdests
      ensures contract.Valid() && |memory| == |old(memory)|
      ensures UntouchedKept(Touched(op, old(stack)), old(memory), memory)
      ensures out == Continue ==> !Halts(op) && Replaced(op, old(stack))
      ensures out == Continue ==>
        StackEffect(op, contract.code, old(pc), input, old(stack), old(memory), stack) &&
        MemoryEffect(op, contract.code, input, old(stack), old(memory), memory)
      ensures out == Continue && !jumped ==> pc == old(pc) + PushSize(op)
      ensures out == Continue ==> (jumped <==> Jumps(op, old(stack)))
      ensures out == Continue && jumped ==>
        pc == Wrap64((Back(old(stack), 0) as int) - 1) && JumpTarget(contract.code, Back(old(stack), 0))
      ensures Halts(op) ==> out != Continue
      ensures out != Continue ==> pc == old(pc)
      ensures out == Ending(op, contract.code, old(stack), input) && |stack| <= STACK_LIMIT
    {
      jumped := false;
      if input.fails { return OpError, false; }
      out := Continue;
      if op == 0x00 || op == 0xff {
        return Stop, false;
      } else if op == 0xf3 || op == 0xfd {
        assert Within(Touched(op, stack)[0], |memory|);
        var offset := Pop();
        var size := Pop();
        var _ := Read(offset, size);
        return Stop, false;
      } else if op == 0x56 || op == 0x57 {
        out, jumped := ExecJump(op);
      } else if MovesBytes(op) {
        out := ExecBytes(op, input);
      } else {
        ExecStack(op, input);
      }
    }

    /** The operations that touch the stack only. */
    method ExecStack(op: Byte, input: Input)
      requires Ready(op) && !MovesBytes(op) && !Halts(op) && op != 0x56 && op != 0x57
      modifies this`pc, this`stack
      ensures Replaced(op, old(stack)) && pc == old(pc) + PushSize(op)
      ensures StackEffect(op, contract.code, old(pc), input, old(stack), memory, stack)
    {
      if 0x5f <= op <= 0x7f {
        ExecPush(op);
      } else if 0x80 <= op <= 0x8f {
        ExecDup(op);
      } else if 0x90 <= op <= 0x9f {
        ExecSwap(op);
      } else {
        ExecPlain(op, Pushed(op, pc, |memory|, input));
      }
    }

    /** The operations that read or write memory and go on. */
    method ExecBytes(op: Byte, input: Input) returns (out: Outcome)
      requires Ready(op) && MovesBytes(op)
      modifies this`stack, this`memory
      ensures Replaced(op, old(stack)) && |memory| == |old(memory)|
      ensures out == if op == 0x3e && PastEnd(Back(old(stack), 1), Back(old(stack), 2), input.data) then OpError
                     else Continue
      ensures UntouchedKept(Touched(op, old(stack)), old(memory), memory)
      ensures out == Continue ==> StackEffect(op, contract.code, pc, input, old(stack), old(memory), stack)
      ensures out == Continue ==> MemoryEffect(op, contract.code, input, old(stack), old(memory), memory)
    {
      out := Continue;
      if op == 0x51 {
        ExecMload(input);
      } else if op == 0x52 || op == 0x53 || op == 0x5e {
        ExecStore(op, input);
      } else if op == 0xf1 || op == 0xf2 || op == 0xf4 || op == 0xfa {
        ExecCallFrom(op, input);
      } else if op == 0x37 || op == 0x39 || op == 0x3e || op == 0x3c {
        out := ExecCopyFrom(op, input);
      } else {
        var _ := ExecRead(op, Results(op, input));
        assert Leaves(op, old(stack), stack, Pushed(op, pc, |memory|, input));
      }
    }

    method ExecCallFrom(op: Byte, input: Input)
      requires Ready(op) && (op == 0xf1 || op == 0xf2 || op == 0xf4 || op == 0xfa)
      modifies this`stack, this`memory
      ensures Replaced(op, old(stack)) && |memory| == |old(memory)|
      ensures UntouchedKept(Touched(op, old(stack)), old(memory), memory)
      ensures StackEffect(op, contract.code, pc, input, old(stack), old(memory), stack)
      ensures MemoryEffect(op, contract.code, input, old(stack), old(memory), memory)
    {
      ghost var ranges := Touched(op, stack);
      var _ := ExecCall(op, Results(op, input)[0], input.data, input.writes);
      assert Pushed(op, pc, |memory|, input) == [Results(op, input)[0]];
      OverwrittenKept(ranges, 1, old(memory), memory, if input.writes then input.data else []);
    }

    method ExecStore(op: Byte, input: Input)
      requires Ready(op) && (op == 0x52 || op == 0x53 || op == 0x5e)
      modifies this`stack, this`memory
      ensures Replaced(op, old(stack)) && |memory| == |old(memory)|
      ensures UntouchedKept(Touched(op, old(stack)), old(memory), memory)
      ensures StackEffect(op, contract.code, pc, input, old(stack), old(memory), stack)
      ensures MemoryEffect(op, contract.code, input, old(stack), old(memory), memory)
    {
      ghost var ranges := Touched(op, stack);
      if op == 0x5e {
        ExecMcopy();
        OverwrittenKept(ranges, 0, old(memory), memory, Slice(old(memory), ranges[1]));
      } else {
        ExecMstore(op);
        ghost var n := if op == 0x52 then 32 else 1;
        OverwrittenKept(ranges, 0, old(memory), memory, Digits(Back(old(stack), 1), n));
      }
    }

    /** CODECOPY from the code, the other copies from a buffer that comes in. */
    method ExecCopyFrom(op: Byte, input: Input) returns (out: Outcome)
      requires Ready(op) && (op == 0x37 || op == 0x39 || op == 0x3e || op == 0x3c)
      modifies this`stack, this`memory
      ensures Replaced(op, old(stack)) && |memory| == |old(memory)|
      ensures out == if op == 0x3e && PastEnd(Back(old(stack), 1), Back(old(stack), 2), input.data) then OpError
                     else Continue
      ensures UntouchedKept(Touched(op, old(stack)), old(memory), memory)
      ensures StackEffect(op, contract.code, pc, input, old(stack), old(memory), stack)
      ensures out == Continue ==> MemoryEffect(op, contract.code, input, old(stack), old(memory), memory)
    {
      ghost var ranges := Touched(op, stack);
      var source := if op == 0x39 then contract.code else input.data;
      out := ExecCopy(op, source);
      if out == Continue {
        ghost var from := Back(old(stack), if op == 0x3c then 2 else 1);
        OverwrittenKept(ranges, 0, old(memory), memory, Window(source, from, ranges[0].size));
      }
    }

    /** The checks before execute: stack bounds, memory size, resize. */
    method Prepare(op: Byte) returns (out: Outcome)
      requires Valid() && op == contract.GetOp(pc)
      modifies this`memory
      ensures Valid()
      ensures out in {Continue, Underflow, Overflow, SizeOverflow}
      ensures out == Continue ==> |stack| >= Pops(op) && memory == Grown(old(memory), Touched(op, stack))
      ensures out != Continue ==> memory == old(memory)
      ensures out == SizeOverflow <==>
        Pops(op) <= |stack| <= STACK_LIMIT + Pops(op) - Pushes(op) && InWords(Needed(Touched(op, stack))) >= TWO64
      ensures out == Underflow <==> |stack| < Pops(op)
      ensures out == Overflow <==> Pops(op) <= |stack| && |stack| > STACK_LIMIT + Pops(op) - Pushes(op)
      ensures out == Continue && Defined(op) && pc < |contract.code| ==> Ready(op)
    {
      if |stack| < Pops(op) { return Underflow; }
      if |stack| > STACK_LIMIT + Pops(op) - Pushes(op) { return Overflow; }
      var ok := Expand(op);
      return if ok then Continue else SizeOverflow;
    }

    /** memorySize, whole words, resize. */
    method Expand(op: Byte) returns (ok: bool)
      requires Valid() && Pops(op) <= |stack|
      modifies this`memory
      ensures Valid() && (ok <==> InWords(Needed(Touched(op, stack))) < TWO64)
      ensures memory == if ok then Grown(old(memory), Touched(op, stack)) else old(memory)
      ensures ok ==> forall i :: 0 <= i < |Touched(op, stack)| ==> Within(Touched(op, stack)[i], |memory|)
    {
      ghost var ranges := Touched(op, stack);
      AskedSize(op, stack);
      var memSize := MemorySize(op, stack);
      if memSize.None? { return false; }
      var size := Rounded(memSize.value);
      if size.None? { return false; }
      ok := true;
      Resize(size.value);
      assert memory == Grown(old(memory), ranges);
      AllCovered(op, stack, |memory|);
    }

    /** MAIN: one turn of the loop.  The machine stays valid whatever happens; how the turn
        ends is told by the stack, the code and what comes in; and if it goes on, memory grew
        by no more than the operation needs, stack and memory are what the operation makes of
        them, and the counter stands at the next instruction or at the jump's destination. */
    method Step(input: Input) returns (out: Outcome)
      requires Valid()
      modifies this, contract, contract.jumpdests
      ensures Valid() && |memory| >= |old(memory)|
      ensures out == Continue ==> Pops(contract.GetOp(old(pc))) <= |old(stack)|
      ensures out == Continue ==> var op := contract.GetOp(old(pc));
        var grown := Grown(old(memory), Touched(op, old(stack)));
        |grown| < TWO64 && |memory| == |grown| &&
        StackEffect(op, contract.code, old(pc), input, old(stack), grown, stack) &&
        MemoryEffect(op, contract.code, input, old(stack), grown, memory)
      ensures out == Continue ==>
        UntouchedKept(Touched(contract.GetOp(old(pc)), old(stack)), old(memory), memory)
      ensures out == TurnEnds(contract.GetOp(old(pc)), contract.code, old(pc), old(stack), input)
      ensures out == Continue && !MovesBytes(contract.GetOp(old(pc))) ==> memory == old(memory)
      ensures out == Continue ==> var op := contract.GetOp(old(pc));
        && old(pc) < |contract.code| && !Halts(op) && Pops(op) <= |old(stack)| && Replaced(op, old(stack))
        && pc == NextPc(op, old(pc), old(stack)) && (Jumps(op, old(stack)) ==> JumpTarget(contract.code, pc))
    {
      var op := contract.GetOp(pc);
      out := Prepare(op);
      if out != Continue { return; }
      if !Defined(op) { return OpError; }
      if pc >= |contract.code| { return Stop; }
      ghost var ranges, grown := Touched(op, stack), memory;
      out := Turn(op, input);
      KeptThrough(ranges, old(memory), grown, memory);
    }

    /** Execute, then advance the counter. */
    method Turn(op: Byte, input: Input) returns (out: Outcome)
      requires Ready(op)
      modifies this, contract, contract.jumpdests
      ensures Valid() && |memory| == |old(memory)| && out == Ending(op, contract.code, old(stack), input)
      ensures UntouchedKept(Touched(op, old(stack)), old(memory), memory)
      ensures out == Continue ==> !Halts(op) && Replaced(op, old(stack))
      ensures out == Continue ==>
        StackEffect(op, contract.code, old(pc), input, old(stack), old(memory), stack) &&
        MemoryEffect(op, contract.code, input, old(stack), old(memory), memory)
      ensures out == Continue ==>
        pc == NextPc(op, old(pc), old(stack)) && (Jumps(op, old(stack)) ==> JumpTarget(contract.code, pc))
    {
      ghost var at := pc;
      ghost var jumped;
      out, jumped := Execute(op, input);
      if out == Continue {
        Advance(op, at, jumped, if jumped then Back(old(stack), 0) else at + 1 + PushSize(op));
      }
    }

    /** The loop's increment, after a jump that went one short of its destination or not. */
    method Advance(op: Byte, ghost at: nat, ghost jumped: bool, ghost dest: nat)
      requires |contract.code| + 33 < TWO64 && at < |contract.code| && contract.code[at] == op
      requires Boundary(contract.code, at)
      requires jumped ==> pc == Wrap64((dest as int) - 1) && JumpTarget(contract.code, dest)
      requires !jumped ==> pc + 1 == dest == at + 1 + PushSize(op)
      modifies this`pc
      ensures pc == dest && pc < TWO64 && Boundary(contract.code, pc)
    {
      if jumped { JumpWraps(dest); }
      BoundaryKept(contract.code, at, dest);
      pc := Wrap64(pc + 1);
    }

    /** MAIN: any number of turns, with anything coming in from outside. */
    method Run(inputs: seq<Input>) returns (out: Outcome, steps: nat)
      requires Valid()
      modifies this, contract, contract.jumpdests
      ensures Valid() && |memory| >= |old(memory)| && steps <= |inputs|
      ensures out == Continue ==> steps == |inputs|
    {
      out, steps := Continue, 0;
      while steps < |inputs| && out == Continue
        invariant Valid() && |memory| >= |old(memory)| && steps <= |inputs|
      {
        out := Step(inputs[steps]);
        steps := steps + 1;
      }
    }
  }

  /** RETURNDATACOPY's refusal. */
  predicate PastEnd(from: U256, size: U256, data: seq<Byte>) {
    from >= TWO64 || from + size >= TWO64 || |data| < from + size
  }

  /** The operations that read or write memory and go on. */
  predicate MovesBytes(op: Byte) {
    op == 0x20 || op == 0x37 || op == 0x39 || op == 0x3c || op == 0x3e || op == 0x51 || op == 0x52 || op == 0x53
    || op == 0x5e || 0xa0 <= op <= 0xa4 || op == 0xf0 || op == 0xf1 || op == 0xf2 || op == 0xf4 || op == 0xf5
    || op == 0xfa
  }

  lemma CoveredByRounded(op: Byte, st: Stack, i: nat, len: nat)
    requires |st| >= Pops(op) && MemorySize(op, st).Some? && i < |Touched(op, st)|
    requires Rounded(MemorySize(op, st).value).Some? && Rounded(MemorySize(op, st).value).value <= len
    ensures Within(Touched(op, st)[i], len)
  {
    SizeCoversTouched(op, st, i);
    SizeFits(op, st);
    RoundedUp(MemorySize(op, st).value);
  }

  lemma AllCovered(op: Byte, st: Stack, len: nat)
    requires |st| >= Pops(op) && MemorySize(op, st).Some?
    requires Rounded(MemorySize(op, st).value).Some? && Rounded(MemorySize(op, st).value).value <= len
    ensures forall i :: 0 <= i < |Touched(op, st)| ==> Within(Touched(op, st)[i], len)
  {
    forall i | 0 <= i < |Touched(op, st)| ensures Within(Touched(op, st)[i], len) { CoveredByRounded(op, st, i, len); }
  }

  lemma SizeFits(op: Byte, st: Stack)
    requires |st| >= Pops(op) && MemorySize(op, st).Some?
    ensures MemorySize(op, st).value < TWO64
  {
  }
}

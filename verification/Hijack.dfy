/**
 symbol_hijack and symbol_restore of project/hijacks.c over a mutable memory.
 What lies outside that file is a parameter of the methods: the outcome of the symbol
 lookup, the buffer that malloc hands out (0 for none) and the instruction decoder.
 */
module Hijack {
  import opened CodeOffsets
  import opened Relocation
  import opened RelocatedFlow

  const OP_JMP_SIZE: nat := 5

  // Neither an instruction nor a field written at its end goes on for longer.
  const SLACK: nat := WINDOW + 4

  // 0, -EFAULT, -ENOMEM, -EILSEQ
  datatype Outcome = Done | Fault | NoMemory | IllegalSequence

  datatype Lookup = Missing | Found(addr: nat, size: nat)

  // ---------- Bytes ----------

  lemma SpliceFacts(mem: seq<Byte>, at: nat, bytes: seq<Byte>)
    requires at + |bytes| <= |mem|
    ensures Holds(Splice(mem, at, bytes), at, bytes)
    ensures forall a :: 0 <= a < |mem| && !(at <= a < at + |bytes|) ==> Splice(mem, at, bytes)[a] == mem[a]
  {
  }

  lemma SpliceByte(mem: seq<Byte>, at: nat, bytes: seq<Byte>, a: nat)
    requires at + |bytes| <= |mem| && a < |mem|
    ensures Splice(mem, at, bytes)[a] == if at <= a < at + |bytes| then bytes[a - at] else mem[a]
  {
  }

  lemma SpliceTwice(mem: seq<Byte>, at: nat, bytes: seq<Byte>, offset: nat, field: seq<Byte>)
    requires offset <= |bytes| && at + |bytes| <= |mem| && at + offset + |field| <= |mem|
    ensures Splice(Splice(mem, at, bytes), at + offset, field) == Splice(mem, at, Over(bytes, offset, field))
  {
  }

  /** The two memories agree outside a region. */
  predicate SameOutside(before: seq<Byte>, after: seq<Byte>, at: nat, n: nat) {
    |before| == |after| && forall a :: 0 <= a < |before| && !(at <= a < at + n) ==> after[a] == before[a]
  }

  lemma SameElsewhere(before: seq<Byte>, after: seq<Byte>, at: nat, n: nat, from: nat, length: nat)
    requires SameOutside(before, after, at, n) && from + length <= |before|
    requires from + length <= at || at + n <= from
    ensures after[from..from + length] == before[from..from + length]
  {
  }

  function Zeros(n: nat): (z: seq<Byte>)
    ensures |z| == n && forall b :: 0 <= b < n ==> z[b] == 0
  {
    seq(n, _ => 0)
  }

  /** The length of the code without its trailing zeros. */
  function Trimmed(code: seq<Byte>, n: nat): (end: nat)
    requires n <= |code|
    ensures end <= n && (forall b :: end <= b < n ==> code[b] == 0) && (end > 0 ==> code[end - 1] != 0)
  {
    if n > 0 && code[n - 1] == 0 then Trimmed(code, n - 1) else n
  }

  // ---------- What a hijack is meant to do ----------

  ghost function JobOf(arch: Arch, decode: Decoder, mem: seq<Byte>, addr: nat, size: nat, newAddr: nat): (j: Job)
    requires addr + size + SLACK <= |mem|
    ensures j.end <= size && |j.code| == size + WINDOW
  {
    var code := mem[addr..addr + size + WINDOW];
    Job(arch, decode, code, Region(addr, size), newAddr, Trimmed(code, size))
  }

  /** The outcome, in the order in which the conditions are looked at. */
  ghost function Verdict(arch: Arch, decode: Decoder, mem: seq<Byte>, lookup: Lookup, newAddr: nat): Outcome
    requires lookup.Found? ==> lookup.addr + lookup.size + SLACK <= |mem|
  {
    if lookup.Missing? || mem[lookup.addr] == OP_JMP_REL32 then Fault
    else if newAddr == 0 then NoMemory
    else CopyVerdict(JobOf(arch, decode, mem, lookup.addr, lookup.size, newAddr))
  }

  predicate CanCopy(j: Job)
    requires j.end + WINDOW <= |j.code|
  {
    j.end > 0 && Decodes(j, 0)
  }

  function CopyVerdict(j: Job): Outcome
    requires j.end + WINDOW <= |j.code|
  {
    if j.func.size < OP_JMP_SIZE then Fault else if CanCopy(j) then Done else IllegalSequence
  }

  ghost predicate Room(j: Job, mem: seq<Byte>) {
    j.end <= j.func.size && j.func.size + WINDOW <= |j.code| && j.newAddr + j.func.size + SLACK <= |mem|
  }

  /** The memory when the copy loop, begun at offset `pos`, has come to its end or has failed. */
  ghost function Swept(j: Job, mem: seq<Byte>, pos: nat): (r: seq<Byte>)
    requires Room(j, mem)
    ensures |r| == |mem|
    decreases j.end - pos
  {
    if GoesOn(j, pos)
    then Swept(j, Splice(mem, j.newAddr + pos, WrittenAt(j, pos)), pos + InsnAt(j, pos).length)
    else mem
  }

  /** The memory when the copy has been made or has failed: zeros over the buffer, then what the loop writes. */
  ghost function CopyResult(j: Job, mem: seq<Byte>): (r: seq<Byte>)
    requires Room(j, mem)
    ensures |r| == |mem|
  {
    var blank := Splice(mem, j.newAddr, Zeros(j.func.size));
    if j.func.size < OP_JMP_SIZE then blank else Swept(j, blank, 0)
  }

  /** How many bytes from the buffer on a hijack writes. */
  ghost function Footprint(arch: Arch, decode: Decoder, mem: seq<Byte>, lookup: Lookup, newAddr: nat): (n: nat)
    requires lookup.Found? ==> lookup.addr + lookup.size + SLACK <= |mem|
  {
    if lookup.Missing? || mem[lookup.addr] == OP_JMP_REL32 || newAddr == 0 then 0
    else Written(JobOf(arch, decode, mem, lookup.addr, lookup.size, newAddr))
  }

  function Written(j: Job): (n: nat)
    requires j.end + WINDOW <= |j.code|
  {
    if j.func.size < OP_JMP_SIZE then j.func.size else Max(j.func.size, Reach(j, 0))
  }

  /** With all fields in place that is the copy, if it is longer than the buffer, and else the buffer. */
  lemma WrittenIsCopy(j: Job)
    requires j.end <= j.func.size && j.end + WINDOW <= |j.code| && FieldsInPlace(j, 0)
    ensures Written(j) == if CopyVerdict(j).Done? then Max(j.func.size, Stop(j, 0)) else j.func.size
  {
    ReachIsStop(j, 0);
  }

  // ---------- When a hijack succeeds ----------

  // An instruction at offset `a` of the code at `addr` is followed by one at `b`.
  predicate FollowedBy(decode: Decoder, mem: seq<Byte>, addr: nat, a: nat, b: nat) {
    && addr + a + WINDOW <= |mem|
    && var length := decode(mem[addr + a..addr + a + WINDOW]).length;
    length > 0 && b == a + length
  }

  predicate NotAllZero(mem: seq<Byte>, addr: nat, from: nat, size: nat)
    requires addr + size <= |mem|
  {
    exists a :: addr + from <= a < addr + size && mem[a] != 0
  }

  /** Instructions follow one another at these offsets, from 0 on, until nothing but zeros is left. */
  predicate Chain(decode: Decoder, mem: seq<Byte>, addr: nat, size: nat, offsets: seq<nat>)
    requires addr + size <= |mem|
  {
    && offsets != [] && offsets[0] == 0 && !NotAllZero(mem, addr, offsets[|offsets| - 1], size)
    && forall n :: 0 <= n < |offsets| - 1 ==>
         NotAllZero(mem, addr, offsets[n], size) && FollowedBy(decode, mem, addr, offsets[n], offsets[n + 1])
  }

  /** The function is not all zeros, and decodes up to its last byte that is not 0. */
  ghost predicate CanBeCopied(decode: Decoder, mem: seq<Byte>, addr: nat, size: nat)
    requires addr + size <= |mem|
  {
    NotAllZero(mem, addr, 0, size) && exists offsets :: Chain(decode, mem, addr, size, offsets)
  }

  /** The outcome, told by the bytes of the function. */
  ghost predicate OutcomeIs(decode: Decoder, mem: seq<Byte>, lookup: Lookup, newAddr: nat, ret: Outcome) {
    if lookup.Missing? then ret == Fault
    else
      && lookup.addr + lookup.size < |mem|
      && if mem[lookup.addr] == 0xe9 then ret == Fault
         else if newAddr == 0 then ret == NoMemory
         else if lookup.size < 5 then ret == Fault
         else if CanBeCopied(decode, mem, lookup.addr, lookup.size) then ret == Done
         else ret == IllegalSequence
  }

  lemma VerdictIsOutcome(arch: Arch, decode: Decoder, mem: seq<Byte>, lookup: Lookup, newAddr: nat)
    requires lookup.Found? ==> lookup.addr + lookup.size + SLACK <= |mem|
    ensures OutcomeIs(decode, mem, lookup, newAddr, Verdict(arch, decode, mem, lookup, newAddr))
  {
    if lookup.Found? && mem[lookup.addr] != OP_JMP_REL32 && newAddr != 0 {
      var j := JobOf(arch, decode, mem, lookup.addr, lookup.size, newAddr);
      CanCopyMeans(j, mem);
    }
  }

  lemma CanCopyMeans(j: Job, mem: seq<Byte>)
    requires Depicts(j, mem)
    ensures CanCopy(j) <==> CanBeCopied(j.decode, mem, j.func.addr, j.func.size)
  {
    TrimmedMeans(j, mem, 0);
    if Decodes(j, 0) {
      var offsets := SweepIsListed(j, 0);
      ChainIsListed(j, mem, offsets);
    }
    forall offsets | Chain(j.decode, mem, j.func.addr, j.func.size, offsets) ensures Decodes(j, 0) {
      ChainIsSweep(j, mem, offsets);
    }
  }

  // The job is about the function that memory holds.
  ghost predicate Depicts(j: Job, mem: seq<Byte>) {
    && j.func.addr + j.func.size + SLACK <= |mem|
    && j == JobOf(j.arch, j.decode, mem, j.func.addr, j.func.size, j.newAddr)
  }

  lemma TrimmedMeans(j: Job, mem: seq<Byte>, a: nat)
    requires Depicts(j, mem)
    ensures NotAllZero(mem, j.func.addr, a, j.func.size) <==> a < j.end
  {
    var addr := j.func.addr;
    if a < j.end {
      assert mem[addr + (j.end - 1)] == j.code[j.end - 1] != 0;
    }
    assert forall x :: addr + j.end <= x < addr + j.func.size ==> mem[x] == j.code[x - addr] == 0;
  }

  // The same list, seen from the sweep.
  predicate Listed(j: Job, offsets: seq<nat>)
    requires j.end + WINDOW <= |j.code|
  {
    && offsets != [] && offsets[|offsets| - 1] >= j.end
    && forall n :: 0 <= n < |offsets| - 1 ==> GoesOnTo(j, offsets[n], offsets[n + 1])
  }

  predicate GoesOnTo(j: Job, a: nat, b: nat)
    requires j.end + WINDOW <= |j.code|
  {
    GoesOn(j, a) && b == a + InsnAt(j, a).length
  }

  lemma ChainIsListed(j: Job, mem: seq<Byte>, offsets: seq<nat>)
    requires Depicts(j, mem)
    ensures Chain(j.decode, mem, j.func.addr, j.func.size, offsets) <==> Listed(j, offsets) && offsets[0] == 0
  {
    hide GoesOnTo, NotAllZero, FollowedBy;
    var addr, size := j.func.addr, j.func.size;
    if offsets != [] {
      TrimmedMeans(j, mem, offsets[|offsets| - 1]);
      forall n | 0 <= n < |offsets| - 1
        ensures GoesOnTo(j, offsets[n], offsets[n + 1]) <==>
          NotAllZero(mem, addr, offsets[n], size) && FollowedBy(j.decode, mem, addr, offsets[n], offsets[n + 1])
      {
        LinkMeans(j, mem, offsets[n], offsets[n + 1]);
      }
      if Chain(j.decode, mem, addr, size, offsets) {
        forall n | 0 <= n < |offsets| - 1 ensures GoesOnTo(j, offsets[n], offsets[n + 1]) {
          assert FollowedBy(j.decode, mem, addr, offsets[n], offsets[n + 1]);
        }
      }
      if Listed(j, offsets) {
        forall n | 0 <= n < |offsets| - 1
          ensures NotAllZero(mem, addr, offsets[n], size) && FollowedBy(j.decode, mem, addr, offsets[n], offsets[n + 1])
        {
          assert GoesOnTo(j, offsets[n], offsets[n + 1]);
        }
      }
    }
  }

  lemma LinkMeans(j: Job, mem: seq<Byte>, a: nat, b: nat)
    requires Depicts(j, mem)
    ensures GoesOnTo(j, a, b) <==>
      NotAllZero(mem, j.func.addr, a, j.func.size) && FollowedBy(j.decode, mem, j.func.addr, a, b)
  {
    TrimmedMeans(j, mem, a);
    if a < j.end {
      SliceOfSlice(mem, j.func.addr, j.func.size + WINDOW, a, WINDOW);
    }
  }

  lemma {:induction false} SweepIsListed(j: Job, pos: nat) returns (offsets: seq<nat>)
    requires j.end + WINDOW <= |j.code| && Decodes(j, pos)
    ensures Listed(j, offsets) && offsets[0] == pos
    decreases j.end - pos
  {
    offsets := [pos];
    if GoesOn(j, pos) {
      var rest := SweepIsListed(j, pos + InsnAt(j, pos).length);
      offsets := [pos] + rest;
    }
  }

  /** All that the sweep is: where its instructions begin and where it stops. */
  lemma {:induction false} ListedIsSweep(j: Job, offsets: seq<nat>, n: nat)
    requires j.end + WINDOW <= |j.code| && Listed(j, offsets) && n < |offsets|
    ensures Decodes(j, offsets[n]) && Stop(j, offsets[n]) == offsets[|offsets| - 1]
    ensures forall k :: IsStart(j, offsets[n], k) <==> k in offsets[n..|offsets| - 1]
    decreases |offsets| - n
  {
    if n < |offsets| - 1 {
      assert GoesOnTo(j, offsets[n], offsets[n + 1]);
      ListedIsSweep(j, offsets, n + 1);
      assert offsets[n..|offsets| - 1] == [offsets[n]] + offsets[n + 1..|offsets| - 1];
    }
  }

  /** The instructions that are copied are those of the chain, and the copy ends where it ends. */
  lemma ChainIsSweep(j: Job, mem: seq<Byte>, offsets: seq<nat>)
    requires Depicts(j, mem) && Chain(j.decode, mem, j.func.addr, j.func.size, offsets)
    ensures Decodes(j, 0) && Stop(j, 0) == offsets[|offsets| - 1]
    ensures forall k :: IsStart(j, 0, k) <==> k in offsets[..|offsets| - 1]
  {
    ChainIsListed(j, mem, offsets);
    ListedIsSweep(j, offsets, 0);
  }

  lemma OneByteInsn(mem: seq<Byte>, addr: nat, n: nat)
    requires addr + n + WINDOW <= |mem| && (mem[addr + n] == OP_NOP || mem[addr + n] == OP_RET)
    ensures FollowedBy(SmallDecoder, mem, addr, n, n + 1)
  {
    assert mem[addr + n..addr + n + WINDOW][0] == mem[addr + n];
  }

  lemma SixOffsets(mem: seq<Byte>) returns (offsets: seq<nat>)
    requires |mem| >= 0x1008 + SLACK
    requires mem[0x1000..0x1008] == [OP_NOP, OP_NOP, OP_NOP, OP_NOP, OP_NOP, OP_RET, 0, 0]
    ensures Chain(SmallDecoder, mem, 0x1000, 8, offsets) && offsets == [0, 1, 2, 3, 4, 5, 6]
  {
    hide FollowedBy;
    offsets := [0, 1, 2, 3, 4, 5, 6];
    var code := mem[0x1000..0x1008];
    forall n: nat | n < 6 ensures FollowedBy(SmallDecoder, mem, 0x1000, offsets[n], offsets[n + 1]) {
      assert mem[0x1000 + n] == code[n];
      OneByteInsn(mem, 0x1000, n);
    }
    assert mem[0x1005] == code[5] && mem[0x1006] == code[6] && mem[0x1007] == code[7];
  }

  /** Six instructions with zeros behind them: the copy has six bytes, and the hijack succeeds. */
  lemma ZerosBehind(mem: seq<Byte>, newAddr: nat)
    requires |mem| >= 0x1008 + SLACK && newAddr > 0
    requires mem[0x1000..0x1008] == [OP_NOP, OP_NOP, OP_NOP, OP_NOP, OP_NOP, OP_RET, 0, 0]
    ensures Verdict(X86_64, SmallDecoder, mem, Found(0x1000, 8), newAddr) == Done
    ensures Stop(JobOf(X86_64, SmallDecoder, mem, 0x1000, 8, newAddr), 0) == 6
  {
    hide Chain, Verdict, FollowedBy;
    var offsets := SixOffsets(mem);
    VerdictIsOutcome(X86_64, SmallDecoder, mem, Found(0x1000, 8), newAddr);
    ChainIsSweep(JobOf(X86_64, SmallDecoder, mem, 0x1000, 8, newAddr), mem, offsets);
  }

  /** A symbol that is nothing but zeros is refused, whatever they decode to. */
  lemma NothingButZeros(arch: Arch, decode: Decoder, mem: seq<Byte>, addr: nat, size: nat, newAddr: nat)
    requires addr + size + SLACK <= |mem| && size >= 5 && newAddr > 0
    requires forall a :: addr <= a < addr + size ==> mem[a] == 0
    ensures Verdict(arch, decode, mem, Found(addr, size), newAddr) == IllegalSequence
  {
    VerdictIsOutcome(arch, decode, mem, Found(addr, size), newAddr);
  }

  /** Every instruction of the chain stands in the copy, with its operand, and the copy ends where the chain does. */
  ghost predicate CopyHolds(arch: Arch, decode: Decoder, before: seq<Byte>, after: seq<Byte>, func: Region,
                            newAddr: nat, newSize: nat)
    requires func.addr + func.size <= |before|
  {
    forall offsets :: Chain(decode, before, func.addr, func.size, offsets) ==>
      && newSize == offsets[|offsets| - 1]
      && forall n :: 0 <= n < |offsets| - 1 ==> InsnKept(arch, decode, before, after, func, newAddr, offsets[n])
  }

  lemma CopyIsChain(j: Job, before: seq<Byte>, after: seq<Byte>, newSize: nat)
    requires CopyMade(j, before, after, newSize) && Depicts(j, before)
    ensures CopyHolds(j.arch, j.decode, before, after, j.func, j.newAddr, newSize)
  {
    hide Depicts, InsnKept, Stop, IsStart, FollowedBy, NotAllZero;
    forall offsets | Chain(j.decode, before, j.func.addr, j.func.size, offsets)
      ensures newSize == offsets[|offsets| - 1]
      ensures forall n :: 0 <= n < |offsets| - 1 ==>
        InsnKept(j.arch, j.decode, before, after, j.func, j.newAddr, offsets[n])
    {
      ChainIsSweep(j, before, offsets);
      forall n | 0 <= n < |offsets| - 1
        ensures InsnKept(j.arch, j.decode, before, after, j.func, j.newAddr, offsets[n])
      {
        assert offsets[n] == offsets[..|offsets| - 1][n];
        OperandsArrive(j, before, after, offsets[n]);
      }
    }
  }

  // ---------- What the copy loop leaves ----------

  /** The loop writes from its destination on, and no further than it reaches. */
  lemma {:induction false} SweptOutside(j: Job, mem: seq<Byte>, pos: nat)
    requires Room(j, mem)
    ensures SameOutside(mem, Swept(j, mem, pos), j.newAddr + pos, Reach(j, pos) - pos)
    decreases j.end - pos
  {
    hide Splice, WrittenAt, InsnAt, Stop, Decodes, SameOutside;
    if !GoesOn(j, pos) {
      OutsideItself(mem, j.newAddr + pos, 0);
    } else {
      var at, bytes, next := j.newAddr + pos, WrittenAt(j, pos), pos + InsnAt(j, pos).length;
      var mem' := Splice(mem, at, bytes);
      SpliceFacts(mem, at, bytes);
      SweptOutside(j, mem', next);
      OutsideBoth(mem, mem', Swept(j, mem', next), at, |bytes|, j.newAddr + next, Reach(j, next) - next,
                  Reach(j, pos) - pos);
    }
  }

  lemma OutsideItself(a: seq<Byte>, at: nat, n: nat)
    ensures SameOutside(a, a, at, n)
  {
  }

  lemma OutsideBoth(a: seq<Byte>, b: seq<Byte>, c: seq<Byte>, at: nat, n: nat, at': nat, n': nat, all: nat)
    requires SameOutside(a, b, at, n) && SameOutside(b, c, at', n') && at <= at'
    requires n <= all && at' + n' <= at + all
    ensures SameOutside(a, c, at, all)
  {
  }

  /** Instructions written over each other's ends leave the relocated code. */
  lemma {:induction false} SweptCopies(j: Job, mem: seq<Byte>, pos: nat)
    requires Ok(j) && Room(j, mem) && Decodes(j, pos) && pos < j.end + WINDOW
    ensures Holds(Swept(j, mem, pos), j.newAddr + pos, Copied(j, pos))
    decreases j.end - pos
  {
    hide Splice, WrittenAt, InsnAt, Stop, Reach, Holds, SameOutside;
    if !GoesOn(j, pos) {
      HoldsNone(mem, j.newAddr + pos);
    } else {
      var at, n := j.newAddr + pos, InsnAt(j, pos).length;
      var bytes, next := WrittenAt(j, pos), pos + n;
      var mem' := Splice(mem, at, bytes);
      SweptCopies(j, mem', next);
      SweptOutside(j, mem', next);
      SpliceFacts(mem, at, bytes);
      HoldsBoth(mem', Swept(j, mem', next), at, bytes, n, Copied(j, next), Reach(j, next) - next);
    }
  }

  lemma HoldsNone(mem: seq<Byte>, at: nat)
    requires at <= |mem|
    ensures Holds(mem, at, [])
  {
  }

  // An instruction that stands there up to `n`, and the others behind it.
  lemma HoldsBoth(before: seq<Byte>, after: seq<Byte>, at: nat, bytes: seq<Byte>, n: nat, rest: seq<Byte>, all: nat)
    requires n <= |bytes| && Holds(before, at, bytes)
    requires SameOutside(before, after, at + n, all) && Holds(after, at + n, rest)
    ensures Holds(after, at, bytes[..n] + rest)
  {
    HoldsPart(before, at, bytes, 0, n);
    SameElsewhere(before, after, at + n, all, at, n);
    assert after[at..at + n + |rest|] == after[at..at + n] + after[at + n..at + n + |rest|];
  }

  /** A byte is the same after the loop if it was so before, or if the loop reaches it. */
  lemma {:induction false} SweptAlike(j: Job, a: seq<Byte>, b: seq<Byte>, pos: nat, x: nat)
    requires Room(j, a) && Room(j, b) && |a| == |b| && x < |a|
    requires a[x] == b[x] || j.newAddr + pos <= x < j.newAddr + Reach(j, pos)
    ensures Swept(j, a, pos)[x] == Swept(j, b, pos)[x]
    decreases j.end - pos
  {
    hide Splice, WrittenAt;
    if GoesOn(j, pos) {
      var at, bytes := j.newAddr + pos, WrittenAt(j, pos);
      SpliceByte(a, at, bytes, x);
      SpliceByte(b, at, bytes, x);
      SweptAlike(j, Splice(a, at, bytes), Splice(b, at, bytes), pos + InsnAt(j, pos).length, x);
    }
  }

  /** What the loop leaves behind the last instruction was there before or belongs to a rewritten field. */
  lemma {:induction false} SweptBehind(j: Job, mem: seq<Byte>, pos: nat, b: nat)
    requires Ok(j) && Room(j, mem) && Decodes(j, pos) && Stop(j, pos) <= b < |mem| - j.newAddr
    ensures Swept(j, mem, pos)[j.newAddr + b] == mem[j.newAddr + b] || MeetsField(j, pos, b)
    decreases j.end - pos
  {
    hide Splice, WrittenAt, InsnAt, MeetsField;
    if GoesOn(j, pos) {
      FieldBehind(j, pos, b);
      var at, bytes, next := j.newAddr + pos, WrittenAt(j, pos), pos + InsnAt(j, pos).length;
      SpliceByte(mem, at, bytes, j.newAddr + b);
      SweptBehind(j, Splice(mem, at, bytes), next, b);
    }
  }

  lemma FieldBehind(j: Job, pos: nat, b: nat)
    requires Ok(j) && Decodes(j, pos) && GoesOn(j, pos)
    ensures pos + InsnAt(j, pos).length <= b < pos + |WrittenAt(j, pos)| ==> MeetsField(j, pos, b)
    ensures MeetsField(j, pos + InsnAt(j, pos).length, b) ==> MeetsField(j, pos, b)
  {
    var next := pos + InsnAt(j, pos).length;
    if next <= b < pos + |WrittenAt(j, pos)| {
      assert IsStart(j, pos, pos) && InRewrittenField(j, pos, b);
    }
    if MeetsField(j, next, b) {
      var k :| IsStart(j, next, k) && InRewrittenField(j, k, b);
      assert IsStart(j, pos, k);
    }
  }

  /**
   Whatever the byte after the buffer is, the attempt leaves it alone if and only if what the loop
   writes does not go beyond the end of the function.
   */
  lemma StaysInBuffer(j: Job, mem: seq<Byte>)
    requires Room(j, mem)
    ensures (forall x: Byte :: KeepsByteAfter(j, mem, x)) <==> Written(j) <= j.func.size
  {
    var end := j.newAddr + j.func.size;
    if Written(j) <= j.func.size {
      forall x: Byte ensures KeepsByteAfter(j, mem, x) {
        ResultOutside(j, mem[end := x]);
      }
    } else {
      var a, b := mem[end := 0], mem[end := 1];
      var zeros := Zeros(j.func.size);
      SweptAlike(j, Splice(a, j.newAddr, zeros), Splice(b, j.newAddr, zeros), 0, end);
      assert CopyResult(j, a)[end] == CopyResult(j, b)[end];
      assert !KeepsByteAfter(j, mem, 0) || !KeepsByteAfter(j, mem, 1);
    }
  }

  /** The buffer has been cleared: where the loop does not reach, or is not begun, there is nothing but zeros. */
  lemma RestIsZero(j: Job, mem: seq<Byte>, b: nat)
    requires Room(j, mem) && b < j.func.size && (j.func.size < 5 || Reach(j, 0) <= b)
    ensures CopyResult(j, mem)[j.newAddr + b] == 0
  {
    SpliceByte(mem, j.newAddr, Zeros(j.func.size), j.newAddr + b);
    SweptOutside(j, Splice(mem, j.newAddr, Zeros(j.func.size)), 0);
  }

  ghost predicate KeepsByteAfter(j: Job, mem: seq<Byte>, x: Byte)
    requires Room(j, mem)
  {
    var start := mem[j.newAddr + j.func.size := x];
    SameOutside(start, CopyResult(j, start), j.newAddr, j.func.size)
  }

  lemma ResultOutside(j: Job, mem: seq<Byte>)
    requires Room(j, mem)
    ensures SameOutside(mem, CopyResult(j, mem), j.newAddr, Written(j))
  {
    var blank := Splice(mem, j.newAddr, Zeros(j.func.size));
    SpliceFacts(mem, j.newAddr, Zeros(j.func.size));
    SweptOutside(j, blank, 0);
  }

  /** A jump of five bytes to a hook 2^32 above: it leads 2^32 below the hook. */
  lemma HookOutOfReach()
    ensures var hook := 0x1_0000_2000;
      && !Reachable(X86_64, 0x1000, 5, hook)
      && AddrFromOffset(X86_64, 0x1000, 5, OffsetFromAddr(X86_64, 0x1000, 5, hook)) == 0x2000
  {
  }

  /** A call whose opcode is the last byte of the function: nine bytes are copied into a buffer of five. */
  lemma CallAtTheEnd()
    ensures var j := Sample([OP_JNE_REL8, 0, OP_JNE_REL8, 0, OP_CALL_REL32], [1, 1, 1, 1] + NOPS[4..], 0, 64);
      && Ok(j) && Decodes(j, 0) && CopyVerdict(j) == Done && j.end == Trimmed(j.code, j.func.size)
      && FieldsInPlace(j, 0) && Written(j) == Stop(j, 0) == 9
  {
    var j := Sample([OP_JNE_REL8, 0, OP_JNE_REL8, 0, OP_CALL_REL32], [1, 1, 1, 1] + NOPS[4..], 0, 64);
    var w := WindowAt(j.code, 4);
    assert w[0] == OP_CALL_REL32 && w[1] == w[2] == w[3] == w[4] == 1;
    FourBytes(w, 1);
    assert InsnAt(j, 0).length == 2 && InsnAt(j, 2).length == 2 && InsnAt(j, 4).length == 5;
    assert FieldsInPlace(j, 9) && FieldsInPlace(j, 4) && FieldsInPlace(j, 2);
    assert Stop(j, 9) == 9 && Stop(j, 4) == 9 && Stop(j, 2) == 9;
    WrittenIsCopy(j);
  }

  // The machine of SmallDecoder with a jump whose prefix makes the operand one of two bytes.
  function NarrowDecoder(w: Window): Insn {
    if w[0] == OPERAND_SIZE && w[1] == OP_JMP_REL32
    then Decoded(4, w[1], false, 2, w[2] as int + 0x100 * w[3] as int, 0, 0, {})
    else SmallDecoder(w)
  }

  const OPERAND_SIZE: Byte := 0x66

  /** A jump with such an operand at the end: five bytes are copied, but seven are written. */
  lemma NarrowOperandAtTheEnd()
    ensures var code := [OP_NOP, OPERAND_SIZE, OP_JMP_REL32, 0, 0x10] + NOPS;
      var j := Job(X86_32, NarrowDecoder, code, Region(0, 5), 64, 5);
      && Ok(j) && Decodes(j, 0) && CopyVerdict(j) == Done && j.end == Trimmed(j.code, j.func.size)
      && Stop(j, 0) == 5 && Written(j) == 7
  {
    var code := [OP_NOP, OPERAND_SIZE, OP_JMP_REL32, 0, 0x10] + NOPS;
    var j := Job(X86_32, NarrowDecoder, code, Region(0, 5), 64, 5);
    var w := WindowAt(j.code, 1);
    assert w[0] == OPERAND_SIZE && w[1] == OP_JMP_REL32 && w[2] == 0 && w[3] == 0x10;
    assert InsnAt(j, 0).length == 1 && InsnAt(j, 1).length == 4;
    assert Target(j.arch, InsnAt(j, 1), 1) == 0x1005;
    assert Stop(j, 5) == 5 && Stop(j, 1) == 5 && Reach(j, 5) == 5 && Reach(j, 1) == 7;
  }

  lemma BlankBuffer(j: Job, start: seq<Byte>, blank: seq<Byte>)
    requires j.func.addr + j.func.size + SLACK <= |start| && j.newAddr + j.func.size + SLACK <= |start|
    requires Apart(j.func.addr, j.newAddr, j.func.size + SLACK)
    requires blank == Splice(start, j.newAddr, Zeros(j.func.size))
    ensures var n := j.func.size + WINDOW; blank[j.func.addr..j.func.addr + n] == start[j.func.addr..j.func.addr + n]
  {
    SpliceFacts(start, j.newAddr, Zeros(j.func.size));
    SameElsewhere(start, blank, j.newAddr, j.func.size, j.func.addr, j.func.size + WINDOW);
  }

  class KernSym {
    var addr: nat
    var size: nat
    var newAddr: nat
    var newSize: nat
    var run: nat
    var origStartBytes: seq<Byte>
    var hijacked: bool
    var name: nat
    var nameAlloc: bool

    constructor ()
      ensures !hijacked && !nameAlloc
    {
      hijacked, nameAlloc := false, false;
    }
  }

  class Kernel {
    const arch: Arch
    const decode: Decoder
    const mem: array<Byte>
    var writable: bool      // the page that holds the entry of the function
    var buffers: set<nat>   // what malloc handed out and nobody freed yet

    constructor (arch: Arch, decode: Decoder, mem: array<Byte>, writable: bool)
      ensures this.arch == arch && this.decode == decode && this.mem == mem
      ensures this.writable == writable && buffers == {}
    {
      this.arch, this.decode, this.mem, this.writable := arch, decode, mem, writable;
      buffers := {};
    }

    method WriteBytes(at: nat, bytes: seq<Byte>)
      requires at + |bytes| <= mem.Length
      modifies mem
      ensures mem[..] == Splice(old(mem[..]), at, bytes)
    {
      forall b | 0 <= b < |bytes| {
        mem[at + b] := bytes[b];
      }
    }

    // The page that holds the entry of a function can only be written while it is writable.
    method WriteEntry(at: nat, bytes: seq<Byte>)
      requires at + |bytes| <= mem.Length && writable
      modifies mem
      ensures mem[..] == Splice(old(mem[..]), at, bytes)
    {
      WriteBytes(at, bytes);
    }

    method Free(buffer: nat)
      requires buffer in buffers
      modifies this`buffers
      ensures buffers == old(buffers) - {buffer}
    {
      buffers := buffers - {buffer};
    }

    /** set_addr_rw: the flag tells whether the page was read-only. */
    method SetAddrRw() returns (flag: bool)
      modifies this`writable
      ensures writable && flag == !old(writable)
    {
      flag := true;
      if writable {
        flag := false;
      } else {
        writable := true;
      }
    }

    /** set_addr_ro */
    method SetAddrRo(flag: bool)
      modifies this`writable
      ensures writable == (old(writable) && !flag)
    {
      if flag {
        writable := false;
      }
    }

    // The part that copy_and_fixup_insn has once for each kind of field.
    method FixupField(length: nat, offset: nat, value: Field32, src: nat, dest: nat, func: Region,
                      ghost before: seq<Byte>, ghost w: Window)
      requires offset <= length <= WINDOW && dest + length + 4 <= mem.Length == |before|
      requires mem[..] == Splice(before, dest, w[..length])
      modifies mem
      ensures var target := AddrFromOffset(arch, src, length, value);
        mem[..] == Splice(before, dest,
          if Inside(func, target) then w[..length]
          else Over(w[..length], offset, LittleEndian(OffsetFromAddr(arch, dest, length, target))))
    {
      hide Splice, Over, LittleEndian, AddrFromOffset, OffsetFromAddr;
      var addr := AddrFromOffset(arch, src, length, value);
      if addr >= func.addr && addr < func.addr + func.size {
        return;
      }
      var field := LittleEndian(OffsetFromAddr(arch, dest, length, addr));
      SpliceTwice(before, dest, w[..length], offset, field);
      WriteBytes(dest + offset, field);
    }

    /** copy_and_fixup_insn */
    method CopyAndFixup(insn: Insn, ghost w: Window, src: nat, dest: nat, func: Region)
      requires 0 < insn.length && src + WINDOW <= mem.Length && dest + insn.length + 4 <= mem.Length
      requires w == mem[src..src + WINDOW]
      modifies mem
      ensures mem[..] == Splice(old(mem[..]), dest, WrittenInsn(arch, w, insn, src, dest, func))
    {
      ghost var before := mem[..];
      assert mem[src..src + insn.length] == w[..insn.length];
      WriteBytes(dest, mem[src..src + insn.length]);
      if insn.opcode == OP_CALL_REL32 || insn.opcode == OP_JMP_REL32 {
        FixupField(insn.length, insn.immOffset, insn.immediate, src, dest, func, before, w);
        return;
      }
      if arch.X86_32? || !insn.ripRelative {
        return;
      }
      FixupField(insn.length, insn.dispOffset, insn.displacement, src, dest, func, before, w);
    }

    /** The trim loop. */
    method TrimEnd(ghost code: seq<Byte>, addr: nat, size: nat) returns (end: nat)
      requires addr + size <= mem.Length && |code| >= size && mem[addr..addr + size] == code[..size]
      ensures end == Trimmed(code, size)
    {
      assert forall b :: 0 <= b < size ==> mem[addr + b] == mem[addr..addr + size][b] == code[b];
      end := size;
      while end > 0 && mem[addr + end - 1] == 0
        invariant end <= size
        invariant Trimmed(code, size) == Trimmed(code, end)
      {
        end := end - 1;
      }
    }

    method CopyDecoded(ghost j: Job, insn: Insn, pos: nat, addr: nat, size: nat, newAddr: nat)
      requires j.arch == arch && j.func == Region(addr, size) && j.newAddr == newAddr
      requires pos + WINDOW <= |j.code| && DecodesAt(j, pos) && insn == InsnAt(j, pos)
      requires addr + pos + WINDOW <= mem.Length && newAddr + pos + insn.length + 4 <= mem.Length
      requires mem[addr + pos..addr + pos + WINDOW] == WindowAt(j.code, pos)
      modifies mem
      ensures mem[..] == Splice(old(mem[..]), newAddr + pos, WrittenAt(j, pos))
    {
      hide Splice, WrittenInsn, LittleEndian;
      CopyAndFixup(insn, WindowAt(j.code, pos), addr + pos, newAddr + pos, Region(addr, size));
    }

    // tpe_insn_init and tpe_insn_get_length: the copy has not touched what is decoded.
    method DecodeAt(ghost j: Job, ghost start: seq<Byte>, pos: nat, addr: nat, size: nat, newAddr: nat)
      returns (insn: Insn)
      requires Prepared(j, arch, decode, start, Region(addr, size), newAddr) && pos < j.end
      requires Copying(j, start, mem[..], pos)
      ensures pos + WINDOW <= |j.code| && addr + pos + WINDOW <= mem.Length && insn == InsnAt(j, pos)
      ensures mem[addr + pos..addr + pos + WINDOW] == WindowAt(j.code, pos)
      ensures newAddr + pos + insn.length + 4 <= mem.Length && (insn.length > 0 ==> DecodesAt(j, pos))
    {
      ghost var before := mem[..];
      insn := decode(mem[addr + pos..addr + pos + WINDOW]);
      WindowUntouched(j, start, before, pos);
      assert mem[addr + pos..addr + pos + WINDOW] == WindowAt(before, addr + pos);
    }

    /** One instruction of the copy loop; length 0 when it does not decode. */
    method CopyOne(ghost j: Job, ghost start: seq<Byte>, pos: nat, addr: nat, size: nat, newAddr: nat)
      returns (length: nat)
      requires Prepared(j, arch, decode, start, Region(addr, size), newAddr) && pos < j.end
      requires Copying(j, start, mem[..], pos)
      modifies mem
      ensures pos + WINDOW <= |j.code| && length == InsnAt(j, pos).length
      ensures if length > 0 then Copying(j, start, mem[..], pos + length) else mem[..] == old(mem[..])
    {
      hide *;
      ghost var before := mem[..];
      PreparedAs(j, arch, decode, start, Region(addr, size), newAddr);
      var insn := DecodeAt(j, start, pos, addr, size, newAddr);
      length := insn.length;
      if length > 0 {
        CopyDecoded(j, insn, pos, addr, size, newAddr);
        CopyingOn(j, start, before, mem[..], pos);
      }
    }

    /** The copy loop. */
    method CopyCode(ghost j: Job, addr: nat, size: nat, newAddr: nat, end: nat) returns (ok: bool, newSize: nat)
      requires Prepared(j, arch, decode, mem[..], Region(addr, size), newAddr) && j.end == end
      modifies mem
      ensures ok == Decodes(j, 0) && newSize == Stop(j, 0)
      ensures Room(j, old(mem[..])) && mem[..] == Swept(j, old(mem[..]), 0)
    {
      hide Prepared, Copying, Room, Swept, Stop, Decodes, InsnAt;
      newSize := 0;
      ghost var start := mem[..];
      CopyingStarts(j, arch, decode, start, Region(addr, size), newAddr);
      while newSize < end
        invariant Copying(j, start, mem[..], newSize)
        decreases end - newSize
      {
        var length := CopyOne(j, start, newSize, addr, size, newAddr);
        if length == 0 {
          CopyingStops(j, start, mem[..], newSize);
          return false, newSize;
        }
        newSize := newSize + length;
      }
      CopyingStops(j, start, mem[..], newSize);
      ok := true;
    }

    // memset
    method Blank(ghost j: Job, sym: KernSym)
      requires Describes(j, sym, mem[..])
      modifies mem
      ensures Prepared(j, arch, decode, mem[..], Region(sym.addr, sym.size), sym.newAddr)
      ensures mem[..] == Splice(old(mem[..]), sym.newAddr, Zeros(sym.size))
    {
      ghost var start := mem[..];
      WriteBytes(sym.newAddr, Zeros(sym.size));
      BlankBuffer(j, start, mem[..]);
    }

    // From memset to the end of the copy loop.
    method PrepareCopy(ghost j: Job, sym: KernSym) returns (ret: Outcome)
      requires Describes(j, sym, mem[..])
      modifies mem, sym`newSize
      ensures ret == CopyVerdict(j) && Room(j, old(mem[..])) && mem[..] == CopyResult(j, old(mem[..]))
      ensures sym.newSize == if ret.Done? then Stop(j, 0) else old(sym.newSize)
    {
      Blank(j, sym);
      if sym.size < OP_JMP_SIZE {
        return Fault;
      }
      var end := TrimEnd(j.code, sym.addr, sym.size);
      if end == 0 {
        return IllegalSequence;
      }
      var ok, newSize := CopyCode(j, sym.addr, sym.size, sym.newAddr, end);
      if !ok {
        return IllegalSequence;
      }
      sym.newSize := newSize;
      ret := Done;
    }

    // The job that the descriptor and the memory amount to.
    ghost predicate Describes(j: Job, sym: KernSym, before: seq<Byte>)
      reads this, sym, mem
    {
      |before| == mem.Length && DescribesAt(j, before, sym.addr, sym.size, sym.newAddr)
    }

    ghost predicate DescribesAt(j: Job, before: seq<Byte>, addr: nat, size: nat, newAddr: nat) {
      && addr + size + SLACK <= |before| <= WordRange(arch)
      && newAddr + size + SLACK <= |before| && Apart(addr, newAddr, size + SLACK)
      && j == JobOf(arch, decode, before, addr, size, newAddr)
    }

    // From set_addr_rw to set_addr_ro: the jump to the hook.
    method Patch(sym: KernSym, hook: nat)
      requires sym.addr + OP_JMP_SIZE <= mem.Length && hook < WordRange(arch)
      modifies this`writable, mem, sym`origStartBytes, sym`hijacked
      ensures writable == old(writable) && sym.hijacked
      ensures sym.origStartBytes == old(mem[..])[sym.addr..sym.addr + OP_JMP_SIZE]
      ensures SameOutside(old(mem[..]), mem[..], sym.addr, OP_JMP_SIZE)
      ensures mem[sym.addr] == OP_JMP_REL32
      ensures AddrFromOffset(arch, sym.addr, OP_JMP_SIZE, FieldValue(mem[sym.addr + 1..sym.addr + 5])) == hook
              <==> Reachable(arch, sym.addr, OP_JMP_SIZE, hook)
    {
      ghost var before := mem[..];
      var readOnly := SetAddrRw();
      sym.origStartBytes := mem[sym.addr..sym.addr + OP_JMP_SIZE];
      WriteEntry(sym.addr, [OP_JMP_REL32]);
      SpliceFacts(before, sym.addr, [OP_JMP_REL32]);
      ghost var marked := mem[..];
      var field := OffsetFromAddr(arch, sym.addr, OP_JMP_SIZE, hook);
      WriteEntry(sym.addr + 1, LittleEndian(field));
      SpliceFacts(marked, sym.addr + 1, LittleEndian(field));
      StoredField(field);
      DecodeOfEncode(arch, sym.addr, OP_JMP_SIZE, hook);
      SetAddrRo(readOnly);
      sym.hijacked := true;
    }

    /** symbol_restore */
    method SymbolRestore(sym: KernSym)
      requires sym.hijacked ==> sym.addr + OP_JMP_SIZE <= mem.Length && |sym.origStartBytes| == OP_JMP_SIZE
      requires sym.hijacked ==> sym.newAddr in buffers
      requires sym.nameAlloc ==> sym.name in buffers && (sym.hijacked ==> sym.name != sym.newAddr)
      modifies this, mem, sym`hijacked, sym`nameAlloc
      ensures !sym.hijacked && !sym.nameAlloc && writable == old(writable)
      ensures mem[..] == if old(sym.hijacked) then Splice(old(mem[..]), sym.addr, sym.origStartBytes) else old(mem[..])
      ensures buffers == old(buffers) - (if old(sym.hijacked) then {sym.newAddr} else {})
                                      - (if old(sym.nameAlloc) then {sym.name} else {})
    {
      if sym.hijacked {
        var readOnly := SetAddrRw();
        WriteEntry(sym.addr, sym.origStartBytes);
        SetAddrRo(readOnly);
        sym.hijacked := false;
        Free(sym.newAddr);
      }
      if sym.nameAlloc {
        Free(sym.name);
        sym.nameAlloc := false;
      }
    }

    /** Module load followed by module unload: whatever became of the hijack, every byte outside
        its footprint, the page's writable bit and the list of buffers are back where they were. */
    method LoadAndUnload(sym: KernSym, name: nat, lookup: Lookup, newAddr: nat, hook: nat)
      requires Grants(lookup, newAddr) && hook < WordRange(arch) && !sym.hijacked && !sym.nameAlloc
      modifies this, mem, sym
      ensures SameOutside(old(mem[..]), mem[..], newAddr, Footprint(arch, decode, old(mem[..]), lookup, newAddr))
      ensures writable == old(writable) && buffers == old(buffers)
    {
      hide Footprint, CopyMade, SameButPatch, SameOutside, JobOf, OutcomeIs, CopyHolds;
      ghost var start := mem[..];
      var ret := SymbolHijack(sym, name, lookup, newAddr, hook);
      ghost var patched := mem[..];
      SymbolRestore(sym);
      if ret.Done? {
        BytesRestored(start, patched, newAddr, Footprint(arch, decode, start, lookup, newAddr), sym.addr);
      }
    }

    /** find_symbol_address: what a lookup leaves in the descriptor. */
    method FindSymbol(sym: KernSym, name: nat, lookup: Lookup) returns (found: bool)
      modifies sym`name, sym`addr, sym`size, sym`newSize, sym`run
      ensures found == lookup.Found? && sym.name == name
      ensures found ==> sym.addr == sym.run == lookup.addr && sym.size == sym.newSize == lookup.size
    {
      sym.name := name;
      found := lookup.Found?;
      if found {
        sym.addr, sym.size := lookup.addr, lookup.size;
        sym.newSize, sym.run := lookup.size, lookup.addr;
      }
    }

    // What the surroundings of a call promise: the symbol lies in memory, and malloc hands out
    // an unused buffer that stands clear of it.
    ghost predicate Grants(lookup: Lookup, newAddr: nat)
      reads this`buffers, mem
    {
      && mem.Length <= WordRange(arch)
      && (lookup.Found? ==>
            && lookup.addr + lookup.size + SLACK <= mem.Length
            && (newAddr != 0 ==>
                  && newAddr !in buffers
                  && newAddr + lookup.size + SLACK <= mem.Length
                  && Apart(lookup.addr, newAddr, lookup.size + SLACK)))
    }

    /** What success leaves behind: a relocated copy of the function and a jump over its entry. */
    ghost predicate Redirected(j: Job, sym: KernSym, before: seq<Byte>, hook: nat)
      reads this, mem, sym
    {
      && j.func == Region(sym.addr, sym.size) && j.newAddr == sym.newAddr == sym.run && j.end + WINDOW <= |j.code|
      && sym.addr + OP_JMP_SIZE <= |before| && hook < WordRange(arch) && sym.hijacked
      && sym.origStartBytes == before[sym.addr..sym.addr + OP_JMP_SIZE]
      && CopyMade(j, before, mem[..], sym.newSize)
      && SameButPatch(before, mem[..], sym.newAddr, Written(j), sym.addr)
      && mem[sym.addr] == OP_JMP_REL32
      && (AddrFromOffset(arch, sym.addr, OP_JMP_SIZE, FieldValue(mem[sym.addr + 1..sym.addr + 5])) == hook
          <==> Reachable(arch, sym.addr, OP_JMP_SIZE, hook))
    }

    // The end of symbol_hijack, once the copy is made.
    method Redirect(ghost j: Job, sym: KernSym, ghost start: seq<Byte>, hook: nat)
      requires j.func == Region(sym.addr, sym.size) && j.newAddr == sym.newAddr && OP_JMP_SIZE <= sym.size
      requires sym.addr + sym.size <= mem.Length && Apart(sym.addr, sym.newAddr, sym.size + SLACK)
      requires hook < WordRange(arch) && j.end + WINDOW <= |j.code|
      requires CopyMade(j, start, mem[..], sym.newSize) && SameOutside(start, mem[..], sym.newAddr, Written(j))
      modifies this`writable, mem, sym`run, sym`origStartBytes, sym`hijacked
      ensures writable == old(writable) && Redirected(j, sym, start, hook)
    {
      hide CopyMade, SameButPatch;
      ghost var copied := mem[..];
      sym.run := sym.newAddr;
      Patch(sym, hook);
      PatchOverCopy(j, start, copied, mem[..], sym.newSize);
    }

    // symbol_hijack once the buffer is there.
    method HijackInto(ghost j: Job, sym: KernSym, hook: nat) returns (ret: Outcome)
      requires Describes(j, sym, mem[..]) && hook < WordRange(arch) && sym.newAddr in buffers
      modifies this, mem, sym`newSize, sym`run, sym`origStartBytes, sym`hijacked
      ensures ret == CopyVerdict(j) && writable == old(writable)
      ensures ret.Done? ==> buffers == old(buffers) && Redirected(j, sym, old(mem[..]), hook)
      ensures !ret.Done? ==>
        && buffers == old(buffers) - {sym.newAddr}
        && sym.hijacked == old(sym.hijacked) && sym.run == old(sym.run)
        && sym.newSize == old(sym.newSize) && sym.origStartBytes == old(sym.origStartBytes)
        && SameOutside(old(mem[..]), mem[..], sym.newAddr, Written(j))
    {
      hide CopyMade, CopyResult, SameOutside;
      ghost var start := mem[..];
      ret := PrepareCopy(j, sym);
      ResultOutside(j, start);
      if !ret.Done? {
        Free(sym.newAddr);
        return;
      }
      ResultIsCopy(j, start);
      Redirect(j, sym, start, hook);
    }

    // symbol_hijack once the symbol is found.
    method HijackFound(ghost j: Job, sym: KernSym, newAddr: nat, hook: nat) returns (ret: Outcome)
      requires hook < WordRange(arch) && sym.addr < mem.Length && sym.run == sym.addr
      requires newAddr != 0 ==> newAddr !in buffers && DescribesAt(j, mem[..], sym.addr, sym.size, newAddr)
      modifies this, mem, sym`newAddr, sym`newSize, sym`run, sym`origStartBytes, sym`hijacked
      ensures ret ==
        if old(mem[sym.addr]) == OP_JMP_REL32 then Fault else if newAddr == 0 then NoMemory else CopyVerdict(j)
      ensures writable == old(writable)
      ensures ret.Done? ==>
        && buffers == old(buffers) + {newAddr} && sym.newAddr == newAddr && Redirected(j, sym, old(mem[..]), hook)
      ensures !ret.Done? ==>
        && buffers == old(buffers) && sym.hijacked == old(sym.hijacked) && sym.run == sym.addr
        && sym.newSize == old(sym.newSize) && sym.origStartBytes == old(sym.origStartBytes)
        && (ret.NoMemory? || old(mem[sym.addr]) == OP_JMP_REL32 ==> mem[..] == old(mem[..]))
        && SameOutside(old(mem[..]), mem[..], newAddr, if newAddr == 0 then 0 else Written(j))
    {
      if mem[sym.addr] == OP_JMP_REL32 {
        return Fault;
      }
      sym.newAddr := newAddr;
      if newAddr == 0 {
        return NoMemory;
      }
      buffers := buffers + {newAddr};
      ret := HijackInto(j, sym, hook);
    }

    /** symbol_hijack.  Success redirects the first five bytes to the hook and leaves a relocated
        copy of the function; every failure leaves the function and the list of buffers alone. */
    method SymbolHijack(sym: KernSym, name: nat, lookup: Lookup, newAddr: nat, hook: nat) returns (ret: Outcome)
      requires Grants(lookup, newAddr) && hook < WordRange(arch)
      modifies this, mem, sym
      ensures ret == Verdict(arch, decode, old(mem[..]), lookup, newAddr)
      ensures OutcomeIs(decode, old(mem[..]), lookup, newAddr, ret)
      ensures ret.Done? ==>
        CopyHolds(arch, decode, old(mem[..]), mem[..], Region(lookup.addr, lookup.size), newAddr, sym.newSize)
      ensures writable == old(writable) && sym.nameAlloc == old(sym.nameAlloc) && sym.name == name
      ensures lookup.Found? ==> sym.addr == lookup.addr && sym.size == lookup.size
      ensures ret.Done? ==>
        && buffers == old(buffers) + {newAddr} && sym.newAddr == newAddr
        && Redirected(JobOf(arch, decode, old(mem[..]), lookup.addr, lookup.size, newAddr), sym, old(mem[..]), hook)
        && SameButPatch(old(mem[..]), mem[..], newAddr, Footprint(arch, decode, old(mem[..]), lookup, newAddr),
                        sym.addr)
      ensures !ret.Done? ==>
        && buffers == old(buffers) && sym.hijacked == old(sym.hijacked)
        && sym.origStartBytes == old(sym.origStartBytes)
        && SameOutside(old(mem[..]), mem[..], newAddr, Footprint(arch, decode, old(mem[..]), lookup, newAddr))
        && (lookup.Found? ==> sym.run == lookup.addr && sym.newSize == lookup.size)
    {
      hide OutcomeIs, CopyHolds, CopyMade, SameButPatch, Written, CopyVerdict;
      ghost var start := mem[..];
      VerdictIsOutcome(arch, decode, start, lookup, newAddr);
      var found := FindSymbol(sym, name, lookup);
      if !found {
        return Fault;
      }
      ghost var j := JobOf(arch, decode, start, sym.addr, sym.size, newAddr);
      ret := HijackFound(j, sym, newAddr, hook);
      if ret.Done? {
        CopyIsChain(j, start, mem[..], sym.newSize);
      }
    }
  }

  /** The new buffer holds the relocated code. */
  ghost predicate CopyMade(j: Job, before: seq<Byte>, after: seq<Byte>, newSize: nat) {
    Relocated(j, before, after) && newSize == Stop(j, 0)
  }

  lemma PatchOverCopy(j: Job, before: seq<Byte>, copied: seq<Byte>, after: seq<Byte>, newSize: nat)
    requires CopyMade(j, before, copied, newSize) && SameOutside(before, copied, j.newAddr, Written(j))
    requires SameOutside(copied, after, j.func.addr, OP_JMP_SIZE) && j.func.size >= OP_JMP_SIZE
    requires Apart(j.func.addr, j.newAddr, j.func.size + SLACK)
    ensures CopyMade(j, before, after, newSize)
    ensures SameButPatch(before, after, j.newAddr, Written(j), j.func.addr)
    ensures copied[j.func.addr..j.func.addr + OP_JMP_SIZE] == before[j.func.addr..j.func.addr + OP_JMP_SIZE]
  {
    SameElsewhere(copied, after, j.func.addr, OP_JMP_SIZE, j.newAddr, newSize);
    forall b | 0 <= b < j.func.size ensures ByteKept(j, after, b) {
      assert ByteKept(j, copied, b);
    }
    SameElsewhere(before, copied, j.newAddr, Written(j), j.func.addr, OP_JMP_SIZE);
  }

  lemma BytesRestored(start: seq<Byte>, patched: seq<Byte>, newAddr: nat, n: nat, addr: nat)
    requires SameButPatch(start, patched, newAddr, n, addr) && addr + OP_JMP_SIZE <= |start|
    ensures SameOutside(start, Splice(patched, addr, start[addr..addr + OP_JMP_SIZE]), newAddr, n)
  {
    SpliceFacts(patched, addr, start[addr..addr + OP_JMP_SIZE]);
    var final := Splice(patched, addr, start[addr..addr + OP_JMP_SIZE]);
    forall a | addr <= a < addr + OP_JMP_SIZE ensures final[a] == start[a] {
      assert final[addr..addr + OP_JMP_SIZE][a - addr] == final[a];
    }
  }

  /** Outside the new buffer only the five bytes of the jump have changed. */
  predicate SameButPatch(before: seq<Byte>, after: seq<Byte>, newAddr: nat, n: nat, addr: nat) {
    && |before| == |after|
    && forall a :: 0 <= a < |before| && !(newAddr <= a < newAddr + n) && !(addr <= a < addr + OP_JMP_SIZE) ==>
         after[a] == before[a]
  }

  /** The state in which the copy loop starts. */
  ghost predicate Prepared(j: Job, arch: Arch, decode: Decoder, mem: seq<Byte>, func: Region, newAddr: nat) {
    && j.arch == arch && j.decode == decode && j.func == func && j.newAddr == newAddr
    && Ok(j) && |j.code| == func.size + WINDOW && Holds(mem, func.addr, j.code)
    && newAddr + func.size + SLACK <= |mem|
    && Apart(func.addr, newAddr, func.size + SLACK)
  }

  lemma PreparedAs(j: Job, arch: Arch, decode: Decoder, mem: seq<Byte>, func: Region, newAddr: nat)
    requires Prepared(j, arch, decode, mem, func, newAddr)
    ensures j.arch == arch && j.func == func && j.newAddr == newAddr
    ensures Prepared(j, j.arch, j.decode, mem, j.func, j.newAddr)
  {
  }

  predicate Apart(a: nat, b: nat, n: nat) { a + n <= b || b + n <= a }

  /** The state of the copy loop when it has arrived at offset `pos`. */
  ghost predicate Copying(j: Job, start: seq<Byte>, mem: seq<Byte>, pos: nat) {
    && Room(j, start) && Room(j, mem)
    && pos < j.end + WINDOW && SameOutside(start, mem, j.newAddr, pos + 4)
    && Swept(j, mem, pos) == Swept(j, start, 0)
    && Decodes(j, pos) == Decodes(j, 0) && Stop(j, pos) == Stop(j, 0)
  }

  lemma ByteBehind(j: Job, blank: seq<Byte>, b: nat)
    requires Ok(j) && Room(j, blank) && Decodes(j, 0) && Stop(j, 0) <= b < j.func.size
    requires blank[j.newAddr + b] == j.code[b]
    ensures ByteKept(j, Swept(j, blank, 0), b)
  {
    SweptBehind(j, blank, 0, b);
    hide Swept, Decodes, Stop, MeetsField;
  }

  lemma ResultByte(j: Job, mem: seq<Byte>, b: nat)
    requires Ok(j) && Room(j, mem) && Decodes(j, 0) && |j.code| == j.func.size + WINDOW && b < j.func.size
    requires j.end == Trimmed(j.code, j.func.size) && j.func.size >= OP_JMP_SIZE
    ensures ByteKept(j, CopyResult(j, mem), b)
  {
    var at, n := j.newAddr, j.func.size;
    var blank := Splice(mem, at, Zeros(n));
    SpliceByte(mem, at, Zeros(n), at + b);
    hide Splice, Swept, Decodes, Copied, ByteKept, Stop, Holds;
    if b < Stop(j, 0) {
      SweptCopies(j, blank, 0);
      ByteCopied(j, Swept(j, blank, 0), b);
    } else {
      ByteBehind(j, blank, b);
    }
  }

  /** What a successful copy leaves in memory is the relocated function. */
  lemma ResultIsCopy(j: Job, mem: seq<Byte>)
    requires Ok(j) && Room(j, mem) && Decodes(j, 0) && |j.code| == j.func.size + WINDOW
    requires Holds(mem, j.func.addr, j.code) && j.end == Trimmed(j.code, j.func.size) && j.func.size >= OP_JMP_SIZE
    ensures CopyMade(j, mem, CopyResult(j, mem), Stop(j, 0))
  {
    SweptCopies(j, Splice(mem, j.newAddr, Zeros(j.func.size)), 0);
    hide Copied, Swept, Splice;
    forall b | 0 <= b < j.func.size ensures ByteKept(j, CopyResult(j, mem), b) {
      ResultByte(j, mem, b);
    }
  }

  lemma CopyingStarts(j: Job, arch: Arch, decode: Decoder, mem: seq<Byte>, func: Region, newAddr: nat)
    requires Prepared(j, arch, decode, mem, func, newAddr)
    ensures Copying(j, mem, mem, 0)
  {
  }

  lemma CopyingOn(j: Job, start: seq<Byte>, before: seq<Byte>, after: seq<Byte>, pos: nat)
    requires Prepared(j, j.arch, j.decode, start, j.func, j.newAddr) && Copying(j, start, before, pos) && pos < j.end
    requires DecodesAt(j, pos) && after == Splice(before, j.newAddr + pos, WrittenAt(j, pos))
    ensures Copying(j, start, after, pos + InsnAt(j, pos).length)
  {
    hide Splice, WrittenAt, SameOutside;
    OnlyBufferWritten(start, before, after, j.newAddr, pos, WrittenAt(j, pos), InsnAt(j, pos).length);
  }

  lemma CopyingStops(j: Job, start: seq<Byte>, mem: seq<Byte>, pos: nat)
    requires Copying(j, start, mem, pos) && !GoesOn(j, pos)
    ensures mem == Swept(j, start, 0) && pos == Stop(j, 0) && Decodes(j, 0) == (pos >= j.end)
  {
  }

  lemma OnlyBufferWritten(start: seq<Byte>, before: seq<Byte>, after: seq<Byte>, at: nat, pos: nat,
                          bytes: seq<Byte>, n: nat)
    requires SameOutside(start, before, at, pos + 4) && n <= |bytes| <= n + 4
    requires at + pos + |bytes| <= |before| && after == Splice(before, at + pos, bytes)
    ensures SameOutside(start, after, at, pos + n + 4)
  {
    SpliceFacts(before, at + pos, bytes);
  }

  lemma WindowUntouched(j: Job, start: seq<Byte>, mem: seq<Byte>, pos: nat)
    requires Prepared(j, j.arch, j.decode, start, j.func, j.newAddr) && pos < j.end
    requires SameOutside(start, mem, j.newAddr, pos + 4)
    ensures WindowAt(mem, j.func.addr + pos) == WindowAt(j.code, pos)
  {
    SameElsewhere(start, mem, j.newAddr, pos + 4, j.func.addr + pos, WINDOW);
    HoldsPart(start, j.func.addr, j.code, pos, WINDOW);
  }
}

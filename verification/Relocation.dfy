/**
 What the copy loop of project/hijacks.c produces and what the copied code means.
 The instruction decoder of the kernel is a parameter with a small contract.
 */
module Relocation {
  import opened CodeOffsets

  const OP_JMP_REL32: Byte := 0xe9
  const OP_CALL_REL32: Byte := 0xe8

  // No x86 instruction is longer, so this many bytes decide what is decoded.
  const WINDOW: nat := 15

  type Window = bytes: seq<Byte> | |bytes| == WINDOW witness seq(WINDOW, _ => 0)
  type Field32 = x: nat | x < FIELD_RANGE witness 0

  // Length 0 stands for bytes that do not decode.  `hops` are the distances from the end of
  // the instruction to the places where control can go other than through a rel32 field:
  // 0 when it can fall through or return here, the displacements of short and conditional jumps.
  datatype Decoded = Decoded(
    length: nat, opcode: Byte, ripRelative: bool,
    immOffset: nat, immediate: Field32, dispOffset: nat, displacement: Field32, hops: set<int>)

  // An operand begins within the instruction, or at its end if it is empty.
  type Insn = i: Decoded | i.length <= WINDOW && i.immOffset <= i.length && i.dispOffset <= i.length
    witness Decoded(0, 0, false, 0, 0, 0, 0, {})

  type Decoder = Window -> Insn

  predicate IsRel32(i: Insn) { i.opcode == OP_CALL_REL32 || i.opcode == OP_JMP_REL32 }

  function Splice(bytes: seq<Byte>, at: nat, field: seq<Byte>): (r: seq<Byte>)
    requires at + |field| <= |bytes|
    ensures |r| == |bytes|
  {
    bytes[..at] + field + bytes[at + |field|..]
  }

  function Max(a: nat, b: nat): nat { if a < b then b else a }

  /** A field written over bytes, perhaps beyond their end. */
  function Over(bytes: seq<Byte>, at: nat, field: seq<Byte>): (r: seq<Byte>)
    requires at <= |bytes|
    ensures |r| == Max(|bytes|, at + |field|)
  {
    bytes[..at] + field + if at + |field| <= |bytes| then bytes[at + |field|..] else []
  }

  // ---------- One instruction ----------

  datatype Region = Region(addr: nat, size: nat)

  predicate Inside(r: Region, a: nat) { r.addr <= a < r.addr + r.size }

  // The pc-relative field that the copy has to look at, if there is one.
  datatype PcField = NoField | PcField(offset: nat, value: Field32)

  function FieldOf(arch: Arch, i: Insn): PcField {
    if IsRel32(i) then PcField(i.immOffset, i.immediate)
    else if arch.X86_64? && i.ripRelative then PcField(i.dispOffset, i.displacement)
    else NoField
  }

  predicate FieldFits(arch: Arch, w: Window, i: Insn) {
    match FieldOf(arch, i)
    case NoField => true
    case PcField(offset, value) => offset + 4 <= i.length && FieldValue(w[offset..offset + 4]) == value
  }

  /** The bytes with another value in the field. */
  function Refield(arch: Arch, w: Window, i: Insn, value: Field32): Window
    requires FieldFits(arch, w, i)
  {
    match FieldOf(arch, i)
    case NoField => w
    case PcField(offset, _) => Splice(w, offset, LittleEndian(value))
  }

  /** The instruction with another value in the field. */
  function WithField(arch: Arch, i: Insn, value: Field32): Insn {
    if IsRel32(i) then i.(immediate := value)
    else if arch.X86_64? && i.ripRelative then i.(displacement := value)
    else i
  }

  /** The contract of the decoder: an instruction depends on its own bytes only. */
  ghost predicate GoodDecoder(decode: Decoder) {
    forall v: Window, w: Window :: OwnBytesDecide(decode, v, w)
  }

  predicate OwnBytesDecide(decode: Decoder, v: Window, w: Window) {
    var n := decode(v).length;
    n > 0 && v[..n] == w[..n] ==> decode(w) == decode(v)
  }

  predicate FieldIsFree(arch: Arch, decode: Decoder, w: Window, value: Field32) {
    var i := decode(w);
    i.length > 0 && FieldFits(arch, w, i) ==> decode(Refield(arch, w, i, value)) == WithField(arch, i, value)
  }

  // The pc-relative field is a part of the instruction that decides nothing but its own value.
  ghost predicate FreeField(arch: Arch, decode: Decoder, w: Window) {
    forall value: Field32 :: FieldIsFree(arch, decode, w, value)
  }

  function Target(arch: Arch, i: Insn, at: nat): nat
    requires FieldOf(arch, i).PcField?
  {
    AddrFromOffset(arch, at, i.length, FieldOf(arch, i).value)
  }

  // The field is rewritten exactly when it points out of the function.
  predicate NeedsFixup(arch: Arch, i: Insn, at: nat, func: Region) {
    FieldOf(arch, i).PcField? && !Inside(func, Target(arch, i, at))
  }

  function FixedField(arch: Arch, i: Insn, at: nat, dest: nat): Field32
    requires FieldOf(arch, i).PcField?
  {
    OffsetFromAddr(arch, dest, i.length, Target(arch, i, at))
  }

  /** copy_and_fixup_insn: what it writes to `dest` for the instruction found at `at`.  A rewritten
      field always has four bytes, so that it sticks out if the operand has fewer. */
  function WrittenInsn(arch: Arch, w: Window, i: Insn, at: nat, dest: nat, func: Region): (bytes: seq<Byte>)
    ensures i.length <= |bytes| <= i.length + 4
  {
    if NeedsFixup(arch, i, at, func)
    then Over(w[..i.length], FieldOf(arch, i).offset, LittleEndian(FixedField(arch, i, at, dest)))
    else w[..i.length]
  }

  // The part that stays when the next instruction has been written behind it.
  function CopiedInsn(arch: Arch, w: Window, i: Insn, at: nat, dest: nat, func: Region): (bytes: seq<Byte>)
    ensures |bytes| == i.length
  {
    WrittenInsn(arch, w, i, at, dest, func)[..i.length]
  }

  /** A field in its place stays within the instruction. */
  lemma WrittenInPlace(arch: Arch, w: Window, i: Insn, at: nat, dest: nat, func: Region)
    requires FieldFits(arch, w, i)
    ensures WrittenInsn(arch, w, i, at, dest, func) == CopiedInsn(arch, w, i, at, dest, func)
    ensures CopiedInsn(arch, w, i, at, dest, func) ==
      if NeedsFixup(arch, i, at, func) then Refield(arch, w, i, FixedField(arch, i, at, dest))[..i.length]
      else w[..i.length]
  {
    if NeedsFixup(arch, i, at, func) {
      var offset, field := FieldOf(arch, i).offset, LittleEndian(FixedField(arch, i, at, dest));
      assert Over(w[..i.length], offset, field) == Splice(w, offset, field)[..i.length];
    }
  }

  /** The instruction that the copied bytes are meant to be. */
  function CopiedAs(arch: Arch, i: Insn, at: nat, dest: nat, func: Region): Insn {
    if NeedsFixup(arch, i, at, func) then WithField(arch, i, FixedField(arch, i, at, dest)) else i
  }

  /** Wherever the copied bytes stand, they decode to the same instruction up to its field. */
  lemma DecodeOfCopy(arch: Arch, decode: Decoder, w: Window, v: Window, at: nat, dest: nat, func: Region)
    requires GoodDecoder(decode) && FreeField(arch, decode, w)
    requires 0 < decode(w).length && FieldFits(arch, w, decode(w))
    requires v[..decode(w).length] == CopiedInsn(arch, w, decode(w), at, dest, func)
    ensures decode(v) == CopiedAs(arch, decode(w), at, dest, func)
  {
    var i := decode(w);
    WrittenInPlace(arch, w, i, at, dest, func);
    if NeedsFixup(arch, i, at, func) {
      var field := FixedField(arch, i, at, dest);
      assert FieldIsFree(arch, decode, w, field);
      assert OwnBytesDecide(decode, Refield(arch, w, i, field), v);
    } else {
      assert OwnBytesDecide(decode, w, v);
    }
  }

  // ---------- The sweep over a function ----------

  // `code` is the function and what follows it in memory, `end` the length without trailing zeros.
  datatype Job = Job(arch: Arch, decode: Decoder, code: seq<Byte>, func: Region, newAddr: nat, end: nat)

  predicate Ok(j: Job) {
    && j.end <= j.func.size && j.func.size + WINDOW <= |j.code|
    && j.func.addr + j.func.size < WordRange(j.arch) && j.newAddr + j.func.size < WordRange(j.arch)
  }

  function WindowAt(code: seq<Byte>, pos: nat): Window
    requires pos + WINDOW <= |code|
  {
    code[pos..pos + WINDOW]
  }

  function InsnAt(j: Job, pos: nat): Insn
    requires pos + WINDOW <= |j.code|
  {
    j.decode(WindowAt(j.code, pos))
  }

  predicate DecodesAt(j: Job, pos: nat)
    requires pos + WINDOW <= |j.code|
  {
    InsnAt(j, pos).length > 0
  }

  /** Every instruction from `pos` on decodes. */
  predicate Decodes(j: Job, pos: nat)
    requires j.end + WINDOW <= |j.code|
    decreases j.end - pos
  {
    pos >= j.end || (DecodesAt(j, pos) && Decodes(j, pos + InsnAt(j, pos).length))
  }

  // The sweep goes on at `pos`.
  predicate GoesOn(j: Job, pos: nat)
    requires j.end + WINDOW <= |j.code|
  {
    pos < j.end && DecodesAt(j, pos)
  }

  /** Where the sweep from `pos` comes to its end. */
  function Stop(j: Job, pos: nat): (stop: nat)
    requires j.end + WINDOW <= |j.code|
    ensures pos <= stop && (pos <= j.end ==> (Decodes(j, pos) <==> j.end <= stop))
    ensures stop == pos || stop < j.end + WINDOW
    decreases j.end - pos
  {
    if GoesOn(j, pos) then Stop(j, pos + InsnAt(j, pos).length) else pos
  }

  /** How far the sweep from `pos` writes. */
  function Reach(j: Job, pos: nat): (reach: nat)
    requires j.end + WINDOW <= |j.code|
    ensures Stop(j, pos) <= reach < Max(pos + 1, j.end + WINDOW + 4)
    decreases j.end - pos
  {
    if GoesOn(j, pos) then Max(pos + |WrittenAt(j, pos)|, Reach(j, pos + InsnAt(j, pos).length)) else pos
  }

  /** Of every instruction from `pos` on, up to one that does not decode, the field is in its place. */
  predicate FieldsInPlace(j: Job, pos: nat)
    requires j.end + WINDOW <= |j.code|
    decreases j.end - pos
  {
    GoesOn(j, pos) ==>
      FieldFits(j.arch, WindowAt(j.code, pos), InsnAt(j, pos)) && FieldsInPlace(j, pos + InsnAt(j, pos).length)
  }

  /** Then nothing is written beyond the last instruction. */
  lemma {:induction false} ReachIsStop(j: Job, pos: nat)
    requires j.end + WINDOW <= |j.code| && FieldsInPlace(j, pos)
    ensures Reach(j, pos) == Stop(j, pos)
    decreases j.end - pos
  {
    if GoesOn(j, pos) {
      WrittenInPlace(j.arch, WindowAt(j.code, pos), InsnAt(j, pos), j.func.addr + pos, j.newAddr + pos, j.func);
      ReachIsStop(j, pos + InsnAt(j, pos).length);
    }
  }

  /** `k` is the beginning of an instruction of the sweep from `pos`. */
  predicate IsStart(j: Job, pos: nat, k: nat): (b: bool)
    requires j.end + WINDOW <= |j.code| && Decodes(j, pos)
    ensures b ==> pos <= k < j.end && DecodesAt(j, k)
    decreases j.end - pos
  {
    pos < j.end && (k == pos || IsStart(j, pos + InsnAt(j, pos).length, k))
  }

  function WrittenAt(j: Job, pos: nat): (bytes: seq<Byte>)
    requires pos + WINDOW <= |j.code|
    ensures InsnAt(j, pos).length <= |bytes| <= InsnAt(j, pos).length + 4
  {
    WrittenInsn(j.arch, WindowAt(j.code, pos), InsnAt(j, pos), j.func.addr + pos, j.newAddr + pos, j.func)
  }

  function CopyAt(j: Job, pos: nat): (bytes: seq<Byte>)
    requires pos + WINDOW <= |j.code|
    ensures |bytes| == InsnAt(j, pos).length && bytes == WrittenAt(j, pos)[..|bytes|]
  {
    CopiedInsn(j.arch, WindowAt(j.code, pos), InsnAt(j, pos), j.func.addr + pos, j.newAddr + pos, j.func)
  }

  /** The instructions that the copy loop leaves, from `pos` on. */
  function Copied(j: Job, pos: nat): (bytes: seq<Byte>)
    requires Ok(j) && Decodes(j, pos)
    ensures |bytes| == Stop(j, pos) - pos
    decreases j.end - pos
  {
    if pos >= j.end then [] else CopyAt(j, pos) + Copied(j, pos + InsnAt(j, pos).length)
  }

  lemma SliceOfConcat<T>(a: seq<T>, b: seq<T>, lo: nat, hi: nat)
    requires |a| <= lo <= hi <= |a| + |b|
    ensures (a + b)[lo..hi] == b[lo - |a|..hi - |a|]
  {
  }

  /** Source and destination stay in lockstep: each instruction arrives at its own offset. */
  lemma {:induction false} InsnArrives(j: Job, pos: nat, k: nat)
    requires Ok(j) && Decodes(j, pos) && IsStart(j, pos, k)
    ensures var n := InsnAt(j, k).length;
      k + n <= Stop(j, pos) && Copied(j, pos)[k - pos..k - pos + n] == CopyAt(j, k)
    decreases j.end - pos
  {
    hide WrittenAt, CopyAt, InsnAt;
    var here, next := CopyAt(j, pos), pos + InsnAt(j, pos).length;
    var rest := Copied(j, next);
    assert Copied(j, pos) == here + rest;
    if k == pos {
      assert (here + rest)[..|here|] == here;
    } else {
      InsnArrives(j, next, k);
      SliceOfConcat(here, rest, k - pos, k - pos + InsnAt(j, k).length);
    }
  }

  /** The instruction that a byte of the sweep belongs to. */
  function Owner(j: Job, pos: nat, b: nat): (k: nat)
    requires Ok(j) && Decodes(j, pos) && pos <= b < Stop(j, pos)
    ensures IsStart(j, pos, k) && k <= b < k + InsnAt(j, k).length
    decreases j.end - pos
  {
    var next := pos + InsnAt(j, pos).length;
    if b < next then pos else Owner(j, next, b)
  }

  lemma ByteArrives(j: Job, k: nat, b: nat)
    requires Ok(j) && Decodes(j, 0) && IsStart(j, 0, k) && k <= b < k + InsnAt(j, k).length
    ensures b < Stop(j, 0) && Copied(j, 0)[b] == CopyAt(j, k)[b - k]
  {
    InsnArrives(j, 0, k);
    hide Copied, CopyAt, Decodes, IsStart;
    var all, n := Copied(j, 0), InsnAt(j, k).length;
    assert all[k..k + n][b - k] == all[b];
  }

  // Byte `b` of the code belongs to the field of the instruction at `k`, which points out of the function.
  predicate InRewrittenField(j: Job, k: nat, b: nat)
    requires k + WINDOW <= |j.code|
  {
    var i := InsnAt(j, k);
    && NeedsFixup(j.arch, i, j.func.addr + k, j.func)
    && k + FieldOf(j.arch, i).offset <= b < k + FieldOf(j.arch, i).offset + 4
  }

  lemma InsnDiffersOnlyInField(j: Job, k: nat, b: nat)
    requires k + WINDOW <= |j.code| && DecodesAt(j, k)
    requires k <= b < k + InsnAt(j, k).length
    ensures CopyAt(j, k)[b - k] == j.code[b] || InRewrittenField(j, k, b)
  {
    assert WindowAt(j.code, k)[b - k] == j.code[b];
  }

  // Byte `b` stands where the sweep from `pos` writes a field that points out of the function.
  ghost predicate MeetsField(j: Job, pos: nat, b: nat)
    requires Ok(j) && Decodes(j, pos)
  {
    exists k :: IsStart(j, pos, k) && InRewrittenField(j, k, b)
  }

  /** A byte of the copy is that of the original, or part of a field that points out of the function. */
  ghost predicate SameOrRewritten(j: Job, b: nat, byte: Byte)
    requires Ok(j) && Decodes(j, 0) && b < |j.code|
  {
    byte == j.code[b] || MeetsField(j, 0, b)
  }

  /** The copy equals the original byte for byte, except in fields that point out of the function. */
  lemma DiffersOnlyInFields(j: Job, b: nat)
    requires Ok(j) && Decodes(j, 0) && b < Stop(j, 0) && b < |j.code|
    ensures SameOrRewritten(j, b, Copied(j, 0)[b])
  {
    var k := Owner(j, 0, b);
    ByteArrives(j, k, b);
    InsnDiffersOnlyInField(j, k, b);
  }
}

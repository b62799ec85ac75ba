/**
 The copy made by project/hijacks.c does what the original does.  An address of memory is
 an index into a sequence of bytes; control moves from address to address.
 */
module RelocatedFlow {
  import opened CodeOffsets
  import opened Relocation

  function Fetch(decode: Decoder, mem: seq<Byte>, a: nat): Insn
    requires a + WINDOW <= |mem|
  {
    decode(WindowAt(mem, a))
  }

  function Wrap(arch: Arch, x: int): nat {
    if arch.X86_64? then x % 0x1_0000_0000_0000_0000 else x % 0x1_0000_0000
  }

  // How control goes on from an instruction, unless it leaves through a register or the stack:
  // a fall-through or a short jump over a distance, or a call or jump through the rel32 field.
  datatype Way = Hop(distance: int) | Field

  predicate Offers(i: Insn, way: Way) {
    match way
    case Hop(distance) => distance in i.hops
    case Field => IsRel32(i)
  }

  // Where a way leads from the instruction at `a`.
  function Landing(arch: Arch, i: Insn, a: nat, way: Way): nat
    requires way.Field? ==> FieldOf(arch, i).PcField?
  {
    match way
    case Hop(distance) => Wrap(arch, a + i.length + distance)
    case Field => Target(arch, i, a)
  }

  // The bytes of an instruction with its pc-relative field blanked out.
  function Template(arch: Arch, w: Window, i: Insn): seq<Byte> {
    if FieldFits(arch, w, i) then Refield(arch, w, i, 0)[..i.length] else []
  }

  /** Where an address of the original is found after the relocation. */
  function Mirror(j: Job, a: nat): nat {
    if Inside(j.func, a) then j.newAddr + (a - j.func.addr) else a
  }

  predicate Holds(mem: seq<Byte>, at: nat, bytes: seq<Byte>) {
    at + |bytes| <= |mem| && mem[at..at + |bytes|] == bytes
  }

  lemma HoldsPart(mem: seq<Byte>, at: nat, bytes: seq<Byte>, k: nat, n: nat)
    requires Holds(mem, at, bytes) && k + n <= |bytes|
    ensures mem[at + k..at + k + n] == bytes[k..k + n]
  {
    SliceOfSlice(mem, at, |bytes|, k, n);
  }

  lemma SliceOfSlice<T>(s: seq<T>, at: nat, length: nat, k: nat, n: nat)
    requires at + length <= |s| && k + n <= length
    ensures s[at..at + length][k..k + n] == s[at + k..at + k + n]
  {
    var a, b := s[at..at + length][k..k + n], s[at + k..at + k + n];
    assert forall i :: 0 <= i < n ==> a[i] == b[i];
  }

  /** `before` holds the function and `after` what became of it: the copied instructions, and over the
      whole buffer the bytes of the function but for the rewritten fields. */
  ghost predicate Relocated(j: Job, before: seq<Byte>, after: seq<Byte>) {
    && Ok(j) && Decodes(j, 0)
    && |j.code| == j.func.size + WINDOW && Holds(before, j.func.addr, j.code)
    && j.newAddr + |j.code| <= |after| && Holds(after, j.newAddr, Copied(j, 0))
    && forall b :: 0 <= b < j.func.size ==> ByteKept(j, after, b)
  }

  ghost predicate ByteKept(j: Job, after: seq<Byte>, b: nat)
    requires Ok(j) && Decodes(j, 0) && b < |j.code|
  {
    j.newAddr + b < |after| && SameOrRewritten(j, b, after[j.newAddr + b])
  }

  /** The decoder keeps its contract at every instruction that the copy loop meets. */
  ghost predicate GoodCode(j: Job)
    requires Ok(j) && Decodes(j, 0)
  {
    GoodDecoder(j.decode) && forall k :: IsStart(j, 0, k) ==> GoodField(j.arch, j.decode, WindowAt(j.code, k))
  }

  // The field is four bytes of the instruction and decides nothing else.
  ghost predicate GoodField(arch: Arch, decode: Decoder, w: Window) {
    FieldFits(arch, w, decode(w)) && FreeField(arch, decode, w)
  }

  // ---------- One instruction ----------

  lemma FetchedInsns(j: Job, before: seq<Byte>, after: seq<Byte>, k: nat)
    requires Relocated(j, before, after) && IsStart(j, 0, k)
    ensures j.func.addr + k + WINDOW <= |before| && j.newAddr + k + WINDOW <= |after| && DecodesAt(j, k)
    ensures WindowAt(before, j.func.addr + k) == WindowAt(j.code, k)
    ensures WindowAt(after, j.newAddr + k)[..InsnAt(j, k).length] == CopyAt(j, k)
  {
    HoldsPart(before, j.func.addr, j.code, k, WINDOW);
    CopiedPart(j, after, k);
    WindowPrefix(after, j.newAddr + k, InsnAt(j, k).length);
  }

  lemma CopiedPart(j: Job, after: seq<Byte>, k: nat)
    requires Ok(j) && Decodes(j, 0) && IsStart(j, 0, k) && Holds(after, j.newAddr, Copied(j, 0))
    ensures var n := InsnAt(j, k).length;
      j.newAddr + k + n <= |after| && after[j.newAddr + k..j.newAddr + k + n] == CopyAt(j, k)
  {
    hide Copied, CopyAt, InsnAt, Stop, IsStart;
    InsnArrives(j, 0, k);
    HoldsPart(after, j.newAddr, Copied(j, 0), k, InsnAt(j, k).length);
  }

  lemma WindowPrefix(mem: seq<Byte>, a: nat, n: nat)
    requires a + WINDOW <= |mem| && n <= WINDOW
    ensures WindowAt(mem, a)[..n] == mem[a..a + n]
  {
  }

  // The instruction that the copy holds for the one at offset `k`; only those that the copy
  // loop took for instructions have had their fields rewritten.
  function CopyOf(j: Job, starts: set<nat>, k: nat): Insn
    requires k + WINDOW <= |j.code|
  {
    if k in starts then CopiedAs(j.arch, InsnAt(j, k), j.func.addr + k, j.newAddr + k, j.func) else InsnAt(j, k)
  }

  lemma CopyDecodes(j: Job, starts: set<nat>, v: Window, k: nat)
    requires k + WINDOW <= |j.code| && DecodesAt(j, k) && v[..InsnAt(j, k).length] == CopyAt(j, k) && k in starts
    requires GoodDecoder(j.decode) && GoodField(j.arch, j.decode, WindowAt(j.code, k))
    ensures j.decode(v) == CopyOf(j, starts, k)
  {
    hide CopiedInsn, CopiedAs, FreeField, GoodDecoder, FieldFits;
    DecodeOfCopy(j.arch, j.decode, WindowAt(j.code, k), v, j.func.addr + k, j.newAddr + k, j.func);
  }

  lemma TemplateArrives(j: Job, starts: set<nat>, v: Window, k: nat)
    requires k + WINDOW <= |j.code| && DecodesAt(j, k) && v[..InsnAt(j, k).length] == CopyAt(j, k) && k in starts
    requires FieldFits(j.arch, WindowAt(j.code, k), InsnAt(j, k))
    ensures InsnAt(j, k).length > 0 && CopyOf(j, starts, k).length == InsnAt(j, k).length
    ensures Template(j.arch, v, CopyOf(j, starts, k)) == Template(j.arch, WindowAt(j.code, k), InsnAt(j, k))
  {
    hide CopiedInsn, Template, FieldFits;
    TemplateKept(j.arch, WindowAt(j.code, k), v, InsnAt(j, k), j.func.addr + k, j.newAddr + k, j.func);
  }

  lemma TemplateKept(arch: Arch, w: Window, v: Window, i: Insn, at: nat, dest: nat, func: Region)
    requires FieldFits(arch, w, i) && v[..i.length] == CopiedInsn(arch, w, i, at, dest, func)
    ensures Template(arch, v, CopiedAs(arch, i, at, dest, func)) == Template(arch, w, i)
  {
    hide WrittenInsn, CopiedInsn, OffsetFromAddr, AddrFromOffset;
    WrittenInPlace(arch, w, i, at, dest, func);
    if FieldOf(arch, i).PcField? {
      var offset, copied := FieldOf(arch, i).offset, CopiedInsn(arch, w, i, at, dest, func);
      assert v[offset..offset + 4] == copied[offset..offset + 4];
      if NeedsFixup(arch, i, at, func) {
        var field := FixedField(arch, i, at, dest);
        StoredField(field);
        SpliceHolds(w, offset, LittleEndian(field), i.length);
      } else {
        assert copied[offset..offset + 4] == w[offset..offset + 4];
        assert copied[..offset] == w[..offset] && copied[offset + 4..] == w[offset + 4..i.length];
      }
      BlankedAlike(v, w, offset, LittleEndian(0), copied);
    }
  }

  lemma SpliceHolds(bytes: seq<Byte>, at: nat, field: seq<Byte>, n: nat)
    requires at + |field| <= n <= |bytes|
    ensures var part := Splice(bytes, at, field)[..n];
      && part[at..at + |field|] == field
      && part[..at] == bytes[..at] && part[at + |field|..] == bytes[at + |field|..n]
  {
    assert Splice(bytes, at, field)[..n] == bytes[..at] + field + bytes[at + |field|..n];
  }

  // Two instructions that agree outside their fields.
  lemma BlankedAlike(v: seq<Byte>, w: seq<Byte>, at: nat, zero: seq<Byte>, part: seq<Byte>)
    requires at + |zero| <= |part| <= |v| == |w| && v[..|part|] == part
    requires part[..at] == w[..at] && part[at + |zero|..] == w[at + |zero|..|part|]
    ensures Splice(v, at, zero)[..|part|] == Splice(w, at, zero)[..|part|]
  {
    assert Splice(v, at, zero)[..|part|] == part[..at] + zero + part[at + |zero|..];
    assert Splice(w, at, zero)[..|part|] == w[..at] + zero + w[at + |zero|..|part|];
  }

  // ---------- Where fields and ways lead ----------

  /** The target of the field of the instruction at `k` is inside, or the field can be rewritten for it. */
  predicate FieldKept(j: Job, starts: set<nat>, k: nat)
    requires k + WINDOW <= |j.code| && FieldOf(j.arch, InsnAt(j, k)).PcField?
  {
    var i := InsnAt(j, k);
    var target := Target(j.arch, i, j.func.addr + k);
    Inside(j.func, target) || (k in starts && Reachable(j.arch, j.newAddr + k, i.length, target))
  }

  /** A hop has to stay within the function, a rel32 field within reach of the copy. */
  predicate Kept(j: Job, starts: set<nat>, k: nat, way: Way)
    requires k + WINDOW <= |j.code| && (way.Field? ==> FieldOf(j.arch, InsnAt(j, k)).PcField?)
  {
    match way
    case Hop(_) => Inside(j.func, Landing(j.arch, InsnAt(j, k), j.func.addr + k, way))
    case Field => FieldKept(j, starts, k)
  }

  /** In the copy a field denotes the mirror of its target if and only if that is inside or within reach. */
  lemma TargetMirrored(j: Job, starts: set<nat>, k: nat)
    requires Ok(j) && k < j.func.size && j.newAddr != j.func.addr && FieldOf(j.arch, InsnAt(j, k)).PcField?
    ensures FieldOf(j.arch, CopyOf(j, starts, k)).PcField?
    ensures (Target(j.arch, CopyOf(j, starts, k), j.newAddr + k)
             == Mirror(j, Target(j.arch, InsnAt(j, k), j.func.addr + k))) <==> FieldKept(j, starts, k)
  {
    hide AddrFromOffset, OffsetFromAddr, Wrap, Reachable, Signed32, InsnAt;
    var i := InsnAt(j, k);
    var at, dest := j.func.addr + k, j.newAddr + k;
    var target := Target(j.arch, i, at);
    if Inside(j.func, target) {
      TargetMovesAlong(j.arch, at, i.length, FieldOf(j.arch, i).value, j.newAddr - j.func.addr);
    } else if k in starts {
      DecodeOfEncode(j.arch, dest, i.length, target);
    } else {
      var value := FieldOf(j.arch, i).value;
      AddrIsWrap(j.arch, at, i.length, value);
      AddrIsWrap(j.arch, dest, i.length, value);
      HopMirrored(j, k, i.length, if j.arch.X86_64? then Signed32(value) else value);
    }
  }

  lemma AddrIsWrap(arch: Arch, at: nat, length: nat, value: Field32)
    ensures AddrFromOffset(arch, at, length, value)
         == Wrap(arch, at + length + if arch.X86_64? then Signed32(value) else value)
  {
  }

  /** A hop lands in the mirror of where it landed if and only if that is inside. */
  lemma HopMirrored(j: Job, k: nat, length: nat, h: int)
    requires Ok(j) && j.newAddr != j.func.addr
    ensures Wrap(j.arch, j.newAddr + k + length + h) == Mirror(j, Wrap(j.arch, j.func.addr + k + length + h))
            <==> Inside(j.func, Wrap(j.arch, j.func.addr + k + length + h))
  {
    MovedWrap(j.arch, j.func, j.newAddr, k + length + h);
  }

  lemma MovedWrap(arch: Arch, from: Region, to: nat, d: int)
    requires from.addr + from.size < WordRange(arch) && to + from.size < WordRange(arch)
    ensures Wrap(arch, to + d) == Wrap(arch, from.addr + d) <==> to == from.addr
    ensures var x := Wrap(arch, from.addr + d);
      Inside(from, x) ==> Wrap(arch, to + d) == to + (x - from.addr)
  {
    match arch
    case X86_64 =>
    case X86_32 =>
  }

  /** The copied instruction offers the same ways, and each leads to the mirror just if it is kept. */
  lemma WayMirrored(j: Job, starts: set<nat>, k: nat, way: Way)
    requires Ok(j) && k < j.func.size && j.newAddr != j.func.addr && Offers(InsnAt(j, k), way)
    ensures Offers(CopyOf(j, starts, k), way)
    ensures (Landing(j.arch, CopyOf(j, starts, k), j.newAddr + k, way)
             == Mirror(j, Landing(j.arch, InsnAt(j, k), j.func.addr + k, way))) <==> Kept(j, starts, k, way)
  {
    match way
    case Hop(h) => HopMirrored(j, k, InsnAt(j, k).length, h);
    case Field => TargetMirrored(j, starts, k);
  }

  // What memory holds at offset `k` of the function and of the copy.
  ghost predicate Fetches(j: Job, starts: set<nat>, before: seq<Byte>, after: seq<Byte>, k: nat) {
    && k < j.func.size && k + WINDOW <= |j.code|
    && j.func.addr + k + WINDOW <= |before| && j.newAddr + k + WINDOW <= |after|
    && Fetch(j.decode, before, j.func.addr + k) == InsnAt(j, k)
    && Fetch(j.decode, after, j.newAddr + k) == CopyOf(j, starts, k)
  }

  /** The instruction in the copy is as long as the original one and has the same bytes apart from the field. */
  ghost predicate SameBytes(j: Job, starts: set<nat>, before: seq<Byte>, after: seq<Byte>, k: nat)
    requires Fetches(j, starts, before, after, k)
  {
    var a, b := j.func.addr + k, j.newAddr + k;
    var i, c := InsnAt(j, k), CopyOf(j, starts, k);
    && c.length == i.length > 0
    && Template(j.arch, WindowAt(after, b), c) == Template(j.arch, WindowAt(before, a), i)
  }

  /** It offers the same ways to go on, each to the mirror if and only if it is kept, and likewise its field. */
  ghost predicate SameWays(j: Job, starts: set<nat>, k: nat)
    requires k + WINDOW <= |j.code|
  {
    var a, b := j.func.addr + k, j.newAddr + k;
    var i, c := InsnAt(j, k), CopyOf(j, starts, k);
    && FieldOf(j.arch, c).PcField? == FieldOf(j.arch, i).PcField?
    && (FieldOf(j.arch, i).PcField? ==>
          (Target(j.arch, c, b) == Mirror(j, Target(j.arch, i, a)) <==> FieldKept(j, starts, k)))
    && (forall way :: Offers(c, way) <==> Offers(i, way))
    && (forall way :: Offers(i, way) ==>
          (Landing(j.arch, c, b, way) == Mirror(j, Landing(j.arch, i, a, way)) <==> Kept(j, starts, k, way)))
  }

  lemma WaysMirrored(j: Job, starts: set<nat>, k: nat)
    requires Ok(j) && k < j.func.size && k + WINDOW <= |j.code| && j.newAddr != j.func.addr
    ensures SameWays(j, starts, k)
  {
    if FieldOf(j.arch, InsnAt(j, k)).PcField? {
      TargetMirrored(j, starts, k);
    }
    forall way | Offers(InsnAt(j, k), way)
      ensures (Landing(j.arch, CopyOf(j, starts, k), j.newAddr + k, way)
               == Mirror(j, Landing(j.arch, InsnAt(j, k), j.func.addr + k, way))) <==> Kept(j, starts, k, way)
    {
      WayMirrored(j, starts, k, way);
    }
  }

  lemma BytesFetched(j: Job, starts: set<nat>, before: seq<Byte>, after: seq<Byte>, k: nat)
    requires k < j.func.size && k + WINDOW <= |j.code|
    requires j.func.addr + k + WINDOW <= |before| && j.newAddr + k + WINDOW <= |after|
    requires WindowAt(before, j.func.addr + k) == WindowAt(j.code, k)
    requires j.decode(WindowAt(after, j.newAddr + k)) == CopyOf(j, starts, k)
    requires InsnAt(j, k).length > 0 && CopyOf(j, starts, k).length == InsnAt(j, k).length
    requires Template(j.arch, WindowAt(after, j.newAddr + k), CopyOf(j, starts, k))
          == Template(j.arch, WindowAt(j.code, k), InsnAt(j, k))
    ensures Fetches(j, starts, before, after, k) && SameBytes(j, starts, before, after, k)
  {
    hide Template, CopyOf;
  }

  function Starts(j: Job): set<nat>
    requires Ok(j) && Decodes(j, 0)
  {
    set k: nat | k < j.end && IsStart(j, 0, k)
  }

  /** Every instruction that the loop copied, whatever becomes of the others. */
  lemma InsnMirrored(j: Job, before: seq<Byte>, after: seq<Byte>, k: nat)
    requires Relocated(j, before, after) && GoodCode(j) && k in Starts(j) && j.newAddr != j.func.addr
    ensures Fetches(j, Starts(j), before, after, k) && SameBytes(j, Starts(j), before, after, k)
    ensures SameWays(j, Starts(j), k)
  {
    assert Ok(j) && k < j.func.size && k + WINDOW <= |j.code| && GoodField(j.arch, j.decode, WindowAt(j.code, k));
    assert FieldFits(j.arch, WindowAt(j.code, k), InsnAt(j, k));
    FetchedInsns(j, before, after, k);
    var starts := Starts(j);
    hide *;
    CopyDecodes(j, starts, WindowAt(after, j.newAddr + k), k);
    TemplateArrives(j, starts, WindowAt(after, j.newAddr + k), k);
    BytesFetched(j, starts, before, after, k);
    WaysMirrored(j, starts, k);
  }

  // ---------- The bytes of an instruction ----------

  // `bytes` stand at `at`, and at `dest` stands what became of them.  The four bytes at `offset` say how far the
  // target is from the end.  All others are the same, and so are these if the target is inside; if it is not,
  // they denote it from where they stand now, just if that is within reach.
  predicate OperandKept(arch: Arch, func: Region, bytes: seq<Byte>, copied: seq<Byte>, at: nat, dest: nat,
                        offset: nat, value: Field32)
    requires offset + 4 <= |bytes| == |copied|
  {
    var target := AddrFromOffset(arch, at, |bytes|, value);
    && copied[..offset] == bytes[..offset] && copied[offset + 4..] == bytes[offset + 4..]
    && if func.addr <= target < func.addr + func.size then copied[offset..offset + 4] == bytes[offset..offset + 4]
       else AddrFromOffset(arch, dest, |bytes|, FieldValue(copied[offset..offset + 4])) == target
            <==> Reachable(arch, dest, |bytes|, target)
  }

  predicate IsCallOrJump(i: Insn) { i.opcode == 0xe8 || i.opcode == 0xe9 }

  /** What becomes of a call or jump, of an instruction with a RIP-relative operand, and of any other. */
  predicate BytesKept(arch: Arch, func: Region, i: Insn, bytes: seq<Byte>, copied: seq<Byte>, at: nat, dest: nat)
    requires |bytes| == |copied| == i.length
  {
    if IsCallOrJump(i) then
      i.immOffset + 4 <= i.length ==> OperandKept(arch, func, bytes, copied, at, dest, i.immOffset, i.immediate)
    else if arch.X86_64? && i.ripRelative then
      i.dispOffset + 4 <= i.length ==> OperandKept(arch, func, bytes, copied, at, dest, i.dispOffset, i.displacement)
    else copied == bytes
  }

  // The same, of the instruction at offset `k` of the function, in the memory before and after.
  predicate InsnKept(arch: Arch, decode: Decoder, before: seq<Byte>, after: seq<Byte>, func: Region, newAddr: nat,
                     k: nat)
  {
    var at, dest := func.addr + k, newAddr + k;
    && at + WINDOW <= |before|
    && var i := Fetch(decode, before, at);
    && dest + i.length <= |after|
    && BytesKept(arch, func, i, before[at..at + i.length], after[dest..dest + i.length], at, dest)
  }

  /** Every instruction that the loop copied arrives like that. */
  lemma OperandsArrive(j: Job, before: seq<Byte>, after: seq<Byte>, k: nat)
    requires Relocated(j, before, after) && IsStart(j, 0, k)
    ensures InsnKept(j.arch, j.decode, before, after, j.func, j.newAddr, k)
  {
    hide IsStart, BytesKept, CopiedInsn;
    var i, w, at, dest := InsnAt(j, k), WindowAt(j.code, k), j.func.addr + k, j.newAddr + k;
    FetchedInsns(j, before, after, k);
    WindowPrefix(before, at, i.length);
    WindowPrefix(after, dest, i.length);
    CopiedBytesKept(j.arch, w, i, at, dest, j.func);
  }

  lemma CopiedBytesKept(arch: Arch, w: Window, i: Insn, at: nat, dest: nat, func: Region)
    ensures BytesKept(arch, func, i, w[..i.length], CopiedInsn(arch, w, i, at, dest, func), at, dest)
  {
    hide AddrFromOffset, OffsetFromAddr, Reachable;
    match FieldOf(arch, i)
    case NoField =>
    case PcField(offset, value) =>
      if offset + 4 <= i.length {
        FieldCopied(arch, w, i, at, dest, func);
      }
  }

  lemma FieldCopied(arch: Arch, w: Window, i: Insn, at: nat, dest: nat, func: Region)
    requires FieldOf(arch, i).PcField? && FieldOf(arch, i).offset + 4 <= i.length
    ensures OperandKept(arch, func, w[..i.length], CopiedInsn(arch, w, i, at, dest, func), at, dest,
                        FieldOf(arch, i).offset, FieldOf(arch, i).value)
  {
    hide AddrFromOffset, OffsetFromAddr, LittleEndian, FieldValue, Reachable;
    if NeedsFixup(arch, i, at, func) {
      var field := FixedField(arch, i, at, dest);
      DecodeOfEncode(arch, dest, i.length, Target(arch, i, at));
      StoredField(field);
      SpliceHolds(w, FieldOf(arch, i).offset, LittleEndian(field), i.length);
      assert CopiedInsn(arch, w, i, at, dest, func)
          == Splice(w, FieldOf(arch, i).offset, LittleEndian(field))[..i.length];
    }
  }

  /** The bytes at `k` decode to an instruction that stands clear of all rewritten fields. */
  ghost predicate Clear(j: Job, k: nat)
    requires Ok(j) && Decodes(j, 0) && k + WINDOW <= |j.code|
  {
    var end := k + InsnAt(j, k).length;
    k < end <= Max(j.func.size, Stop(j, 0)) && forall b :: k <= b < end ==> !MeetsField(j, 0, b)
  }

  /** Where the copy is known to hold an instruction: the loop found one there, or the one there is clear. */
  ghost function Places(j: Job): set<nat>
    requires Ok(j) && Decodes(j, 0)
  {
    set k: nat | k < j.func.size && (IsStart(j, 0, k) || Clear(j, k))
  }

  lemma ByteCopied(j: Job, after: seq<Byte>, b: nat)
    requires Ok(j) && Decodes(j, 0) && Holds(after, j.newAddr, Copied(j, 0)) && b < Stop(j, 0) && b < |j.code|
    ensures ByteKept(j, after, b)
  {
    DiffersOnlyInFields(j, b);
    hide Copied, SameOrRewritten, Decodes, Stop;
    assert after[j.newAddr..j.newAddr + |Copied(j, 0)|][b] == after[j.newAddr + b];
  }

  lemma ClearByte(j: Job, before: seq<Byte>, after: seq<Byte>, b: nat)
    requires Relocated(j, before, after) && b < Max(j.func.size, Stop(j, 0)) && b < |j.code| && !MeetsField(j, 0, b)
    ensures after[j.newAddr + b] == j.code[b]
  {
    if b < Stop(j, 0) {
      ByteCopied(j, after, b);
    }
    assert ByteKept(j, after, b);
  }

  lemma ClearInsn(j: Job, before: seq<Byte>, after: seq<Byte>, k: nat)
    requires Relocated(j, before, after) && k < j.func.size && Clear(j, k) && GoodDecoder(j.decode)
    ensures j.func.addr + k + WINDOW <= |before| && j.newAddr + k + WINDOW <= |after|
    ensures WindowAt(before, j.func.addr + k) == WindowAt(j.code, k)
    ensures j.decode(WindowAt(after, j.newAddr + k)) == InsnAt(j, k)
  {
    HoldsPart(before, j.func.addr, j.code, k, WINDOW);
    var v, w, n := WindowAt(after, j.newAddr + k), WindowAt(j.code, k), InsnAt(j, k).length;
    forall b: nat | b < n ensures v[b] == w[b] {
      ClearByte(j, before, after, k + b);
    }
    assert OwnBytesDecide(j.decode, w, v);
  }

  /** Wherever it is known: the fetch, the ways with their conditions, and the target of the field. */
  lemma PlaceMirrored(j: Job, before: seq<Byte>, after: seq<Byte>, k: nat)
    requires Relocated(j, before, after) && GoodCode(j) && k in Places(j) && j.newAddr != j.func.addr
    ensures Fetches(j, Starts(j), before, after, k) && SameWays(j, Starts(j), k)
  {
    if k in Starts(j) {
      InsnMirrored(j, before, after, k);
    } else {
      ClearInsn(j, before, after, k);
      var starts := Starts(j);
      hide Starts, SameWays, Relocated;
      WaysMirrored(j, starts, k);
    }
  }

  // ---------- Paths ----------

  // A path, and the way taken at each address but the last.
  ghost predicate IsPath(arch: Arch, decode: Decoder, mem: seq<Byte>, path: seq<nat>, ways: seq<Way>) {
    |path| == |ways| + 1 && forall n :: 0 <= n < |ways| ==> Leads(arch, decode, mem, path[n], ways[n], path[n + 1])
  }

  predicate Leads(arch: Arch, decode: Decoder, mem: seq<Byte>, a: nat, way: Way, b: nat) {
    a + WINDOW <= |mem| && Offers(Fetch(decode, mem, a), way) && b == Landing(arch, Fetch(decode, mem, a), a, way)
  }

  // Every address but the last is one of the places, counted from `base`.
  predicate InBody(places: set<nat>, base: nat, path: seq<nat>) {
    forall n :: 0 <= n < |path| - 1 ==> path[n] >= base && path[n] - base in places
  }

  // Every way taken is kept by the copy.
  ghost predicate AllKept(j: Job, starts: set<nat>, base: nat, path: seq<nat>, ways: seq<Way>) {
    forall n :: 0 <= n < |ways| ==> n < |path| && path[n] >= base && MayGo(j, starts, path[n] - base, ways[n])
  }

  predicate MayGo(j: Job, starts: set<nat>, k: nat, way: Way) {
    k + WINDOW <= |j.code| && Offers(InsnAt(j, k), way) && Kept(j, starts, k, way)
  }

  function MirrorAll(j: Job, path: seq<nat>): (q: seq<nat>)
    ensures |q| == |path| && forall n :: 0 <= n < |path| ==> q[n] == Mirror(j, path[n])
  {
    seq(|path|, n requires 0 <= n < |path| => Mirror(j, path[n]))
  }

  // From the instruction at `k`: the original goes to `b` one way; the copy goes to its mirror the same way.
  predicate GoesBefore(j: Job, before: seq<Byte>, k: nat, way: Way, b: nat) {
    Leads(j.arch, j.decode, before, j.func.addr + k, way, b)
  }

  predicate GoesAfter(j: Job, after: seq<Byte>, k: nat, way: Way, b: nat) {
    Leads(j.arch, j.decode, after, j.newAddr + k, way, b)
  }

  ghost predicate StepsExact(j: Job, before: seq<Byte>, after: seq<Byte>, starts: set<nat>, places: set<nat>) {
    forall k: nat, way: Way, b: nat :: k in places && GoesBefore(j, before, k, way, b) ==>
      k < j.func.size && (GoesAfter(j, after, k, way, Mirror(j, b)) <==> MayGo(j, starts, k, way))
  }

  lemma AllStepsExact(j: Job, before: seq<Byte>, after: seq<Byte>)
    requires Relocated(j, before, after) && GoodCode(j) && j.newAddr != j.func.addr
    ensures StepsExact(j, before, after, Starts(j), Places(j))
  {
    var starts, places := Starts(j), Places(j);
    forall k: nat, way: Way, b: nat | k in places && GoesBefore(j, before, k, way, b)
      ensures k < j.func.size && (GoesAfter(j, after, k, way, Mirror(j, b)) <==> MayGo(j, starts, k, way))
    {
      PlaceMirrored(j, before, after, k);
      StepExact(j, starts, before, after, k, way, b);
    }
  }

  lemma StepExact(j: Job, starts: set<nat>, before: seq<Byte>, after: seq<Byte>, k: nat, way: Way, b: nat)
    requires Fetches(j, starts, before, after, k) && SameWays(j, starts, k) && GoesBefore(j, before, k, way, b)
    ensures GoesAfter(j, after, k, way, Mirror(j, b)) <==> MayGo(j, starts, k, way)
  {
  }

  /**
   Every path of the original, up to its first step out of the function or into an instruction that a
   rewritten field runs into and that the copy loop did not see, is followed by the copy the same way
   at every instruction if and only if every way that it takes is kept.
   */
  lemma PathMirrored(j: Job, before: seq<Byte>, after: seq<Byte>, path: seq<nat>, ways: seq<Way>)
    requires Relocated(j, before, after) && GoodCode(j) && j.newAddr != j.func.addr
    requires IsPath(j.arch, j.decode, before, path, ways) && InBody(Places(j), j.func.addr, path)
    ensures IsPath(j.arch, j.decode, after, MirrorAll(j, path), ways)
            <==> AllKept(j, Starts(j), j.func.addr, path, ways)
  {
    AllStepsExact(j, before, after);
    PathExact(j, before, after, Starts(j), Places(j), path, ways);
  }

  lemma PathExact(j: Job, before: seq<Byte>, after: seq<Byte>, starts: set<nat>, places: set<nat>,
                  path: seq<nat>, ways: seq<Way>)
    requires StepsExact(j, before, after, starts, places)
    requires IsPath(j.arch, j.decode, before, path, ways) && InBody(places, j.func.addr, path)
    ensures IsPath(j.arch, j.decode, after, MirrorAll(j, path), ways) <==> AllKept(j, starts, j.func.addr, path, ways)
  {
    hide Leads, MayGo, StepsExact, Mirror;
    var q := MirrorAll(j, path);
    forall n: nat | n < |ways|
      ensures Leads(j.arch, j.decode, after, q[n], ways[n], q[n + 1])
              <==> MayGo(j, starts, path[n] - j.func.addr, ways[n])
    {
      PathStepExact(j, before, after, starts, places, path, ways, n);
    }
    if IsPath(j.arch, j.decode, after, q, ways) {
      forall n: nat | n < |ways| ensures MayGo(j, starts, path[n] - j.func.addr, ways[n]) {
        assert Leads(j.arch, j.decode, after, q[n], ways[n], q[n + 1]);
      }
    }
  }

  lemma PathStepExact(j: Job, before: seq<Byte>, after: seq<Byte>, starts: set<nat>, places: set<nat>,
                      path: seq<nat>, ways: seq<Way>, n: nat)
    requires StepsExact(j, before, after, starts, places) && n < |ways|
    requires IsPath(j.arch, j.decode, before, path, ways) && InBody(places, j.func.addr, path)
    ensures path[n] >= j.func.addr
    ensures var q := MirrorAll(j, path);
      Leads(j.arch, j.decode, after, q[n], ways[n], q[n + 1]) <==> MayGo(j, starts, path[n] - j.func.addr, ways[n])
  {
    hide Leads, MayGo;
    var q, k := MirrorAll(j, path), path[n] - j.func.addr;
    assert GoesBefore(j, before, k, ways[n], path[n + 1]);
    assert q[n] == j.newAddr + k;
    assert GoesAfter(j, after, k, ways[n], q[n + 1]) == Leads(j.arch, j.decode, after, q[n], ways[n], q[n + 1]);
  }

  // In the copy of the instruction at `k` the operand of a call or jump, and on 64 bits a RIP-relative operand,
  // denotes the mirror of what it denoted.
  predicate FieldMirrored(j: Job, before: seq<Byte>, after: seq<Byte>, k: nat) {
    && j.func.addr + k + WINDOW <= |before| && j.newAddr + k + WINDOW <= |after|
    && var a, b := j.func.addr + k, j.newAddr + k;
    var i, c := Fetch(j.decode, before, a), Fetch(j.decode, after, b);
    && c.opcode == i.opcode && c.ripRelative == i.ripRelative
    && (IsCallOrJump(i) ==>
          AddrFromOffset(j.arch, b, c.length, c.immediate)
          == Mirror(j, AddrFromOffset(j.arch, a, i.length, i.immediate)))
    && (!IsCallOrJump(i) && j.arch.X86_64? && i.ripRelative ==>
          AddrFromOffset(j.arch, b, c.length, c.displacement)
          == Mirror(j, AddrFromOffset(j.arch, a, i.length, i.displacement)))
  }

  predicate FieldCanBeKept(j: Job, starts: set<nat>, k: nat) {
    k + WINDOW <= |j.code| && (FieldOf(j.arch, InsnAt(j, k)).PcField? ==> FieldKept(j, starts, k))
  }

  /**
   Calls, jumps and RIP-relative operands alike: on any path of the original all fields denote the
   mirrors of their targets in the copy if and only if each of these is inside or within reach.
   */
  lemma PathFieldsMirrored(j: Job, before: seq<Byte>, after: seq<Byte>, path: seq<nat>)
    requires Relocated(j, before, after) && GoodCode(j) && j.newAddr != j.func.addr
    requires InBody(Places(j), j.func.addr, path)
    ensures (forall n :: 0 <= n < |path| - 1 ==> FieldMirrored(j, before, after, path[n] - j.func.addr))
            <==> (forall n :: 0 <= n < |path| - 1 ==> FieldCanBeKept(j, Starts(j), path[n] - j.func.addr))
  {
    hide FieldMirrored, FieldCanBeKept, GoodCode, Fetches, SameWays, Starts, Places;
    var starts := Starts(j);
    forall n | 0 <= n < |path| - 1
      ensures FieldMirrored(j, before, after, path[n] - j.func.addr)
              <==> FieldCanBeKept(j, starts, path[n] - j.func.addr)
    {
      PlaceMirrored(j, before, after, path[n] - j.func.addr);
      FieldExact(j, starts, before, after, path[n] - j.func.addr);
    }
  }

  lemma FieldExact(j: Job, starts: set<nat>, before: seq<Byte>, after: seq<Byte>, k: nat)
    requires Fetches(j, starts, before, after, k) && SameWays(j, starts, k)
    ensures FieldMirrored(j, before, after, k) <==> FieldCanBeKept(j, starts, k)
  {
    hide AddrFromOffset, FieldKept, Mirror, Offers, Landing;
  }

  // No call or jump of the original leads into the new buffer.
  predicate OutOfCopy(j: Job, k: nat) {
    k + WINDOW <= |j.code| && (IsRel32(InsnAt(j, k)) ==>
      var target := Target(j.arch, InsnAt(j, k), j.func.addr + k);
      Inside(j.func, target) || !Inside(Region(j.newAddr, j.func.size), target))
  }

  // The path of the original that a path of the copy mirrors.
  function Lifted(j: Job, path: seq<nat>, ways: seq<Way>): (p: seq<nat>)
    requires |path| == |ways| + 1
    ensures |p| == |path|
  {
    seq(|path|, n requires 0 <= n < |path| => LiftedAt(j, path, ways, n))
  }

  function LiftedAt(j: Job, path: seq<nat>, ways: seq<Way>, n: nat): nat
    requires n < |path| == |ways| + 1
  {
    if n < |ways| then j.func.addr + Distance(path[n], j.newAddr)
    else if n == 0 then j.func.addr
    else
      var k := Distance(path[n - 1], j.newAddr);
      if k + WINDOW <= |j.code| && Offers(InsnAt(j, k), ways[n - 1])
      then Landing(j.arch, InsnAt(j, k), j.func.addr + k, ways[n - 1])
      else 0
  }

  function Distance(a: nat, base: nat): nat { if a >= base then a - base else 0 }

  /** And the copy, entered where the hook sends its caller, follows no other path. */
  lemma PathLifted(j: Job, before: seq<Byte>, after: seq<Byte>, path: seq<nat>, ways: seq<Way>)
    requires Relocated(j, before, after) && GoodCode(j) && j.newAddr != j.func.addr && j.func.size > 0
    requires IsPath(j.arch, j.decode, after, path, ways) && path[0] == j.newAddr && InBody(Places(j), j.newAddr, path)
    requires AllKept(j, Starts(j), j.newAddr, path, ways)
    requires forall n :: 0 <= n < |ways| ==> OutOfCopy(j, path[n] - j.newAddr)
    ensures var p := Lifted(j, path, ways);
      && IsPath(j.arch, j.decode, before, p, ways) && p[0] == j.func.addr
      && InBody(Places(j), j.func.addr, p) && path == MirrorAll(j, p)
  {
    var p := Lifted(j, path, ways);
    AllStepsLifted(j, before, after);
    forall n: nat | n < |ways| ensures IsLifted(j, before, Places(j), p, path, ways, n) {
      LiftOne(j, before, after, Starts(j), Places(j), path, ways, n);
    }
    assert p[0] == j.func.addr;
    hide *;
    Assembled(j, before, Places(j), p, path, ways);
  }

  lemma Assembled(j: Job, before: seq<Byte>, places: set<nat>, p: seq<nat>, path: seq<nat>, ways: seq<Way>)
    requires |p| == |path| == |ways| + 1 && p[0] == j.func.addr && path[0] == j.newAddr && j.func.size > 0
    requires forall n: nat :: n < |ways| ==> IsLifted(j, before, places, p, path, ways, n)
    ensures IsPath(j.arch, j.decode, before, p, ways) && InBody(places, j.func.addr, p) && path == MirrorAll(j, p)
  {
    hide Leads;
    forall n: nat | n < |ways|
      ensures Leads(j.arch, j.decode, before, p[n], ways[n], p[n + 1])
      ensures p[n] >= j.func.addr && p[n] - j.func.addr in places
    {
      assert IsLifted(j, before, places, p, path, ways, n);
    }
    forall n: nat | n < |path| ensures path[n] == Mirror(j, p[n]) {
      if n > 0 {
        assert IsLifted(j, before, places, p, path, ways, n - 1);
      }
    }
  }

  predicate IsLifted(j: Job, before: seq<Byte>, places: set<nat>, p: seq<nat>, path: seq<nat>, ways: seq<Way>, n: nat) {
    && n < |ways| && |p| == |path| == |ways| + 1
    && Leads(j.arch, j.decode, before, p[n], ways[n], p[n + 1]) && path[n + 1] == Mirror(j, p[n + 1])
    && p[n] >= j.func.addr && p[n] - j.func.addr in places && path[n] == Mirror(j, p[n])
  }

  // The copy goes to `b` because the original goes to what `b` mirrors.
  predicate ComesFrom(j: Job, before: seq<Byte>, k: nat, way: Way, b: nat) {
    && k + WINDOW <= |j.code| && Offers(InsnAt(j, k), way)
    && var x := Landing(j.arch, InsnAt(j, k), j.func.addr + k, way);
    && GoesBefore(j, before, k, way, x)
    && b == Mirror(j, x) && (Inside(j.func, x) || !Inside(Region(j.newAddr, j.func.size), x))
  }

  ghost predicate StepsLifted(j: Job, before: seq<Byte>, after: seq<Byte>, starts: set<nat>, places: set<nat>) {
    forall k: nat, way: Way, b: nat ::
      k in places && GoesAfter(j, after, k, way, b) && MayGo(j, starts, k, way) && OutOfCopy(j, k) ==>
      k < j.func.size && ComesFrom(j, before, k, way, b)
  }

  lemma AllStepsLifted(j: Job, before: seq<Byte>, after: seq<Byte>)
    requires Relocated(j, before, after) && GoodCode(j) && j.newAddr != j.func.addr
    ensures StepsLifted(j, before, after, Starts(j), Places(j))
  {
    var starts, places := Starts(j), Places(j);
    forall k: nat, way: Way, b: nat |
      k in places && GoesAfter(j, after, k, way, b) && MayGo(j, starts, k, way) && OutOfCopy(j, k)
      ensures k < j.func.size && ComesFrom(j, before, k, way, b)
    {
      PlaceMirrored(j, before, after, k);
      StepLifted(j, starts, before, after, k, way, b);
    }
  }

  lemma StepLifted(j: Job, starts: set<nat>, before: seq<Byte>, after: seq<Byte>, k: nat, way: Way, b: nat)
    requires Fetches(j, starts, before, after, k) && SameWays(j, starts, k)
    requires GoesAfter(j, after, k, way, b) && MayGo(j, starts, k, way) && OutOfCopy(j, k)
    ensures ComesFrom(j, before, k, way, b)
  {
  }

  lemma LiftOne(j: Job, before: seq<Byte>, after: seq<Byte>, starts: set<nat>, places: set<nat>,
                path: seq<nat>, ways: seq<Way>, n: nat)
    requires StepsLifted(j, before, after, starts, places)
    requires IsPath(j.arch, j.decode, after, path, ways) && InBody(places, j.newAddr, path)
    requires AllKept(j, starts, j.newAddr, path, ways)
    requires n < |ways| && OutOfCopy(j, path[n] - j.newAddr)
    requires forall k :: k in places ==> k < j.func.size
    ensures IsLifted(j, before, places, Lifted(j, path, ways), path, ways, n)
  {
    var k := path[n] - j.newAddr;
    assert k in places && MayGo(j, starts, k, ways[n]);
    assert GoesAfter(j, after, k, ways[n], path[n + 1]);
    assert ComesFrom(j, before, k, ways[n], path[n + 1]);
    hide Leads, Landing, MayGo, IsPath, AllKept, StepsLifted, OutOfCopy;
    if n + 1 < |ways| {
      assert path[n + 1] - j.newAddr in places;
    }
  }

  // ---------- A decoder that meets the contract ----------

  /** A machine with the near call and jump, one short conditional jump, the load of a word at a RIP-relative
      address, the return, and else instructions of one byte. */
  function SmallDecoder(w: Window): Insn {
    if w[0] == OP_CALL_REL32 || w[0] == OP_JMP_REL32
    then Decoded(5, w[0], false, 1, FieldValue(w[1..5]), 0, 0, if w[0] == OP_CALL_REL32 then {0} else {})
    else if w[0] == OP_JNE_REL8
    then Decoded(2, w[0], false, 0, 0, 0, 0, {0, Signed8(w[1])})
    else if w[0] == REX_W
    then
      if w[1] == OP_MOV && w[2] == MODRM_RAX_DISP32 then Decoded(7, w[1], true, 7, 0, 3, FieldValue(w[3..7]), {0})
      else Decoded(0, 0, false, 0, 0, 0, 0, {})
    else Decoded(1, w[0], false, 0, 0, 0, 0, if w[0] == OP_RET then {} else {0})
  }

  function Signed8(b: Byte): int { if b < 0x80 then b else b as int - 0x100 }

  const OP_JNE_REL8: Byte := 0x75
  const OP_NOP: Byte := 0x90
  const OP_RET: Byte := 0xc3
  const REX_W: Byte := 0x48
  const OP_MOV: Byte := 0x8b
  const MODRM_RAX_DISP32: Byte := 0x05

  lemma ContractCanBeMet(arch: Arch)
    ensures GoodDecoder(SmallDecoder)
    ensures forall w: Window :: GoodField(arch, SmallDecoder, w)
  {
    forall w: Window, value: Field32 ensures FieldIsFree(arch, SmallDecoder, w, value) {
      StoredField(value);
    }
    forall v: Window, w: Window ensures OwnBytesDecide(SmallDecoder, v, w) {
      var n := SmallDecoder(v).length;
      if n > 0 && v[..n] == w[..n] {
        assert v[0] == v[..n][0] == w[0];
        assert n >= 2 ==> v[1] == v[..n][1] == w[1];
        assert n == 5 ==> v[1..5] == v[..5][1..5] == w[1..5];
        assert n == 7 ==> v[2] == v[..7][2] == w[2] && v[3..7] == v[..7][3..7] == w[3..7];
      }
    }
  }

  // A function for that machine; `beyond` follows it in memory.
  function Sample(bytes: seq<Byte>, beyond: Window, addr: nat, newAddr: nat): Job {
    Job(X86_64, SmallDecoder, bytes + beyond, Region(addr, |bytes|), newAddr, |bytes|)
  }

  lemma FourBytes(w: Window, k: nat)
    requires k + 4 <= WINDOW
    ensures w[k..k + 4] == [w[k], w[k + 1], w[k + 2], w[k + 3]]
  {
  }

  const NOPS: Window := seq(WINDOW, _ => OP_NOP)

  /** A conditional jump out of the function is not kept: the copy lands 64 bytes after the right place. */
  lemma ShortJumpEscapes()
    ensures var j := Sample([OP_JNE_REL8, 0x10, OP_NOP, OP_NOP, OP_NOP], NOPS, 0, 64);
      && Ok(j) && Decodes(j, 0) && IsStart(j, 0, 0) && Offers(InsnAt(j, 0), Hop(0x10))
      && !Kept(j, Starts(j), 0, Hop(0x10))
      && Mirror(j, Landing(j.arch, InsnAt(j, 0), 0, Hop(0x10))) == 18
      && Landing(j.arch, CopyOf(j, Starts(j), 0), 64, Hop(0x10)) == 18 + 64
  {
    var j := Sample([OP_JNE_REL8, 0x10, OP_NOP, OP_NOP, OP_NOP], NOPS, 0, 64);
    assert InsnAt(j, 0).length == 2 && InsnAt(j, 2).length == InsnAt(j, 3).length == InsnAt(j, 4).length == 1;
    assert Decodes(j, 5) && Decodes(j, 4) && Decodes(j, 3) && Decodes(j, 2);
  }

  /** A call whose target is out of reach of the copy is not kept: the copy calls 2^32 above the right place. */
  lemma CallOutOfReach()
    ensures var j := Sample([OP_CALL_REL32, 0, 0x10, 0, 0], NOPS, 0x1000, 0x1_0000_1000);
      && Ok(j) && Decodes(j, 0) && IsStart(j, 0, 0) && Offers(InsnAt(j, 0), Field)
      && !Kept(j, Starts(j), 0, Field)
      && Mirror(j, Landing(j.arch, InsnAt(j, 0), 0x1000, Field)) == 0x2005
      && Landing(j.arch, CopyOf(j, Starts(j), 0), 0x1_0000_1000, Field) == 0x1_0000_2005
  {
    var j := Sample([OP_CALL_REL32, 0, 0x10, 0, 0], NOPS, 0x1000, 0x1_0000_1000);
    FourBytes(WindowAt(j.code, 0), 1);
    assert InsnAt(j, 0).length == 5 && InsnAt(j, 0).immediate == 0x1000;
    assert Decodes(j, 5);
  }

  /** Padding after the last jump does not matter: its way out is not kept, but no path takes it. */
  lemma PaddingDoesNotMatter()
    ensures var j := Sample([OP_JMP_REL32, 0xfb, 0xff, 0xff, 0xff, OP_NOP], NOPS, 0, 64);
      && Ok(j) && Decodes(j, 0) && IsStart(j, 0, 5) && !MayGo(j, Starts(j), 5, Hop(0))
      && AllKept(j, Starts(j), 0, [0, 0, 0], [Field, Field])
  {
    var j := Sample([OP_JMP_REL32, 0xfb, 0xff, 0xff, 0xff, OP_NOP], NOPS, 0, 64);
    FourBytes(WindowAt(j.code, 0), 1);
    assert InsnAt(j, 0).length == 5 && InsnAt(j, 0).immediate == 0xffff_fffb && InsnAt(j, 5).length == 1;
    assert Decodes(j, 6) && Decodes(j, 5);
    assert IsStart(j, 5, 5);
  }

  const LOAD: seq<Byte> := [REX_W, OP_MOV, MODRM_RAX_DISP32, 0, 0x10, 0, 0, OP_RET]

  /** A load of a word outside: the copy's displacement is rewritten, and it loads the same word. */
  lemma LoadOfData(before: seq<Byte>, after: seq<Byte>)
    requires Relocated(Sample(LOAD, NOPS, 0x1000, 0x10_0000), before, after)
    ensures |before| > 0x1007 && before[0x1003..0x1007] == [0, 0x10, 0, 0]
    ensures |after| > 0x10_0007 && after[0x10_0003..0x10_0007] == [0, 0x20, 0xf0, 0xff]
    ensures AddrFromOffset(X86_64, 0x1000, 7, FieldValue([0, 0x10, 0, 0])) == 0x2007
    ensures AddrFromOffset(X86_64, 0x10_0000, 7, FieldValue([0, 0x20, 0xf0, 0xff])) == 0x2007
  {
    var j := Sample(LOAD, NOPS, 0x1000, 0x10_0000);
    LoadDecodes(j);
    HoldsPart(before, 0x1000, j.code, 3, 4);
    hide Relocated, IsStart, Decodes, SmallDecoder;
    OperandOfLoad(j, before, after);
  }

  lemma LoadDecodes(j: Job)
    requires j == Sample(LOAD, NOPS, 0x1000, 0x10_0000)
    ensures Ok(j) && Decodes(j, 0) && IsStart(j, 0, 0) && j.code[3..7] == [0, 0x10, 0, 0]
    ensures InsnAt(j, 0) == Decoded(7, OP_MOV, true, 7, 0, 3, 0x1000, {0})
  {
    var w := WindowAt(j.code, 0);
    assert w[0] == REX_W && w[1] == OP_MOV && w[2] == MODRM_RAX_DISP32;
    assert w[3] == 0 && w[4] == 0x10 && w[5] == w[6] == 0;
    FourBytes(w, 3);
    assert j.code[3..7] == w[3..7];
    assert WindowAt(j.code, 7)[0] == OP_RET && InsnAt(j, 7).length == 1;
    assert Decodes(j, 8) && Decodes(j, 7);
  }

  lemma OperandOfLoad(j: Job, before: seq<Byte>, after: seq<Byte>)
    requires Relocated(j, before, after) && j.arch == X86_64 && IsStart(j, 0, 0)
    requires j.func == Region(0x1000, 8) && j.newAddr == 0x10_0000
    requires InsnAt(j, 0) == Decoded(7, OP_MOV, true, 7, 0, 3, 0x1000, {0})
    ensures |after| > 0x10_0007 && after[0x10_0003..0x10_0007] == [0, 0x20, 0xf0, 0xff]
  {
    FetchedInsns(j, before, after, 0);
    OperandsArrive(j, before, after, 0);
    assert after[0x10_0000..0x10_0007][3..7] == after[0x10_0003..0x10_0007];
    FieldOfLoad(after[0x10_0003..0x10_0007]);
  }

  // Only one field leads from there to the word.
  lemma FieldOfLoad(field: seq<Byte>)
    requires |field| == 4 && AddrFromOffset(X86_64, 0x10_0000, 7, FieldValue(field)) == 0x2007
    ensures field == [0, 0x20, 0xf0, 0xff]
  {
  }

  const INTO_FIELD: seq<Byte> := [OP_JNE_REL8, 1, OP_CALL_REL32, 0x29, 0, 0, 0, OP_NOP]

  /**
   A jump into the field of a call out of the function: all ways on this path stay inside, but the copy
   has the byte of a jump there, and not the byte that the path goes on at.
   */
  lemma JumpIntoField(before: seq<Byte>, after: seq<Byte>)
    requires Relocated(Sample(INTO_FIELD, NOPS, 0, 64), before, after)
    ensures var j := Sample(INTO_FIELD, NOPS, 0, 64);
      && IsPath(j.arch, j.decode, before, [0, 3, 4], [Hop(1), Hop(0)]) && 3 !in Places(j)
      && AllKept(j, Starts(j), 0, [0, 3, 4], [Hop(1), Hop(0)])
      && !IsPath(j.arch, j.decode, after, MirrorAll(j, [0, 3, 4]), [Hop(1), Hop(0)])
  {
    var j := Sample(INTO_FIELD, NOPS, 0, 64);
    FieldOfCall(j);
    JumpFetched(j, before);
    ByteOfField(j, before, after);
    assert Ok(j) && j.func == Region(0, 8) && j.newAddr == 64 && j.arch == X86_64 && j.decode == SmallDecoder;
    hide *;
    PathLost(j, before, after);
  }

  lemma PathLost(j: Job, before: seq<Byte>, after: seq<Byte>)
    requires Ok(j) && j.func == Region(0, 8) && j.newAddr == 64 && j.arch == X86_64 && j.decode == SmallDecoder
    requires Decodes(j, 0) && IsStart(j, 0, 0) && !IsStart(j, 0, 3) && MeetsField(j, 0, 3)
    requires WINDOW <= |before| && Fetch(j.decode, before, 0) == InsnAt(j, 0) && InsnAt(j, 0).hops == {0, 1}
    requires 3 + WINDOW <= |before| && Fetch(j.decode, before, 3) == InsnAt(j, 3) && InsnAt(j, 3).hops == {0}
    requires InsnAt(j, 0).length == 2 && InsnAt(j, 3).length == 1
    requires |after| > 67 && after[67] == OP_JMP_REL32
    ensures IsPath(j.arch, j.decode, before, [0, 3, 4], [Hop(1), Hop(0)]) && 3 !in Places(j)
    ensures AllKept(j, Starts(j), 0, [0, 3, 4], [Hop(1), Hop(0)])
    ensures !IsPath(j.arch, j.decode, after, MirrorAll(j, [0, 3, 4]), [Hop(1), Hop(0)])
  {
    hide Decodes, IsStart, IsRel32, MeetsField;
    var q, ways := MirrorAll(j, [0, 3, 4]), [Hop(1), Hop(0)];
    assert !Leads(j.arch, j.decode, after, q[1], ways[1], q[2]);
  }

  // The path in the original.
  lemma JumpFetched(j: Job, before: seq<Byte>)
    requires j == Sample(INTO_FIELD, NOPS, 0, 64) && Holds(before, 0, j.code)
    ensures WINDOW <= |before| && Fetch(j.decode, before, 0) == InsnAt(j, 0) && InsnAt(j, 0).hops == {0, 1}
    ensures 3 + WINDOW <= |before| && Fetch(j.decode, before, 3) == InsnAt(j, 3) && InsnAt(j, 3).hops == {0}
    ensures InsnAt(j, 0).length == 2 && InsnAt(j, 3).length == 1
  {
    HoldsPart(before, 0, j.code, 0, WINDOW);
    HoldsPart(before, 0, j.code, 3, WINDOW);
    assert WindowAt(j.code, 3)[0] == 0x29 && WindowAt(j.code, 0)[0] == OP_JNE_REL8 && WindowAt(j.code, 0)[1] == 1;
  }

  // What the copy holds where the path goes on.
  lemma ByteOfField(j: Job, before: seq<Byte>, after: seq<Byte>)
    requires Relocated(j, before, after) && j.newAddr == 64 && IsStart(j, 0, 2) && InRewrittenField(j, 2, 3)
    requires InsnAt(j, 2).length == 5 && CopyAt(j, 2)[1] == OP_JMP_REL32 && |j.code| >= 8
    ensures MeetsField(j, 0, 3) && |after| >= 72 && after[67] == OP_JMP_REL32
  {
    ByteArrives(j, 2, 3);
    HoldsPart(after, 64, Copied(j, 0), 3, 1);
    assert after[67..68] == [OP_JMP_REL32];
  }

  lemma FieldOfCall(j: Job)
    requires j == Sample(INTO_FIELD, NOPS, 0, 64)
    ensures Ok(j) && Decodes(j, 0) && IsStart(j, 0, 0) && IsStart(j, 0, 2) && !IsStart(j, 0, 3)
    ensures InRewrittenField(j, 2, 3) && InsnAt(j, 2).length == 5 && CopyAt(j, 2)[1] == OP_JMP_REL32
  {
    hide InRewrittenField, CopyAt;
    CallDecodes(j);
    assert WindowAt(j.code, 0)[0] == OP_JNE_REL8 && WindowAt(j.code, 7)[0] == OP_NOP;
    assert InsnAt(j, 0).length == 2 && InsnAt(j, 7).length == 1;
    assert Decodes(j, 8) && Decodes(j, 7) && Decodes(j, 2) && !IsStart(j, 2, 3) && IsStart(j, 2, 2);
    CallIsRewritten(j);
  }

  lemma CallDecodes(j: Job)
    requires j == Sample(INTO_FIELD, NOPS, 0, 64)
    ensures InsnAt(j, 2) == Decoded(5, OP_CALL_REL32, false, 1, 0x29, 0, 0, {0})
  {
    var w := WindowAt(j.code, 2);
    assert w[0] == OP_CALL_REL32 && w[1] == 0x29 && w[2] == w[3] == w[4] == 0;
    FourBytes(w, 1);
  }

  lemma CallIsRewritten(j: Job)
    requires 2 + WINDOW <= |j.code| && InsnAt(j, 2) == Decoded(5, OP_CALL_REL32, false, 1, 0x29, 0, 0, {0})
    requires j.arch == X86_64 && j.func == Region(0, 8) && j.newAddr == 64
    ensures InRewrittenField(j, 2, 3) && CopyAt(j, 2)[1] == OP_JMP_REL32
  {
    hide InsnAt;
    assert Target(j.arch, InsnAt(j, 2), 2) == 48 && FixedField(j.arch, InsnAt(j, 2), 2, 66) == 0xffff_ffe9;
    assert LittleEndian(0xffff_ffe9)[0] == OP_JMP_REL32;
  }
}

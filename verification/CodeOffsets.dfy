/**
 The two macros of project/hijacks.c that turn a pc-relative 32-bit field into the
 address it denotes and back, for both kernel configurations, with the widths of C
 written out: an address is a value modulo the word size, a field one modulo 2^32.
 */
module CodeOffsets {

  datatype Arch = X86_64 | X86_32

  type Byte = x: nat | x < 0x100

  const FIELD_RANGE: nat := 0x1_0000_0000

  function WordRange(arch: Arch): nat {
    if arch.X86_64? then 0x1_0000_0000_0000_0000 else 0x1_0000_0000
  }

  /** A cast to a signed 32-bit value. */
  function Signed32(field: nat): int
    requires field < FIELD_RANGE
  {
    if field < 0x8000_0000 then field else field - FIELD_RANGE
  }

  // CODE_ADDR_FROM_OFFSET: only the 64-bit variant sign-extends.
  function AddrFromOffset(arch: Arch, insnAddr: nat, length: nat, field: nat): (addr: nat)
    requires field < FIELD_RANGE
    ensures addr < WordRange(arch)
  {
    if arch.X86_64? then (insnAddr + length + Signed32(field)) % 0x1_0000_0000_0000_0000
    else (insnAddr + length + field) % 0x1_0000_0000
  }

  // CODE_OFFSET_FROM_ADDR: a difference of addresses cut down to 32 bits.
  function OffsetFromAddr(arch: Arch, insnAddr: nat, length: nat, dest: nat): (field: nat)
    ensures field < FIELD_RANGE
  {
    if arch.X86_64? then (dest - (insnAddr + length)) % 0x1_0000_0000_0000_0000 % 0x1_0000_0000
    else (dest - (insnAddr + length)) % 0x1_0000_0000 % 0x1_0000_0000
  }

  /** The destination lies within a signed 32-bit distance of the end of the instruction. */
  predicate Reachable(arch: Arch, insnAddr: nat, length: nat, dest: nat) {
    arch.X86_64? ==>
      var distance := (dest - (insnAddr + length)) % 0x1_0000_0000_0000_0000;
      distance < 0x8000_0000 || distance >= 0xffff_ffff_8000_0000
  }

  /** Encoding loses an address exactly when it is out of reach; on 32 bits nothing is. */
  lemma DecodeOfEncode(arch: Arch, insnAddr: nat, length: nat, dest: nat)
    requires dest < WordRange(arch)
    ensures AddrFromOffset(arch, insnAddr, length, OffsetFromAddr(arch, insnAddr, length, dest)) == dest
            <==> Reachable(arch, insnAddr, length, dest)
  {
    var base := insnAddr + length;
    if arch.X86_64? {
      SumOfCutDifference(base, dest, (dest - base) % 0x1_0000_0000_0000_0000);
    } else {
      SumOfNarrowDifference(base, dest);
    }
  }

  lemma SumOfCutDifference(base: nat, dest: nat, distance: nat)
    requires dest < 0x1_0000_0000_0000_0000 && distance == (dest - base) % 0x1_0000_0000_0000_0000
    ensures (base + Signed32(distance % 0x1_0000_0000)) % 0x1_0000_0000_0000_0000 == dest
            <==> distance < 0x8000_0000 || distance >= 0xffff_ffff_8000_0000
  {
    SameAddress(base + distance, dest);
    SameAddress(base + Signed32(distance % 0x1_0000_0000), base + distance);
    CutToField(distance);
  }

  lemma SumOfNarrowDifference(base: nat, dest: nat)
    requires dest < 0x1_0000_0000
    ensures (base + (dest - base) % 0x1_0000_0000 % 0x1_0000_0000) % 0x1_0000_0000 == dest
  {
  }

  lemma CutToField(distance: nat)
    requires distance < 0x1_0000_0000_0000_0000
    ensures (Signed32(distance % 0x1_0000_0000) - distance) % 0x1_0000_0000_0000_0000 == 0
            <==> distance < 0x8000_0000 || distance >= 0xffff_ffff_8000_0000
  {
    var high, low := distance / 0x1_0000_0000, distance % 0x1_0000_0000;
    assert distance == high * 0x1_0000_0000 + low && high < 0x1_0000_0000;
    var gap := distance - Signed32(low);
    assert gap == (if low < 0x8000_0000 then high else high + 1) * 0x1_0000_0000;
    assert 0 <= gap <= 0x1_0000_0000_0000_0000;
    assert (0 - gap) % 0x1_0000_0000_0000_0000 == 0 <==> gap == 0 || gap == 0x1_0000_0000_0000_0000;
  }

  lemma SameAddress(a: int, b: int)
    ensures a % 0x1_0000_0000_0000_0000 == b % 0x1_0000_0000_0000_0000 <==> (a - b) % 0x1_0000_0000_0000_0000 == 0
  {
  }

  lemma EncodeOfDecode(arch: Arch, insnAddr: nat, length: nat, field: nat)
    requires field < FIELD_RANGE
    ensures OffsetFromAddr(arch, insnAddr, length, AddrFromOffset(arch, insnAddr, length, field)) == field
    ensures Reachable(arch, insnAddr, length, AddrFromOffset(arch, insnAddr, length, field))
  {
    var base := insnAddr + length;
    if arch.X86_64? {
      DifferenceOfSum(base, Signed32(field));
      SignedDistance(field);
      hide Signed32;
    } else {
      DifferenceOfNarrowSum(base, field);
    }
  }

  lemma SignedDistance(field: nat)
    requires field < FIELD_RANGE
    ensures var distance := Signed32(field) % 0x1_0000_0000_0000_0000;
      && distance % 0x1_0000_0000 == field && (distance < 0x8000_0000 || distance >= 0xffff_ffff_8000_0000)
  {
  }

  lemma DifferenceOfSum(base: nat, signed: int)
    ensures ((base + signed) % 0x1_0000_0000_0000_0000 - base) % 0x1_0000_0000_0000_0000
            == signed % 0x1_0000_0000_0000_0000
  {
  }

  lemma DifferenceOfNarrowSum(base: nat, field: nat)
    requires field < 0x1_0000_0000
    ensures ((base + field) % 0x1_0000_0000 - base) % 0x1_0000_0000 == field
  {
  }

  /** An unchanged field denotes a target that moves along with its instruction. */
  lemma TargetMovesAlong(arch: Arch, insnAddr: nat, length: nat, field: nat, shift: int)
    requires field < FIELD_RANGE && insnAddr + shift >= 0
    ensures var target := AddrFromOffset(arch, insnAddr, length, field);
      0 <= target + shift < WordRange(arch) ==> AddrFromOffset(arch, insnAddr + shift, length, field) == target + shift
  {
  }

  // ---------- Little-endian storage of a field ----------

  function LittleEndian(field: nat): (bytes: seq<Byte>)
    requires field < FIELD_RANGE
    ensures |bytes| == 4
  {
    var rest := field / 0x100;
    [field % 0x100, rest % 0x100, rest / 0x100 % 0x100, rest / 0x100 / 0x100]
  }

  function FieldValue(bytes: seq<Byte>): (field: nat)
    requires |bytes| == 4
    ensures field < FIELD_RANGE
  {
    bytes[0] as int + 0x100 * bytes[1] as int + 0x1_0000 * bytes[2] as int + 0x100_0000 * bytes[3] as int
  }

  lemma StoredField(field: nat)
    requires field < FIELD_RANGE
    ensures FieldValue(LittleEndian(field)) == field
  {
  }
}

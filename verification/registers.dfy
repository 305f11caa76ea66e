/**
 * Shared types and constants of the LPC32x0 register tools (src/registers.h):
 * the access-permission encoding, the shape of a register descriptor and of a
 * named register set, and the register addresses the SPI-NOR driver uses.
 */
module Registers {
  import opened Word

  datatype Option<T> = None | Some(value: T)

  /** `Access_e` together with the `accessRW` macro: the three permissions a descriptor can carry. */
  datatype Access = AccessRead | AccessWrite | AccessRW

  /** The integer each permission has in C: accessRead = 1, accessWrite = 2, accessRW = 1 | 2. */
  function Code(a: Access): u32
  {
    match a
    case AccessRead => 1
    case AccessWrite => 2
    case AccessRW => 3
  }

  /** The bitwise test `access & accessRead` the access functions make. */
  predicate Readable(a: Access)
  {
    And(Code(a), Code(AccessRead)) != 0
  }

  /** The bitwise test `access & accessWrite`. */
  predicate Writable(a: Access)
  {
    And(Code(a), Code(AccessWrite)) != 0
  }

  /**
   * The encoding is a non-empty subset of {R, W}: the two single permissions
   * occupy different bits, so their OR, accessRW, is their sum; and each bit
   * test picks out exactly the permissions that contain it.
   */
  lemma AccessEncoding(a: Access)
    ensures And(Code(AccessRead), Code(AccessWrite)) == 0
    ensures Code(AccessRW) == Code(AccessRead) + Code(AccessWrite)
    ensures Code(a) != 0 && And(Code(a), 3) == Code(a)
    ensures Readable(a) <==> a == AccessRead || a == AccessRW
    ensures Writable(a) <==> a == AccessWrite || a == AccessRW
    ensures Readable(a) || Writable(a)
  {
  }

  /**
   * `RegisterDescription_t`: the descriptive text `desc_p` is left out and the
   * field decoder `field_fp` is reduced to whether it is present (non-NULL).
   */
  datatype RegisterDescription = Reg(addr: u32, resetState: u32, name: string, access: Access, hasDecoder: bool)

  /** `AllRegisters_t`: a set name and its descriptor table (the size pointer is the length). */
  datatype RegisterSet = RegisterSet(name: string, regs: seq<RegisterDescription>)

  /** Start of the 4 KiB page an address lies in: `addr & 0xfffff000`. */
  function PageOf(addr: u32): u32
  {
    addr - addr % 0x1000
  }

  /** Offset of an address inside its page: `addr & 0x00000fff`. */
  function OffsetOf(addr: u32): int
  {
    addr % 0x1000
  }

  /** The page base and the offset are the address masked with 0xfffff000 and with 0xfff. */
  lemma PageMasks(addr: u32)
    ensures PageOf(addr) == And(addr, 0xffff_f000)
    ensures OffsetOf(addr) == And(addr, 0xfff)
  {
    Pow2Word();
    assert Pow2(12) == 0x1000;
    AndHighOnes(addr, 32, 12);
    AndLowOnes(addr, 12);
  }

  predicate InPage(addr: u32, base: u32)
  {
    base <= addr < base + 0x1000
  }

  /**
   * Splitting an address into page and offset loses nothing: the offset stays
   * inside the 4 KiB window and base | offset, written here as a sum because the
   * two have no bit in common, is the address again.
   */
  lemma PageSplit(addr: u32)
    ensures PageOf(addr) % 0x1000 == 0
    ensures 0 <= OffsetOf(addr) < 0x1000
    ensures PageOf(addr) + OffsetOf(addr) == addr
    ensures InPage(addr, PageOf(addr))
    ensures forall base: u32 :: base % 0x1000 == 0 ==> (InPage(addr, base) <==> base == PageOf(addr))
  {
  }

  /** Position `i` of table `t` holds `addr`, and no other position does. */
  predicate OnlyAt(t: seq<RegisterDescription>, addr: u32, i: nat)
  {
    && i < |t|
    && t[i].addr == addr
    && forall j :: 0 <= j < |t| && t[j].addr == addr ==> j == i
  }

  /** Whether `s` ends with `suffix`; the register names share suffixes such as "_STATE". */
  predicate EndsWith(s: string, suffix: string)
  {
    |suffix| <= |s| && s[|s| - |suffix|..] == suffix
  }

  // Register addresses used by the SPI-NOR driver (src/registers.h).
  const P2_MUX_CLR: u32 := 0x4002_802C
  const P2_DIR_SET: u32 := 0x4002_8010
  const SPI_CTRL: u32 := 0x4000_40C4
  const SPI1_GLOBAL: u32 := 0x2008_8000
  const P3_OUTP_SET: u32 := 0x4002_8004
  const P3_OUTP_CLR: u32 := 0x4002_8008
  const SPI1_CON: u32 := 0x2008_8004
  const SPI1_FRM: u32 := 0x2008_8008
  const SPI1_STAT: u32 := 0x2008_8010
  const SPI1_DAT: u32 := 0x2008_8014
  const P3_INP_STATE: u32 := 0x4002_8000
}

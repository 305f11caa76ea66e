/**
 * The single-level-cell NAND controller's descriptor table `slc[]` (src/slc.c).
 */
module Slc {
  import opened Word
  import opened Registers

  // src/slc.c:279-286
  const Transfer: seq<RegisterDescription> := [
    Reg(0x2002_0000, 0, "SLC_DATA", AccessRW, true),
    Reg(0x2002_0004, 0, "SLC_ADDR", AccessWrite, true),
    Reg(0x2002_0008, 0, "SLC_CMD", AccessWrite, true),
    Reg(0x2002_000c, 0, "SLC_STOP", AccessWrite, true),
    Reg(0x2002_0010, 0, "SLC_CTRL", AccessRW, true),
    Reg(0x2002_0014, 0, "SLC_CFG", AccessRW, true),
    Reg(0x2002_0018, 0, "SLC_STAT", AccessRead, true),
    Reg(0x2002_001c, 0, "SLC_INT_STAT", AccessRead, true)
  ]

  // src/slc.c:287-293
  const Interrupt: seq<RegisterDescription> := [
    Reg(0x2002_0020, 0, "SLC_IEN", AccessRW, true),
    Reg(0x2002_0024, 0, "SLC_ISR", AccessWrite, true),
    Reg(0x2002_0028, 0, "SLC_ICR", AccessWrite, true),
    Reg(0x2002_002c, 0, "SLC_TAC", AccessRW, true),
    Reg(0x2002_0030, 0, "SLC_TC", AccessRW, true),
    Reg(0x2002_0034, 0, "SLC_ECC", AccessRead, true),
    Reg(0x2002_0038, 0, "SLC_DMA_DATA", AccessWrite, true)
  ]

  /** `slc[]`: 15 descriptors, in the source order. */
  const Table: seq<RegisterDescription> := Transfer + Interrupt

  /**
   * The permission the table records for the slc register at `addr`: SLC_ADDR,
   * SLC_CMD, SLC_STOP, SLC_ISR, SLC_ICR and SLC_DMA_DATA (offsets 0x04, 0x08,
   * 0x0c, 0x24, 0x28, 0x38) are write-only; SLC_STAT, SLC_INT_STAT and SLC_ECC
   * (0x18, 0x1c, 0x34) read-only; SLC_DATA, SLC_CTRL, SLC_CFG, SLC_IEN, SLC_TAC
   * and SLC_TC read-write.
   */
  function RecordedAccess(addr: u32): Access
  {
    var off := OffsetOf(addr);
    if off == 0x04 || off == 0x08 || off == 0x0c || off == 0x24 || off == 0x28 || off == 0x38 then AccessWrite
    else if off == 0x18 || off == 0x1c || off == 0x34 then AccessRead
    else AccessRW
  }

  /** What every slc descriptor satisfies: a decoded word register of page 0x20020000 with reset 0. */
  predicate Row(r: RegisterDescription)
  {
    && r.addr % 4 == 0
    && PageOf(r.addr) == 0x2002_0000
    && r.resetState == 0
    && r.hasDecoder
    && r.access == RecordedAccess(r.addr)
  }

  lemma TransferRows()
    ensures forall i :: 0 <= i < |Transfer| ==> Row(Transfer[i])
    ensures forall i :: 0 < i < |Transfer| ==> Transfer[i - 1].addr < Transfer[i].addr
  {
  }

  lemma InterruptRows()
    ensures forall i :: 0 <= i < |Interrupt| ==> Row(Interrupt[i])
    ensures forall i :: 0 < i < |Interrupt| ==> Interrupt[i - 1].addr < Interrupt[i].addr
  {
  }

  /**
   * Every slc entry satisfies Row, and the addresses ascend through the table.
   */
  lemma TableFacts()
    ensures |Table| == 15
    ensures forall i :: 0 <= i < |Table| ==> Row(Table[i])
    ensures forall i :: 0 < i < |Table| ==> Table[i - 1].addr < Table[i].addr
  {
    TransferRows();
    InterruptRows();
  }
}

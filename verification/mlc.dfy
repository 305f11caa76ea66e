/**
 * The multi-level-cell NAND controller's descriptor table `mlc[]` (src/mlc.c).
 */
module Mlc {
  import opened Word
  import opened Registers

  // src/mlc.c:264-274
  const DataAndCommand: seq<RegisterDescription> := [
    Reg(0x200a_8000, 0, "MLC_BUFF", AccessRW, false),
    Reg(0x200b_0000, 0, "MLC_DATA", AccessRW, false),
    Reg(0x200b_8000, 0, "MLC_CMD", AccessWrite, true),
    Reg(0x200b_8004, 0, "MLC_ADDR", AccessWrite, true),
    Reg(0x200b_8008, 0, "MLC_ECC_ENC_REG", AccessWrite, true),
    Reg(0x200b_800c, 0, "MLC_ECC_DEC_REG", AccessWrite, true),
    Reg(0x200b_8010, 0, "MLC_ECC_AUTO_ENC_REG", AccessWrite, true),
    Reg(0x200b_8014, 0, "MLC_ECC_AUTO_DEC_REG", AccessWrite, true),
    Reg(0x200b_8018, 0, "MLC_RPR", AccessWrite, true),
    Reg(0x200b_801c, 0, "MLC_WPR", AccessWrite, true),
    Reg(0x200b_8020, 0, "MLC_RUBP", AccessWrite, true)
  ]

  // src/mlc.c:275-284
  const ProtectAndStatus: seq<RegisterDescription> := [
    Reg(0x200b_8024, 0, "MLC_ROBP", AccessWrite, true),
    Reg(0x200b_8028, 0, "MLC_SW_WP_ADD_LOW", AccessWrite, true),
    Reg(0x200b_802c, 0, "MLC_SW_WP_ADD_HIG", AccessWrite, true),
    Reg(0x200b_8030, 0, "MLC_ICR", AccessWrite, true),
    Reg(0x200b_8034, 0x37, "MLC_TIME_REG", AccessWrite, true),
    Reg(0x200b_8038, 0, "MLC_IRQ_MR", AccessWrite, true),
    Reg(0x200b_803c, 0, "MLC_IRQ_SR", AccessRead, true),
    Reg(0x200b_8044, 0, "MLC_LOCK_PR", AccessWrite, true),
    Reg(0x200b_8048, 0, "MLC_ISR", AccessRead, true),
    Reg(0x200b_804c, 0, "MLC_CEH", AccessWrite, true)
  ]

  /** `mlc[]`: 21 descriptors, in the source order. */
  const Table: seq<RegisterDescription> := DataAndCommand + ProtectAndStatus

  /**
   * The permission the table records for the mlc register at `addr`: the
   * buffers MLC_BUFF (0x200a8000) and MLC_DATA (0x200b0000) are read-write,
   * MLC_IRQ_SR (0x200b803c) and MLC_ISR (0x200b8048) read-only, the rest
   * write-only.
   */
  function RecordedAccess(addr: u32): Access
  {
    if addr == 0x200a_8000 || addr == 0x200b_0000 then AccessRW
    else if addr == 0x200b_803c || addr == 0x200b_8048 then AccessRead
    else AccessWrite
  }

  /**
   * What every mlc descriptor satisfies: a word register in one of the pages
   * 0x200a8000, 0x200b0000 and 0x200b8000; the two buffers have no decoder;
   * MLC_TIME_REG (0x200b8034) records reset 0x37, the rest 0.
   */
  predicate Row(r: RegisterDescription)
  {
    && r.addr % 4 == 0
    && (PageOf(r.addr) == 0x200a_8000 || PageOf(r.addr) == 0x200b_0000 || PageOf(r.addr) == 0x200b_8000)
    && r.access == RecordedAccess(r.addr)
    && r.hasDecoder == !(r.addr == 0x200a_8000 || r.addr == 0x200b_0000)
    && r.resetState == (if r.addr == 0x200b_8034 then 0x37 else 0)
  }

  lemma DataAndCommandRows()
    ensures forall i :: 0 <= i < |DataAndCommand| ==> Row(DataAndCommand[i])
  {
  }

  lemma DataAndCommandAscends()
    ensures forall i :: 0 < i < |DataAndCommand| ==> DataAndCommand[i - 1].addr < DataAndCommand[i].addr
  {
  }

  lemma ProtectAndStatusRows()
    ensures forall i :: 0 <= i < |ProtectAndStatus| ==> Row(ProtectAndStatus[i])
    ensures forall i :: 0 < i < |ProtectAndStatus| ==> ProtectAndStatus[i - 1].addr < ProtectAndStatus[i].addr
  {
  }

  /**
   * Every mlc entry satisfies Row, and the addresses ascend through the table.
   */
  lemma TableFacts()
    ensures |Table| == 21
    ensures forall i :: 0 <= i < |Table| ==> Row(Table[i])
    ensures forall i :: 0 < i < |Table| ==> Table[i - 1].addr < Table[i].addr
  {
    DataAndCommandRows();
    DataAndCommandAscends();
    ProtectAndStatusRows();
  }

  /** Where the registers with a distinctive row are, by name. */
  lemma Named()
    ensures |Table| == 21
    ensures Table[0].addr == 0x200a_8000 && Table[0].name == "MLC_BUFF"
    ensures Table[1].addr == 0x200b_0000 && Table[1].name == "MLC_DATA"
    ensures Table[15].addr == 0x200b_8034 && Table[15].name == "MLC_TIME_REG"
    ensures Table[17].addr == 0x200b_803c && Table[17].name == "MLC_IRQ_SR"
    ensures Table[19].addr == 0x200b_8048 && Table[19].name == "MLC_ISR"
  {
  }
}

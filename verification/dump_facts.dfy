/**
 * What the dumps of `lpc32x0__get_and_print_reg_set_by_name` print for the
 * sets whose addresses belong to them alone (gpdma, mlc and slc): exactly
 * their readable entries, in table order, each with its current value.
 */
module DumpFacts {
  import opened Word
  import opened Registers
  import opened Catalog
  import opened DevMem
  import opened CatalogFacts
  import Gpdma
  import Mlc
  import Slc

  lemma GpdmaSelfShown()
    ensures SelfShown(AllRegisters, Gpdma.Table)
  {
    forall k | 0 <= k < |Gpdma.Table|
      ensures Shown(AllRegisters, Gpdma.Table[k].addr) == Some(Gpdma.Table[k])
      ensures Find(AllRegisters, Gpdma.Table[k].addr, NeedRead).Some? <==> Readable(Gpdma.Table[k].access)
    {
      GpdmaShownAt(k);
      GpdmaReadAt(k);
    }
  }

  lemma GpdmaShownAt(k: nat)
    requires k < |Gpdma.Table|
    ensures Shown(AllRegisters, Gpdma.Table[k].addr) == Some(Gpdma.Table[k])
  {
    GpdmaOwnsItsEntries(k, AnyAccess);
  }

  lemma GpdmaReadAt(k: nat)
    requires k < |Gpdma.Table|
    ensures Find(AllRegisters, Gpdma.Table[k].addr, NeedRead).Some? <==> Readable(Gpdma.Table[k].access)
  {
    GpdmaOwnsItsEntries(k, NeedRead);
  }

  lemma MlcSelfShown()
    ensures SelfShown(AllRegisters, Mlc.Table)
  {
    forall k | 0 <= k < |Mlc.Table|
      ensures Shown(AllRegisters, Mlc.Table[k].addr) == Some(Mlc.Table[k])
      ensures Find(AllRegisters, Mlc.Table[k].addr, NeedRead).Some? <==> Readable(Mlc.Table[k].access)
    {
      MlcOwnsItsEntries(k, NeedRead);
      MlcOwnsItsEntries(k, AnyAccess);
    }
  }

  lemma SlcSelfShown()
    ensures SelfShown(AllRegisters, Slc.Table)
  {
    forall k | 0 <= k < |Slc.Table|
      ensures Shown(AllRegisters, Slc.Table[k].addr) == Some(Slc.Table[k])
      ensures Find(AllRegisters, Slc.Table[k].addr, NeedRead).Some? <==> Readable(Slc.Table[k].access)
    {
      SlcOwnsItsEntries(k, NeedRead);
      SlcOwnsItsEntries(k, AnyAccess);
    }
  }

  /** Dumping gpdma, mlc or slc prints each readable entry of the set with its value, and nothing else. */
  lemma OwnedSetsDump(mem: u32 -> u32)
    ensures DumpLines(AllRegisters, Gpdma.Table, mem) == ReadableLines(Gpdma.Table, mem)
    ensures DumpLines(AllRegisters, Mlc.Table, mem) == ReadableLines(Mlc.Table, mem)
    ensures DumpLines(AllRegisters, Slc.Table, mem) == ReadableLines(Slc.Table, mem)
  {
    GpdmaSelfShown();
    DumpOfSelfShown(AllRegisters, Gpdma.Table, mem);
    MlcSelfShown();
    DumpOfSelfShown(AllRegisters, Mlc.Table, mem);
    SlcSelfShown();
    DumpOfSelfShown(AllRegisters, Slc.Table, mem);
  }

  /** A table with no readable entry prints nothing. */
  lemma {:induction false} NoneReadable(regs: seq<RegisterDescription>, mem: u32 -> u32)
    requires forall k :: 0 <= k < |regs| ==> !Readable(regs[k].access)
    ensures ReadableLines(regs, mem) == []
    decreases |regs|
  {
    if regs != [] {
      NoneReadable(regs[..|regs| - 1], mem);
    }
  }

  lemma ReadableLinesOne(r: RegisterDescription, mem: u32 -> u32)
    ensures ReadableLines([r], mem) == if Readable(r.access) then [Line(r, mem(r.addr))] else []
  {
    assert [r][..0] == [];
  }

  lemma DataAndCommandReadable(mem: u32 -> u32)
    ensures ReadableLines(Mlc.DataAndCommand, mem) == [
      Line(Mlc.DataAndCommand[0], mem(0x200a_8000)), Line(Mlc.DataAndCommand[1], mem(0x200b_0000))]
  {
    var d := Mlc.DataAndCommand;
    assert d == [d[0]] + [d[1]] + d[2..];
    AccessEncoding(AccessRW);
    AccessEncoding(AccessWrite);
    NoneReadable(d[2..], mem);
    ReadableLinesOne(d[0], mem);
    ReadableLinesOne(d[1], mem);
    ReadableLinesAppend([d[0]], [d[1]], mem);
    ReadableLinesAppend([d[0]] + [d[1]], d[2..], mem);
  }

  lemma ProtectAndStatusReadable(mem: u32 -> u32)
    ensures ReadableLines(Mlc.ProtectAndStatus, mem) == [
      Line(Mlc.ProtectAndStatus[6], mem(0x200b_803c)), Line(Mlc.ProtectAndStatus[8], mem(0x200b_8048))]
  {
    var p := Mlc.ProtectAndStatus;
    assert p == p[..6] + [p[6]] + [p[7]] + [p[8]] + p[9..];
    AccessEncoding(AccessRead);
    AccessEncoding(AccessWrite);
    NoneReadable(p[..6], mem);
    NoneReadable(p[9..], mem);
    ReadableLinesOne(p[6], mem);
    ReadableLinesOne(p[7], mem);
    ReadableLinesOne(p[8], mem);
    ReadableLinesAppend(p[..6], [p[6]], mem);
    ReadableLinesAppend(p[..6] + [p[6]], [p[7]], mem);
    ReadableLinesAppend(p[..6] + [p[6]] + [p[7]], [p[8]], mem);
    ReadableLinesAppend(p[..6] + [p[6]] + [p[7]] + [p[8]], p[9..], mem);
  }

  /** The readable mlc entries are MLC_BUFF, MLC_DATA, MLC_IRQ_SR and MLC_ISR, in that order. */
  lemma MlcReadableLines(mem: u32 -> u32)
    ensures |Mlc.Table| == 21
    ensures ReadableLines(Mlc.Table, mem) == [
      Line(Mlc.Table[0], mem(0x200a_8000)), Line(Mlc.Table[1], mem(0x200b_0000)),
      Line(Mlc.Table[17], mem(0x200b_803c)), Line(Mlc.Table[19], mem(0x200b_8048))]
  {
    Mlc.Named();
    DataAndCommandReadable(mem);
    ProtectAndStatusReadable(mem);
    ReadableLinesAppend(Mlc.DataAndCommand, Mlc.ProtectAndStatus, mem);
  }

  /**
   * Dumping mlc with /dev/mem available and every mapping succeeding
   * prints MLC_BUFF, MLC_DATA, MLC_IRQ_SR and MLC_ISR with their values;
   * the seventeen write-only registers are not read.
   */
  lemma MlcDump(mem: u32 -> u32)
    ensures |Mlc.Table| == 21
    ensures DumpLines(AllRegisters, Mlc.Table, mem) == [
      Line(Mlc.Table[0], mem(0x200a_8000)), Line(Mlc.Table[1], mem(0x200b_0000)),
      Line(Mlc.Table[17], mem(0x200b_803c)), Line(Mlc.Table[19], mem(0x200b_8048))]
  {
    MlcSelfShown();
    DumpOfSelfShown(AllRegisters, Mlc.Table, mem);
    MlcReadableLines(mem);
  }
}

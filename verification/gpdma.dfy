/**
 * The general-purpose DMA controller's descriptor table `gpdma[]`
 * (src/gpdma.c): thirteen global registers, then five registers for each of
 * the eight channels.
 */
module Gpdma {
  import opened Word
  import opened Registers

  // src/gpdma.c:322-334
  const Global: seq<RegisterDescription> := [
    Reg(0x3100_0000, 0, "DMACIntStat", AccessRW, true),
    Reg(0x3100_0004, 0, "DMACIntTCStat", AccessRead, true),
    Reg(0x3100_0008, 0, "DMACIntTCClear", AccessWrite, true),
    Reg(0x3100_000c, 0, "DMACIntErrStat", AccessRead, true),
    Reg(0x3100_0010, 0, "DMACIntErrClr", AccessWrite, true),
    Reg(0x3100_0014, 0, "DMACRawIntTCStat", AccessRead, true),
    Reg(0x3100_0018, 0, "DMACRawIntErrStat", AccessRead, true),
    Reg(0x3100_001c, 0, "DMACEnbldChns", AccessRead, true),
    Reg(0x3100_0020, 0, "DMACSoftBReq", AccessRW, true),
    Reg(0x3100_0024, 0, "DMACSoftSReq", AccessRW, true),
    Reg(0x3100_0028, 0, "DMACSoftLBReq", AccessRW, true),
    Reg(0x3100_002c, 0, "DMACSoftLSReq", AccessRW, true),
    Reg(0x3100_0030, 0, "DMACConfig", AccessRW, true)
  ]

  // src/gpdma.c:336-346
  const Channels0and1: seq<RegisterDescription> := [
    Reg(0x3100_0100, 0, "DMACC0SrcAddr", AccessRW, true),
    Reg(0x3100_0104, 0, "DMACC0DestAddr", AccessRW, true),
    Reg(0x3100_0108, 0, "DMACC0LLI", AccessRW, true),
    Reg(0x3100_010c, 0, "DMACC0Control", AccessRW, true),
    Reg(0x3100_0110, 0, "DMACC0Config", AccessRW, true),
    Reg(0x3100_0120, 0, "DMACC1SrcAddr", AccessRW, true),
    Reg(0x3100_0124, 0, "DMACC1DestAddr", AccessRW, true),
    Reg(0x3100_0128, 0, "DMACC1LLI", AccessRW, true),
    Reg(0x3100_012c, 0, "DMACC1Control", AccessRW, true),
    Reg(0x3100_0130, 0, "DMACC1Config", AccessRW, true)
  ]

  // src/gpdma.c:348-358
  const Channels2and3: seq<RegisterDescription> := [
    Reg(0x3100_0140, 0, "DMACC2SrcAddr", AccessRW, true),
    Reg(0x3100_0144, 0, "DMACC2DestAddr", AccessRW, true),
    Reg(0x3100_0148, 0, "DMACC2LLI", AccessRW, true),
    Reg(0x3100_014c, 0, "DMACC2Control", AccessRW, true),
    Reg(0x3100_0150, 0, "DMACC2Config", AccessRW, true),
    Reg(0x3100_0160, 0, "DMACC3SrcAddr", AccessRW, true),
    Reg(0x3100_0164, 0, "DMACC3DestAddr", AccessRW, true),
    Reg(0x3100_0168, 0, "DMACC3LLI", AccessRW, true),
    Reg(0x3100_016c, 0, "DMACC3Control", AccessRW, true),
    Reg(0x3100_0170, 0, "DMACC3Config", AccessRW, true)
  ]

  // src/gpdma.c:360-370
  const Channels4and5: seq<RegisterDescription> := [
    Reg(0x3100_0180, 0, "DMACC4SrcAddr", AccessRW, true),
    Reg(0x3100_0184, 0, "DMACC4DestAddr", AccessRW, true),
    Reg(0x3100_0188, 0, "DMACC4LLI", AccessRW, true),
    Reg(0x3100_018c, 0, "DMACC4Control", AccessRW, true),
    Reg(0x3100_0190, 0, "DMACC4Config", AccessRW, true),
    Reg(0x3100_01a0, 0, "DMACC5SrcAddr", AccessRW, true),
    Reg(0x3100_01a4, 0, "DMACC5DestAddr", AccessRW, true),
    Reg(0x3100_01a8, 0, "DMACC5LLI", AccessRW, true),
    Reg(0x3100_01ac, 0, "DMACC5Control", AccessRW, true),
    Reg(0x3100_01b0, 0, "DMACC5Config", AccessRW, true)
  ]

  // src/gpdma.c:372-382
  const Channels6and7: seq<RegisterDescription> := [
    Reg(0x3100_01c0, 0, "DMACC6SrcAddr", AccessRW, true),
    Reg(0x3100_01c4, 0, "DMACC6DestAddr", AccessRW, true),
    Reg(0x3100_01c8, 0, "DMACC6LLI", AccessRW, true),
    Reg(0x3100_01cc, 0, "DMACC6Control", AccessRW, true),
    Reg(0x3100_01d0, 0, "DMACC6Config", AccessRW, true),
    Reg(0x3100_01e0, 0, "DMACC7SrcAddr", AccessRW, true),
    Reg(0x3100_01e4, 0, "DMACC7DestAddr", AccessRW, true),
    Reg(0x3100_01e8, 0, "DMACC7LLI", AccessRW, true),
    Reg(0x3100_01ec, 0, "DMACC7Control", AccessRW, true),
    Reg(0x3100_01f0, 0, "DMACC7Config", AccessRW, true)
  ]

  /** `gpdma[]`: 53 descriptors, in the source order. */
  const Table: seq<RegisterDescription> := Global + Channels0and1 + Channels2and3 + Channels4and5 + Channels6and7

  /**
   * The permission the table records for the gpdma register at `addr`: the
   * interrupt-clear registers DMACIntTCClear (0x31000008) and DMACIntErrClr
   * (0x31000010) are write-only; DMACIntTCStat, DMACIntErrStat,
   * DMACRawIntTCStat, DMACRawIntErrStat and DMACEnbldChns (0x31000004,
   * 0x3100000c, 0x31000014 to 0x3100001c) are read-only; the rest are
   * read-write.
   */
  function RecordedAccess(addr: u32): Access
  {
    if addr == 0x3100_0008 || addr == 0x3100_0010 then AccessWrite
    else if addr == 0x3100_0004 || addr == 0x3100_000c || 0x3100_0014 <= addr <= 0x3100_001c then AccessRead
    else AccessRW
  }

  /** What every gpdma descriptor satisfies. */
  predicate Row(r: RegisterDescription)
  {
    && r.addr % 4 == 0
    && PageOf(r.addr) == 0x3100_0000
    && r.resetState == 0
    && r.hasDecoder
    && r.access == RecordedAccess(r.addr)
  }

  lemma GlobalRows()
    ensures forall i :: 0 <= i < |Global| ==> Row(Global[i])
    ensures forall i :: 0 < i < |Global| ==> Global[i - 1].addr < Global[i].addr
  {
  }

  lemma Channels0and1Rows()
    ensures forall i :: 0 <= i < |Channels0and1| ==> Row(Channels0and1[i])
    ensures forall i :: 0 < i < |Channels0and1| ==> Channels0and1[i - 1].addr < Channels0and1[i].addr
  {
  }

  lemma Channels2and3Rows()
    ensures forall i :: 0 <= i < |Channels2and3| ==> Row(Channels2and3[i])
    ensures forall i :: 0 < i < |Channels2and3| ==> Channels2and3[i - 1].addr < Channels2and3[i].addr
  {
  }

  lemma Channels4and5Rows()
    ensures forall i :: 0 <= i < |Channels4and5| ==> Row(Channels4and5[i])
    ensures forall i :: 0 < i < |Channels4and5| ==> Channels4and5[i - 1].addr < Channels4and5[i].addr
  {
  }

  lemma Channels6and7Rows()
    ensures forall i :: 0 <= i < |Channels6and7| ==> Row(Channels6and7[i])
    ensures forall i :: 0 < i < |Channels6and7| ==> Channels6and7[i - 1].addr < Channels6and7[i].addr
  {
  }

  /**
   * Every gpdma entry is a word register of page 0x31000000 with reset 0 and a
   * decoder, carrying the permission RecordedAccess gives its address; the
   * addresses ascend through the table.
   */
  lemma TableFacts()
    ensures |Table| == 53
    ensures forall i :: 0 <= i < |Table| ==> Row(Table[i])
    ensures forall i :: 0 < i < |Table| ==> Table[i - 1].addr < Table[i].addr
  {
    GlobalRows();
    Channels0and1Rows();
    Channels2and3Rows();
    Channels4and5Rows();
    Channels6and7Rows();
  }

  /** Where the two interrupt-clear registers are, by name. */
  lemma ClearRegisters()
    ensures |Table| > 4
    ensures Table[2].addr == 0x3100_0008 && Table[2].name == "DMACIntTCClear"
    ensures Table[4].addr == 0x3100_0010 && Table[4].name == "DMACIntErrClr"
  {
  }

  lemma Channels0and1Layout()
    ensures |Channels0and1| == 10
    ensures forall i :: 0 <= i < 10 ==> Channels0and1[i].addr == 0x3100_0100 + 0x20 * (i / 5) + 4 * (i % 5)
  {
  }

  lemma Channels0and1At(n: nat, f: nat)
    requires 0 <= n < 2 && f < 5
    ensures 13 + 5 * n + f < |Table|
    ensures Table[13 + 5 * n + f].addr == 0x3100_0100 + 0x20 * n + 4 * f
    ensures Table[13 + 5 * n + f].access == AccessRW
  {
    Channels0and1Layout();
    var i := 13 + 5 * n + f;
    assert Table[i] == Channels0and1[i - 13];
    assert (i - 13) / 5 == n - 0 && (i - 13) % 5 == f;
  }

  lemma Channels2and3Layout()
    ensures |Channels2and3| == 10
    ensures forall i :: 0 <= i < 10 ==> Channels2and3[i].addr == 0x3100_0140 + 0x20 * (i / 5) + 4 * (i % 5)
  {
  }

  lemma Channels2and3At(n: nat, f: nat)
    requires 2 <= n < 4 && f < 5
    ensures 13 + 5 * n + f < |Table|
    ensures Table[13 + 5 * n + f].addr == 0x3100_0100 + 0x20 * n + 4 * f
    ensures Table[13 + 5 * n + f].access == AccessRW
  {
    Channels2and3Layout();
    var i := 13 + 5 * n + f;
    assert Table[i] == Channels2and3[i - 23];
    assert (i - 23) / 5 == n - 2 && (i - 23) % 5 == f;
  }

  lemma Channels4and5Layout()
    ensures |Channels4and5| == 10
    ensures forall i :: 0 <= i < 10 ==> Channels4and5[i].addr == 0x3100_0180 + 0x20 * (i / 5) + 4 * (i % 5)
  {
  }

  lemma Channels4and5At(n: nat, f: nat)
    requires 4 <= n < 6 && f < 5
    ensures 13 + 5 * n + f < |Table|
    ensures Table[13 + 5 * n + f].addr == 0x3100_0100 + 0x20 * n + 4 * f
    ensures Table[13 + 5 * n + f].access == AccessRW
  {
    Channels4and5Layout();
    var i := 13 + 5 * n + f;
    assert Table[i] == Channels4and5[i - 33];
    assert (i - 33) / 5 == n - 4 && (i - 33) % 5 == f;
  }

  lemma Channels6and7Layout()
    ensures |Channels6and7| == 10
    ensures forall i :: 0 <= i < 10 ==> Channels6and7[i].addr == 0x3100_01c0 + 0x20 * (i / 5) + 4 * (i % 5)
  {
  }

  lemma Channels6and7At(n: nat, f: nat)
    requires 6 <= n < 8 && f < 5
    ensures 13 + 5 * n + f < |Table|
    ensures Table[13 + 5 * n + f].addr == 0x3100_0100 + 0x20 * n + 4 * f
    ensures Table[13 + 5 * n + f].access == AccessRW
  {
    Channels6and7Layout();
    var i := 13 + 5 * n + f;
    assert Table[i] == Channels6and7[i - 43];
    assert (i - 43) / 5 == n - 6 && (i - 43) % 5 == f;
  }

  /**
   * Channel n's register f (SrcAddr, DestAddr, LLI, Control, Config for
   * f = 0..4) is entry 13 + 5n + f, at 0x31000100 + 0x20 n + 4 f, and is
   * read-write.
   */
  lemma ChannelLayout(n: nat, f: nat)
    requires n < 8 && f < 5
    ensures 13 + 5 * n + f < |Table|
    ensures Table[13 + 5 * n + f].addr == 0x3100_0100 + 0x20 * n + 4 * f
    ensures Table[13 + 5 * n + f].access == AccessRW
  {
    if n < 2 {
      Channels0and1At(n, f);
    } else if n < 4 {
      Channels2and3At(n, f);
    } else if n < 6 {
      Channels4and5At(n, f);
    } else {
      Channels6and7At(n, f);
    }
  }
}

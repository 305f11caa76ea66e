/**
 * The SPI controllers' descriptor table `spi[]` (src/spi.c).
 */
module Spi {
  import opened Word
  import opened Registers

  // src/spi.c:239-249
  const Control: seq<RegisterDescription> := [
    Reg(0x4000_40c4, 0, "SPI_CTRL", AccessRW, false),
    Reg(0x2008_8000, 0, "SPI1_GLOBAL", AccessRW, true),
    Reg(0x2009_0000, 0, "SPI2_GLOBAL", AccessRW, true),
    Reg(0x2008_8004, 0xe08, "SPI1_CON", AccessRW, true),
    Reg(0x2009_0004, 0xe08, "SPI2_CON", AccessRW, true),
    Reg(0x2008_8008, 0, "SPI1_FRM", AccessRW, true),
    Reg(0x2009_0008, 0, "SPI2_FRM", AccessRW, true),
    Reg(0x2008_800c, 0, "SPI1_IER", AccessRW, true),
    Reg(0x2009_000c, 0, "SPI2_IER", AccessRW, true),
    Reg(0x2008_8010, 0x1, "SPI1_STAT", AccessRW, true),
    Reg(0x2009_0010, 0x1, "SPI2_STAT", AccessRW, true)
  ]

  // src/spi.c:250-257
  const DataAndTimer: seq<RegisterDescription> := [
    Reg(0x2008_8014, 0, "SPI1_DAT", AccessRW, false),
    Reg(0x2009_0014, 0, "SPI2_DAT", AccessRW, false),
    Reg(0x2008_8400, 0x2, "SPI1_TIM_CTRL", AccessRW, true),
    Reg(0x2009_0400, 0x2, "SPI2_TIM_CTRL", AccessRW, true),
    Reg(0x2008_8404, 0, "SPI1_TIM_COUNT", AccessRW, true),
    Reg(0x2009_0404, 0, "SPI2_TIM_COUNT", AccessRW, true),
    Reg(0x2008_8408, 0, "SPI1_TIM_STAT", AccessRW, true),
    Reg(0x2009_0408, 0, "SPI2_TIM_STAT", AccessRW, true)
  ]

  /** `spi[]`: 19 descriptors, in the source order. */
  const Table: seq<RegisterDescription> := Control + DataAndTimer

  /** The reset value the table records for the register at `offset` in either SPI page. */
  function RecordedReset(offset: int): u32
  {
    if offset == 0x004 then 0xe08
    else if offset == 0x010 then 0x1
    else if offset == 0x400 then 0x2
    else 0
  }

  /**
   * What every spi descriptor satisfies: a read-write word register; SPI_CTRL
   * is the clock register 0x400040c4 without a decoder, the rest lie in the
   * SPI1 page 0x20088000 or the SPI2 page 0x20090000, with the reset recorded
   * for their offset and a decoder except for the data register (offset 0x14).
   */
  predicate Row(r: RegisterDescription)
  {
    && r.addr % 4 == 0
    && r.access == AccessRW
    && ((r.addr == 0x4000_40c4 && !r.hasDecoder && r.resetState == 0)
        || ((PageOf(r.addr) == 0x2008_8000 || PageOf(r.addr) == 0x2009_0000)
            && r.hasDecoder == (OffsetOf(r.addr) != 0x14)
            && r.resetState == RecordedReset(OffsetOf(r.addr))))
  }

  /** `b` is the SPI2 twin of the SPI1 register `a`. */
  predicate Paired(a: RegisterDescription, b: RegisterDescription)
  {
    && PageOf(a.addr) == 0x2008_8000
    && b.addr == a.addr + 0x8000
    && b.resetState == a.resetState
    && b.access == a.access
    && b.hasDecoder == a.hasDecoder
  }

  lemma ControlRows()
    ensures forall i :: 0 <= i < |Control| ==> Row(Control[i])
  {
  }

  lemma DataAndTimerRows()
    ensures forall i :: 0 <= i < |DataAndTimer| ==> Row(DataAndTimer[i])
  {
  }

  /**
   * Every spi entry satisfies Row.
   */
  lemma TableFacts()
    ensures |Table| == 19
    ensures forall i :: 0 <= i < |Table| ==> Row(Table[i])
  {
    ControlRows();
    DataAndTimerRows();
  }

  lemma ControlPairs()
    ensures forall i :: 0 <= i < |Control| - 1 && i % 2 == 1 ==> Paired(Control[i], Control[i + 1])
  {
  }

  lemma DataAndTimerPairs()
    ensures forall i :: 0 <= i < |DataAndTimer| - 1 && i % 2 == 0 ==> Paired(DataAndTimer[i], DataAndTimer[i + 1])
  {
  }

  /**
   * From entry 1 on, the table lists each SPI1 register followed by its
   * SPI2 twin: same offset in the other controller's page, same reset,
   * same permission, same decoder presence.
   */
  lemma Pairs()
    ensures forall i :: 1 <= i < |Table| - 1 && i % 2 == 1 ==> Paired(Table[i], Table[i + 1])
  {
    ControlPairs();
    DataAndTimerPairs();
    TableFacts();
  }

  /** The position of each register that clkpwr repeats, and of the SPI1 registers the SPI-NOR driver uses; -1 for every other address. */
  function Landmark(addr: u32): int
  {
    if addr == 0x4000_40c4 then 0
    else if addr == 0x2008_8000 then 1
    else if addr == 0x2008_8004 then 3
    else if addr == 0x2008_8008 then 5
    else if addr == 0x2008_8010 then 9
    else if addr == 0x2008_8014 then 11
    else -1
  }

  lemma ControlLandmarks()
    ensures forall i :: 0 <= i < |Control| ==> Landmark(Control[i].addr) == -1 || Landmark(Control[i].addr) == 0 + i
  {
  }

  lemma DataAndTimerLandmarks()
    ensures forall i :: 0 <= i < |DataAndTimer| ==> Landmark(DataAndTimer[i].addr) == -1 || Landmark(DataAndTimer[i].addr) == 11 + i
  {
  }

  lemma LandmarkPositions()
    ensures forall i :: 0 <= i < |Table| ==> Landmark(Table[i].addr) == -1 || Landmark(Table[i].addr) == i
  {
    ControlLandmarks();
    DataAndTimerLandmarks();
  }

  /** Where those registers are, by name. */
  lemma LandmarkNames()
    ensures |Table| > 11
    ensures Table[0].addr == 0x4000_40c4 && Table[0].name == "SPI_CTRL"
    ensures Table[1].addr == 0x2008_8000 && Table[1].name == "SPI1_GLOBAL"
    ensures Table[3].addr == 0x2008_8004 && Table[3].name == "SPI1_CON"
    ensures Table[5].addr == 0x2008_8008 && Table[5].name == "SPI1_FRM"
    ensures Table[9].addr == 0x2008_8010 && Table[9].name == "SPI1_STAT"
    ensures Table[11].addr == 0x2008_8014 && Table[11].name == "SPI1_DAT"
  {
  }

  /** Each of those registers occurs exactly once in the table, at its recorded position. */
  lemma Unique(addr: u32)
    requires Landmark(addr) != -1
    ensures OnlyAt(Table, addr, Landmark(addr))
  {
    LandmarkPositions();
    LandmarkNames();
  }
}

/**
 * The SSP controllers' descriptor table `ssp[]` (src/ssp.c).
 */
module Ssp {
  import opened Word
  import opened Registers

  // src/ssp.c:218-228
  const Control: seq<RegisterDescription> := [
    Reg(0x4000_4078, 0, "SSP_CTRL", AccessRW, false),
    Reg(0x2008_4000, 0, "SSP0CR0", AccessRW, true),
    Reg(0x2008_c000, 0, "SSP1CR0", AccessRW, true),
    Reg(0x2008_4004, 0, "SSP0CR1", AccessRW, true),
    Reg(0x2008_c004, 0, "SSP1CR1", AccessRW, true),
    Reg(0x2008_4008, 0, "SSP0DR", AccessWrite, false),
    Reg(0x2008_c008, 0, "SSP1DR", AccessWrite, false),
    Reg(0x2008_400c, 0, "SSP0SR", AccessRead, true),
    Reg(0x2008_c00c, 0, "SSP1SR", AccessRead, true),
    Reg(0x2008_4010, 0, "SSP0CPSR", AccessRW, true),
    Reg(0x2008_c010, 0, "SSP1CPSR", AccessRW, true)
  ]

  // src/ssp.c:229-238
  const Interrupts: seq<RegisterDescription> := [
    Reg(0x2008_4014, 0, "SSP0IMSC", AccessRW, true),
    Reg(0x2008_c014, 0, "SSP1IMSC", AccessRW, true),
    Reg(0x2008_4018, 0, "SSP0RIS", AccessRead, true),
    Reg(0x2008_c018, 0, "SSP1RIS", AccessRead, true),
    Reg(0x2008_401c, 0, "SSP0MIS", AccessRead, true),
    Reg(0x2008_c01c, 0, "SSP1MIS", AccessRead, true),
    Reg(0x2008_4020, 0, "SSP0ICR", AccessWrite, false),
    Reg(0x2008_c020, 0, "SSP1ICR", AccessWrite, false),
    Reg(0x2008_4024, 0, "SSP0DMACR", AccessRW, true),
    Reg(0x2008_c024, 0, "SSP1DMACR", AccessRW, true)
  ]

  /** `ssp[]`: 21 descriptors, in the source order. */
  const Table: seq<RegisterDescription> := Control + Interrupts

  /**
   * The permission the table records for the register at `offset` in either
   * SSP page: the data and interrupt-clear registers (0x08, 0x20) are
   * write-only, the status and interrupt-status registers (0x0c, 0x18, 0x1c)
   * read-only, the rest read-write.
   */
  function RecordedAccess(offset: int): Access
  {
    if offset == 0x08 || offset == 0x20 then AccessWrite
    else if offset == 0x0c || offset == 0x18 || offset == 0x1c then AccessRead
    else AccessRW
  }

  /**
   * What every ssp descriptor satisfies: a word register with reset 0;
   * SSP_CTRL is the clock register 0x40004078, read-write and without a
   * decoder; the rest lie in the SSP0 page 0x20084000 or the SSP1 page
   * 0x2008c000, with the permission recorded for their offset and a decoder
   * exactly when they are not write-only.
   */
  predicate Row(r: RegisterDescription)
  {
    && r.addr % 4 == 0
    && r.resetState == 0
    && ((r.addr == 0x4000_4078 && !r.hasDecoder && r.access == AccessRW)
        || ((PageOf(r.addr) == 0x2008_4000 || PageOf(r.addr) == 0x2008_c000)
            && r.access == RecordedAccess(OffsetOf(r.addr))
            && r.hasDecoder == (r.access != AccessWrite)))
  }

  /** `b` is the SSP1 twin of the SSP0 register `a`. */
  predicate Paired(a: RegisterDescription, b: RegisterDescription)
  {
    && PageOf(a.addr) == 0x2008_4000
    && b.addr == a.addr + 0x8000
    && b.resetState == a.resetState
    && b.access == a.access
    && b.hasDecoder == a.hasDecoder
  }

  lemma ControlRows()
    ensures forall i :: 0 <= i < |Control| ==> Row(Control[i])
  {
  }

  lemma InterruptsRows()
    ensures forall i :: 0 <= i < |Interrupts| ==> Row(Interrupts[i])
  {
  }

  /**
   * Every ssp entry satisfies Row.
   */
  lemma TableFacts()
    ensures |Table| == 21
    ensures forall i :: 0 <= i < |Table| ==> Row(Table[i])
  {
    ControlRows();
    InterruptsRows();
  }

  lemma ControlPairs()
    ensures forall i :: 0 <= i < |Control| - 1 && i % 2 == 1 ==> Paired(Control[i], Control[i + 1])
  {
  }

  lemma InterruptsPairs()
    ensures forall i :: 0 <= i < |Interrupts| - 1 && i % 2 == 0 ==> Paired(Interrupts[i], Interrupts[i + 1])
  {
  }

  /**
   * From entry 1 on, the table lists each SSP0 register followed by its
   * SSP1 twin: same offset in the other controller's page, same reset,
   * same permission, same decoder presence.
   */
  lemma Pairs()
    ensures forall i :: 1 <= i < |Table| - 1 && i % 2 == 1 ==> Paired(Table[i], Table[i + 1])
  {
    ControlPairs();
    InterruptsPairs();
    TableFacts();
  }

  /** The position of each register that clkpwr repeats, and of the write-only data and interrupt-clear registers; -1 for every other address. */
  function Landmark(addr: u32): int
  {
    if addr == 0x4000_4078 then 0
    else if addr == 0x2008_4008 then 5
    else if addr == 0x2008_c008 then 6
    else if addr == 0x2008_4020 then 17
    else if addr == 0x2008_c020 then 18
    else -1
  }

  lemma ControlLandmarks()
    ensures forall i :: 0 <= i < |Control| ==> Landmark(Control[i].addr) == -1 || Landmark(Control[i].addr) == 0 + i
  {
  }

  lemma InterruptsLandmarks()
    ensures forall i :: 0 <= i < |Interrupts| ==> Landmark(Interrupts[i].addr) == -1 || Landmark(Interrupts[i].addr) == 11 + i
  {
  }

  lemma LandmarkPositions()
    ensures forall i :: 0 <= i < |Table| ==> Landmark(Table[i].addr) == -1 || Landmark(Table[i].addr) == i
  {
    ControlLandmarks();
    InterruptsLandmarks();
  }

  /** Where those registers are, by name. */
  lemma LandmarkNames()
    ensures |Table| > 18
    ensures Table[0].addr == 0x4000_4078 && Table[0].name == "SSP_CTRL"
    ensures Table[5].addr == 0x2008_4008 && Table[5].name == "SSP0DR"
    ensures Table[6].addr == 0x2008_c008 && Table[6].name == "SSP1DR"
    ensures Table[17].addr == 0x2008_4020 && Table[17].name == "SSP0ICR"
    ensures Table[18].addr == 0x2008_c020 && Table[18].name == "SSP1ICR"
  {
  }

  /** Each of those registers occurs exactly once in the table, at its recorded position. */
  lemma Unique(addr: u32)
    requires Landmark(addr) != -1
    ensures OnlyAt(Table, addr, Landmark(addr))
  {
    LandmarkPositions();
    LandmarkNames();
  }
}

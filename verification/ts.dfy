/**
 * The touch-screen and ADC controller's descriptor table `ts[]` (src/ts.c).
 */
module Ts {
  import opened Word
  import opened Registers

  // src/ts.c:335-344
  const Adc: seq<RegisterDescription> := [
    Reg(0x4000_40b4, 0, "ADCLK_CTRL", AccessRW, true),
    Reg(0x4000_4060, 0, "ADCLK_CTRL1", AccessRW, true),
    Reg(0x4004_8000, 0x80, "ADC_STAT", AccessRead, true),
    Reg(0x4004_8004, 0x4, "ADC_SELECT", AccessRW, true),
    Reg(0x4004_8008, 0, "ADC_CTRL", AccessRW, true),
    Reg(0x4004_800c, 0, "TSC_SAMPLE_FIFO", AccessRead, true),
    Reg(0x4004_8010, 0, "TSC_DTR", AccessRW, true),
    Reg(0x4004_8014, 0, "TSC_RTR", AccessRW, true),
    Reg(0x4004_8018, 0, "TSC_UTR", AccessRW, true),
    Reg(0x4004_801c, 0, "TSC_TTR", AccessRW, true)
  ]

  // src/ts.c:345-354
  const Touch: seq<RegisterDescription> := [
    Reg(0x4004_8020, 0, "TSC_DXP", AccessRW, true),
    Reg(0x4004_8024, 0, "TSC_MIN_X", AccessRW, true),
    Reg(0x4004_8028, 0, "TSC_MAX_X", AccessRW, true),
    Reg(0x4004_802c, 0, "TSC_MIN_Y", AccessRW, true),
    Reg(0x4004_8030, 0, "TSC_MAX_Y", AccessRW, true),
    Reg(0x4004_8034, 0, "TSC_AUX_UTR", AccessRW, true),
    Reg(0x4004_8038, 0, "TSC_AUX_MIN", AccessRW, true),
    Reg(0x4004_803c, 0, "TSC_AUX_MAX", AccessRW, true),
    Reg(0x4004_8044, 0, "TSC_AUX_VALUE", AccessRead, true),
    Reg(0x4004_8048, 0, "ADC_VALUE", AccessRead, true)
  ]

  /** `ts[]`: 20 descriptors, in the source order. */
  const Table: seq<RegisterDescription> := Adc + Touch

  /**
   * What every ts descriptor satisfies: a decoded word register, either one of
   * the clock registers ADCLK_CTRL (0x400040b4) and ADCLK_CTRL1 (0x40004060)
   * or a register of page 0x40048000; ADC_STAT, TSC_SAMPLE_FIFO, TSC_AUX_VALUE
   * and ADC_VALUE are read-only, the rest read-write; ADC_STAT records reset
   * 0x80 and ADC_SELECT 0x4, the rest 0.
   */
  predicate Row(r: RegisterDescription)
  {
    && r.addr % 4 == 0
    && (r.addr == 0x4000_40b4 || r.addr == 0x4000_4060 || PageOf(r.addr) == 0x4004_8000)
    && r.hasDecoder
    && r.access == (if r.addr == 0x4004_8000 || r.addr == 0x4004_800c || r.addr == 0x4004_8044 || r.addr == 0x4004_8048
                    then AccessRead else AccessRW)
    && r.resetState == (if r.addr == 0x4004_8000 then 0x80 else if r.addr == 0x4004_8004 then 0x4 else 0)
  }

  lemma AdcRows()
    ensures forall i :: 0 <= i < |Adc| ==> Row(Adc[i])
  {
  }

  lemma TouchRows()
    ensures forall i :: 0 <= i < |Touch| ==> Row(Touch[i])
  {
  }

  /**
   * Every ts entry satisfies Row.
   */
  lemma TableFacts()
    ensures |Table| == 20
    ensures forall i :: 0 <= i < |Table| ==> Row(Table[i])
  {
    AdcRows();
    TouchRows();
  }

  /** The position of each register that clkpwr repeats, and of the two with a non-zero reset; -1 for every other address. */
  function Landmark(addr: u32): int
  {
    if addr == 0x4000_40b4 then 0
    else if addr == 0x4000_4060 then 1
    else if addr == 0x4004_8000 then 2
    else if addr == 0x4004_8004 then 3
    else -1
  }

  lemma AdcLandmarks()
    ensures forall i :: 0 <= i < |Adc| ==> Landmark(Adc[i].addr) == -1 || Landmark(Adc[i].addr) == 0 + i
  {
  }

  lemma TouchLandmarks()
    ensures forall i :: 0 <= i < |Touch| ==> Landmark(Touch[i].addr) == -1 || Landmark(Touch[i].addr) == 10 + i
  {
  }

  lemma LandmarkPositions()
    ensures forall i :: 0 <= i < |Table| ==> Landmark(Table[i].addr) == -1 || Landmark(Table[i].addr) == i
  {
    AdcLandmarks();
    TouchLandmarks();
  }

  /** Where those registers are, by name. */
  lemma LandmarkNames()
    ensures |Table| > 3
    ensures Table[0].addr == 0x4000_40b4 && Table[0].name == "ADCLK_CTRL"
    ensures Table[1].addr == 0x4000_4060 && Table[1].name == "ADCLK_CTRL1"
    ensures Table[2].addr == 0x4004_8000 && Table[2].name == "ADC_STAT"
    ensures Table[3].addr == 0x4004_8004 && Table[3].name == "ADC_SELECT"
  {
  }

  /** Each of those registers occurs exactly once in the table, at its recorded position. */
  lemma Unique(addr: u32)
    requires Landmark(addr) != -1
    ensures OnlyAt(Table, addr, Landmark(addr))
  {
    LandmarkPositions();
    LandmarkNames();
  }
}

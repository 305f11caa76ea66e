/**
 * The external memory controller's descriptor table `emc[]` (src/emc.c).
 */
module Emc {
  import opened Word
  import opened Registers

  // src/emc.c:669-679
  const Control: seq<RegisterDescription> := [
    Reg(0x4000_4068, 0, "SDRAMCLK_CTRL", AccessRW, true),
    Reg(0x3108_0000, 0x3, "EMCControl", AccessRW, true),
    Reg(0x3108_0004, 0x5, "EMCStatus", AccessRead, true),
    Reg(0x3108_0008, 0, "EMCConfig", AccessRW, true),
    Reg(0x3108_0020, 0x6, "EMCDynamicControl", AccessRW, true),
    Reg(0x3108_0024, 0, "EMCDynamicRefresh", AccessRW, true),
    Reg(0x3108_0028, 0, "EMCDynamicReadConfig", AccessRW, true),
    Reg(0x3108_0030, 0xf, "EMCDynamictRP", AccessRW, true),
    Reg(0x3108_0034, 0xf, "EMCDynamictRAS", AccessRW, true),
    Reg(0x3108_0038, 0xf, "EMCDynamictSREX", AccessRW, true),
    Reg(0x3108_0044, 0xf, "EMCDynamictWR", AccessRW, true)
  ]

  // src/emc.c:680-690
  const DynamicTiming: seq<RegisterDescription> := [
    Reg(0x3108_0048, 0x1f, "EMCDynamictRC", AccessRW, true),
    Reg(0x3108_004c, 0x1f, "EMCDynamictRFC", AccessRW, true),
    Reg(0x3108_0050, 0x1f, "EMCDynamictXSR", AccessRW, true),
    Reg(0x3108_0054, 0xf, "EMCDynamictRRD", AccessRW, true),
    Reg(0x3108_0058, 0xf, "EMCDynamictMRD", AccessRW, true),
    Reg(0x3108_005c, 0xf, "EMCDynamictCDLR", AccessRW, true),
    Reg(0x3108_0080, 0xf, "EMCStaticExtendedWait", AccessRW, true),
    Reg(0x3108_0100, 0, "EMCDynamicConfig0", AccessRW, true),
    Reg(0x3108_0104, 0x303, "EMCDynamicRasCas0", AccessRW, true),
    Reg(0x3108_0120, 0, "EMCDynamicConfig1", AccessRW, true),
    Reg(0x3108_0124, 0x303, "EMCDynamicRasCas1", AccessRW, true)
  ]

  // src/emc.c:691-704
  const Static0and1: seq<RegisterDescription> := [
    Reg(0x3108_0200, 0x2, "EMCStaticConfig0", AccessRW, true),
    Reg(0x3108_0204, 0, "EMCStaticWaitWen0", AccessRW, true),
    Reg(0x3108_0208, 0, "EMCStaticWaitOen0", AccessRW, true),
    Reg(0x3108_020c, 0x1f, "EMCStaticWaitRd0", AccessRW, true),
    Reg(0x3108_0210, 0x1f, "EMCStaticWaitPage0", AccessRW, true),
    Reg(0x3108_0214, 0x1f, "EMCStaticWaitWr0", AccessRW, true),
    Reg(0x3108_0218, 0xf, "EMCStaticWaitTurn0", AccessRW, true),
    Reg(0x3108_0220, 0x2, "EMCStaticConfig1", AccessRW, true),
    Reg(0x3108_0224, 0, "EMCStaticWaitWen1", AccessRW, true),
    Reg(0x3108_0228, 0, "EMCStaticWaitOen1", AccessRW, true),
    Reg(0x3108_022c, 0x1f, "EMCStaticWaitRd1", AccessRW, true),
    Reg(0x3108_0230, 0x1f, "EMCStaticWaitPage1", AccessRW, true),
    Reg(0x3108_0234, 0x1f, "EMCStaticWaitWr1", AccessRW, true),
    Reg(0x3108_0238, 0xf, "EMCStaticWaitTurn1", AccessRW, true)
  ]

  // src/emc.c:705-718
  const Static2and3: seq<RegisterDescription> := [
    Reg(0x3108_0240, 0x2, "EMCStaticConfig2", AccessRW, true),
    Reg(0x3108_0244, 0, "EMCStaticWaitWen2", AccessRW, true),
    Reg(0x3108_0248, 0, "EMCStaticWaitOen2", AccessRW, true),
    Reg(0x3108_024c, 0x1f, "EMCStaticWaitRd2", AccessRW, true),
    Reg(0x3108_0250, 0x1f, "EMCStaticWaitPage2", AccessRW, true),
    Reg(0x3108_0254, 0x1f, "EMCStaticWaitWr2", AccessRW, true),
    Reg(0x3108_0258, 0xf, "EMCStaticWaitTurn2", AccessRW, true),
    Reg(0x3108_0260, 0x2, "EMCStaticConfig3", AccessRW, true),
    Reg(0x3108_0264, 0, "EMCStaticWaitWen3", AccessRW, true),
    Reg(0x3108_0268, 0, "EMCStaticWaitOen3", AccessRW, true),
    Reg(0x3108_026c, 0x1f, "EMCStaticWaitRd3", AccessRW, true),
    Reg(0x3108_0270, 0x1f, "EMCStaticWaitPage3", AccessRW, true),
    Reg(0x3108_0274, 0x1f, "EMCStaticWaitWr3", AccessRW, true),
    Reg(0x3108_0278, 0xf, "EMCStaticWaitTurn3", AccessRW, true)
  ]

  // src/emc.c:719-730
  const PortsAndCalibration: seq<RegisterDescription> := [
    Reg(0x3108_0400, 0, "EMCAHBControl0", AccessRW, true),
    Reg(0x3108_0404, 0, "EMCAHBStatus0", AccessRW, true),
    Reg(0x3108_0408, 0, "EMCAHBTimeOut0", AccessRW, true),
    Reg(0x3108_0460, 0, "EMCAHBControl3", AccessRW, true),
    Reg(0x3108_0464, 0, "EMCAHBStatus3", AccessRW, true),
    Reg(0x3108_0468, 0, "EMCAHBTimeOut3", AccessRW, true),
    Reg(0x3108_0480, 0, "EMCAHBControl4", AccessRW, true),
    Reg(0x3108_0484, 0, "EMCAHBStatus4", AccessRW, true),
    Reg(0x3108_0488, 0, "EMCAHBTimeOut4", AccessRW, true),
    Reg(0x4000_406c, 0, "DDR_LAP_NOM", AccessRW, true),
    Reg(0x4000_4070, 0, "DDR_LAP_COUNT", AccessRead, true),
    Reg(0x4000_4074, 0, "DDR_CAL_DELAY", AccessRead, true)
  ]

  /** `emc[]`: 62 descriptors, in the source order. */
  const Table: seq<RegisterDescription> := Control + DynamicTiming + Static0and1 + Static2and3 + PortsAndCalibration

  /**
   * What every emc descriptor satisfies: a word register with a decoder,
   * either one of the DDR clock and calibration registers 0x40004068-0x40004074
   * or an EMC controller register 0x31080000-0x31080488; EMCStatus
   * (0x31080004), DDR_LAP_COUNT (0x40004070) and DDR_CAL_DELAY (0x40004074) are
   * read-only, the rest read-write.
   */
  predicate Row(r: RegisterDescription)
  {
    && r.addr % 4 == 0
    && (0x4000_4068 <= r.addr <= 0x4000_4074 || 0x3108_0000 <= r.addr <= 0x3108_0488)
    && r.hasDecoder
    && r.access == (if r.addr == 0x3108_0004 || r.addr == 0x4000_4070 || r.addr == 0x4000_4074 then AccessRead else AccessRW)
  }

  lemma ControlRows()
    ensures forall i :: 0 <= i < |Control| ==> Row(Control[i])
  {
  }

  lemma DynamicTimingRows()
    ensures forall i :: 0 <= i < |DynamicTiming| ==> Row(DynamicTiming[i])
  {
  }

  lemma Static0and1Rows()
    ensures forall i :: 0 <= i < |Static0and1| ==> Row(Static0and1[i])
  {
  }

  lemma Static2and3Rows()
    ensures forall i :: 0 <= i < |Static2and3| ==> Row(Static2and3[i])
  {
  }

  lemma PortsAndCalibrationRows()
    ensures forall i :: 0 <= i < |PortsAndCalibration| ==> Row(PortsAndCalibration[i])
  {
  }

  /**
   * Every emc entry satisfies Row: the set spans the two pages 0x40004000 and
   * 0x31080000.
   */
  lemma TableFacts()
    ensures |Table| == 62
    ensures forall i :: 0 <= i < |Table| ==> Row(Table[i])
  {
    ControlRows();
    DynamicTimingRows();
    Static0and1Rows();
    Static2and3Rows();
    PortsAndCalibrationRows();
  }

  /** Some of the reset values the table records. */
  lemma RecordedResets()
    ensures |Table| > 21
    ensures Table[1].name == "EMCControl" && Table[1].resetState == 0x3
    ensures Table[2].name == "EMCStatus" && Table[2].resetState == 0x5
    ensures Table[4].name == "EMCDynamicControl" && Table[4].resetState == 0x6
    ensures Table[19].name == "EMCDynamicRasCas0" && Table[19].resetState == 0x303
    ensures Table[21].name == "EMCDynamicRasCas1" && Table[21].resetState == 0x303
  {
  }

  /** The position of each register that a lookup must find here: the status register and the four DDR registers in the clock controller's page; -1 for every other address. */
  function Landmark(addr: u32): int
  {
    if addr == 0x4000_4068 then 0
    else if addr == 0x3108_0004 then 2
    else if addr == 0x4000_406c then 59
    else if addr == 0x4000_4070 then 60
    else if addr == 0x4000_4074 then 61
    else -1
  }

  lemma ControlLandmarks()
    ensures forall i :: 0 <= i < |Control| ==> Landmark(Control[i].addr) == -1 || Landmark(Control[i].addr) == 0 + i
  {
  }

  lemma DynamicTimingLandmarks()
    ensures forall i :: 0 <= i < |DynamicTiming| ==> Landmark(DynamicTiming[i].addr) == -1 || Landmark(DynamicTiming[i].addr) == 11 + i
  {
  }

  lemma Static0and1Landmarks()
    ensures forall i :: 0 <= i < |Static0and1| ==> Landmark(Static0and1[i].addr) == -1 || Landmark(Static0and1[i].addr) == 22 + i
  {
  }

  lemma Static2and3Landmarks()
    ensures forall i :: 0 <= i < |Static2and3| ==> Landmark(Static2and3[i].addr) == -1 || Landmark(Static2and3[i].addr) == 36 + i
  {
  }

  lemma PortsAndCalibrationLandmarks()
    ensures forall i :: 0 <= i < |PortsAndCalibration| ==> Landmark(PortsAndCalibration[i].addr) == -1 || Landmark(PortsAndCalibration[i].addr) == 50 + i
  {
  }

  lemma LandmarkPositions()
    ensures forall i :: 0 <= i < |Table| ==> Landmark(Table[i].addr) == -1 || Landmark(Table[i].addr) == i
  {
    ControlLandmarks();
    DynamicTimingLandmarks();
    Static0and1Landmarks();
    Static2and3Landmarks();
    PortsAndCalibrationLandmarks();
  }

  /** Where those registers are, by name. */
  lemma LandmarkNames()
    ensures |Table| > 61
    ensures Table[0].addr == 0x4000_4068 && Table[0].name == "SDRAMCLK_CTRL"
    ensures Table[2].addr == 0x3108_0004 && Table[2].name == "EMCStatus"
    ensures Table[59].addr == 0x4000_406c && Table[59].name == "DDR_LAP_NOM"
    ensures Table[60].addr == 0x4000_4070 && Table[60].name == "DDR_LAP_COUNT"
    ensures Table[61].addr == 0x4000_4074 && Table[61].name == "DDR_CAL_DELAY"
  {
  }

  /** Each of those registers occurs exactly once in the table, at its recorded position. */
  lemma Unique(addr: u32)
    requires Landmark(addr) != -1
    ensures OnlyAt(Table, addr, Landmark(addr))
  {
    LandmarkPositions();
    LandmarkNames();
  }
}

/**
 * The clock and power controller's descriptor table `clkpower[]`
 * (src/clkpwr.c), the first set the catalog scans.
 */
module ClkPwr {
  import opened Word
  import opened Registers

  // src/clkpwr.c:1521-1533
  const Clocks: seq<RegisterDescription> := [
    Reg(0x4000_4044, 0x12, "PWR_CTRL", AccessRW, true),
    Reg(0x4000_404c, 0x100, "OSC_CTRL", AccessRW, true),
    Reg(0x4000_4050, 0xb48, "SYSCLK_CTRL", AccessRW, true),
    Reg(0x4000_4048, 0, "PLL397_CTRL", AccessRW, true),
    Reg(0x4000_4058, 0, "HCLKPLL_CTRL", AccessRW, true),
    Reg(0x4000_4040, 0, "HCLKDIV_CTRL", AccessRW, true),
    Reg(0x4000_40a4, 0, "TEST_CLK", AccessRW, true),
    Reg(0x4000_40ec, 0, "AUTOCLK_CTRL", AccessRW, true),
    Reg(0x4000_4030, 0, "START_ER_PIN", AccessRW, true),
    Reg(0x4000_4020, 0, "START_ER_INT", AccessRW, true),
    Reg(0x4000_4018, 0, "P0_INTR_ER", AccessRW, true),
    Reg(0x4000_4038, 0, "START_SR_PIN", AccessRead, true),
    Reg(0x4000_4028, 0, "START_SR_INT", AccessRead, true)
  ]

  // src/clkpwr.c:1534-1545
  const Wakeup: seq<RegisterDescription> := [
    Reg(0x4000_4034, 0, "START_RSR_PIN", AccessRW, true),
    Reg(0x4000_4024, 0, "START_RSR_INT", AccessRW, true),
    Reg(0x4000_403c, 0, "START_APR_PIN", AccessRW, true),
    Reg(0x4000_402c, 0, "START_APR_INT", AccessRW, true),
    Reg(0x4000_4064, 0x8_0000, "USB_CTRL", AccessRW, true),
    Reg(0x4000_401c, 0xc, "USBDIV_CTRL", AccessRW, true),
    Reg(0x4000_4080, 0, "MS_CTRL", AccessRW, true),
    Reg(0x4000_40e8, 0x1, "DMACLK_CTRL", AccessRW, true),
    Reg(0x4000_40c8, 0x3, "FLASHCLK_CNTRL", AccessRW, true),
    Reg(0x4000_4090, 0, "MACCLK_CTRL", AccessRW, true),
    Reg(0x4000_4054, 0, "LCDCLK_CTRL", AccessRW, true),
    Reg(0x4000_407c, 0, "I2S_CTRL", AccessRW, true)
  ]

  // src/clkpwr.c:1546-1557
  const Peripheral: seq<RegisterDescription> := [
    Reg(0x4000_4078, 0, "SSP_CTRL", AccessRW, true),
    Reg(0x4000_40c4, 0, "SPI_CTRL", AccessRW, true),
    Reg(0x4000_40ac, 0, "I2CCLK_CTRL", AccessRW, true),
    Reg(0x4000_40c0, 0, "TIMCLK_CTRL1", AccessRW, true),
    Reg(0x4000_40bc, 0, "TIMCLK_CTRL", AccessRW, true),
    Reg(0x4000_40b4, 0, "ADCLK_CTRL", AccessRW, true),
    Reg(0x4000_4060, 0, "ADCLK_CTRL1", AccessRW, true),
    Reg(0x4000_40b0, 0, "KEYCLK_CTRL", AccessRW, true),
    Reg(0x4000_40b8, 0, "PWMCLK_CTRL", AccessRW, true),
    Reg(0x4000_40e4, 0xf, "UARTCLK_CTRL", AccessRW, true),
    Reg(0x4000_4110, 0, "POS0_IRAM_CTRL", AccessRW, true),
    Reg(0x4000_4114, 0, "POS1_IRAM_CTRL", AccessRW, true)
  ]

  /** `clkpower[]`: 37 descriptors, in the source order. */
  const Table: seq<RegisterDescription> := Clocks + Wakeup + Peripheral

  /**
   * The reset value the table records for the register at `addr`: PWR_CTRL
   * 0x12, OSC_CTRL 0x100, SYSCLK_CTRL 0xb48, USB_CTRL 0x80000, USBDIV_CTRL 0xc,
   * DMACLK_CTRL 0x1, FLASHCLK_CNTRL 0x3, UARTCLK_CTRL 0xf, and 0 for the rest.
   */
  function RecordedReset(addr: u32): u32
  {
    if addr == 0x4000_4044 then 0x12
    else if addr == 0x4000_404c then 0x100
    else if addr == 0x4000_4050 then 0xb48
    else if addr == 0x4000_4064 then 0x8_0000
    else if addr == 0x4000_401c then 0xc
    else if addr == 0x4000_40e8 then 0x1
    else if addr == 0x4000_40c8 then 0x3
    else if addr == 0x4000_40e4 then 0xf
    else 0
  }

  /**
   * What every clkpower descriptor satisfies: a word register of page
   * 0x40004000 outside the EMC clock block 0x40004068-0x40004074, with a
   * decoder; read-only for START_SR_PIN (0x40004038) and START_SR_INT
   * (0x40004028), read-write otherwise.
   */
  predicate Row(r: RegisterDescription)
  {
    && r.addr % 4 == 0
    && PageOf(r.addr) == 0x4000_4000
    && !(0x4000_4068 <= r.addr <= 0x4000_4074)
    && r.hasDecoder
    && r.access == (if r.addr == 0x4000_4038 || r.addr == 0x4000_4028 then AccessRead else AccessRW)
    && r.resetState == RecordedReset(r.addr)
  }

  lemma ClocksRows()
    ensures forall i :: 0 <= i < |Clocks| ==> Row(Clocks[i])
  {
  }

  lemma WakeupRows()
    ensures forall i :: 0 <= i < |Wakeup| ==> Row(Wakeup[i])
  {
  }

  lemma PeripheralRows()
    ensures forall i :: 0 <= i < |Peripheral| ==> Row(Peripheral[i])
  {
  }

  /**
   * Every clkpower entry satisfies Row: aligned, in page 0x40004000, decoded,
   * read-write except the two start-status registers, with the recorded reset.
   */
  lemma TableFacts()
    ensures |Table| == 37
    ensures forall i :: 0 <= i < |Table| ==> Row(Table[i])
  {
    ClocksRows();
    WakeupRows();
    PeripheralRows();
  }

  /** The position of each register that a lookup must find here: the two read-only start-status registers, and the clock registers the lcd, ts, spi, ssp and pinmux tables repeat; -1 for every other address. */
  function Landmark(addr: u32): int
  {
    if addr == 0x4000_4038 then 11
    else if addr == 0x4000_4028 then 12
    else if addr == 0x4000_4080 then 19
    else if addr == 0x4000_4090 then 22
    else if addr == 0x4000_4054 then 23
    else if addr == 0x4000_4078 then 25
    else if addr == 0x4000_40c4 then 26
    else if addr == 0x4000_40b4 then 30
    else if addr == 0x4000_4060 then 31
    else -1
  }

  lemma ClocksLandmarks()
    ensures forall i :: 0 <= i < |Clocks| ==> Landmark(Clocks[i].addr) == -1 || Landmark(Clocks[i].addr) == 0 + i
  {
  }

  lemma WakeupLandmarks()
    ensures forall i :: 0 <= i < |Wakeup| ==> Landmark(Wakeup[i].addr) == -1 || Landmark(Wakeup[i].addr) == 13 + i
  {
  }

  lemma PeripheralLandmarks()
    ensures forall i :: 0 <= i < |Peripheral| ==> Landmark(Peripheral[i].addr) == -1 || Landmark(Peripheral[i].addr) == 25 + i
  {
  }

  lemma LandmarkPositions()
    ensures forall i :: 0 <= i < |Table| ==> Landmark(Table[i].addr) == -1 || Landmark(Table[i].addr) == i
  {
    ClocksLandmarks();
    WakeupLandmarks();
    PeripheralLandmarks();
  }

  /** Where those registers are, by name. */
  lemma LandmarkNames()
    ensures |Table| > 31
    ensures Table[11].addr == 0x4000_4038 && Table[11].name == "START_SR_PIN"
    ensures Table[12].addr == 0x4000_4028 && Table[12].name == "START_SR_INT"
    ensures Table[19].addr == 0x4000_4080 && Table[19].name == "MS_CTRL"
    ensures Table[22].addr == 0x4000_4090 && Table[22].name == "MACCLK_CTRL"
    ensures Table[23].addr == 0x4000_4054 && Table[23].name == "LCDCLK_CTRL"
    ensures Table[25].addr == 0x4000_4078 && Table[25].name == "SSP_CTRL"
    ensures Table[26].addr == 0x4000_40c4 && Table[26].name == "SPI_CTRL"
    ensures Table[30].addr == 0x4000_40b4 && Table[30].name == "ADCLK_CTRL"
    ensures Table[31].addr == 0x4000_4060 && Table[31].name == "ADCLK_CTRL1"
  {
  }

  /** Each of those registers occurs exactly once in the table, at its recorded position. */
  lemma Unique(addr: u32)
    requires Landmark(addr) != -1
    ensures OnlyAt(Table, addr, Landmark(addr))
  {
    LandmarkPositions();
    LandmarkNames();
  }
}

/**
 * The pin multiplexer's descriptor table `pinmux[]` (src/pinmux.c), the last
 * set the catalog scans.
 */
module Pinmux {
  import opened Word
  import opened Registers

  // src/pinmux.c:506-509
  const Shared: seq<RegisterDescription> := [
    Reg(0x4000_4090, 0, "MAC_CLK_CTRL", AccessRW, false),
    Reg(0x4000_4054, 0, "LCD_CFG", AccessRW, false),
    Reg(0x4005_4000, 0, "UART_CTRL", AccessRW, true),
    Reg(0x4000_4080, 0, "MS_CTRL", AccessRW, true)
  ]

  // src/pinmux.c:510-518
  const PeripheralAndPorts0and1: seq<RegisterDescription> := [
    Reg(0x4002_8100, 0, "P_MUX_SET", AccessWrite, false),
    Reg(0x4002_8104, 0, "P_MUX_CLR", AccessWrite, false),
    Reg(0x4002_8108, 0, "P_MUX_STATE", AccessRead, true),
    Reg(0x4002_8120, 0, "P0_MUX_SET", AccessWrite, false),
    Reg(0x4002_8124, 0, "P0_MUX_CLR", AccessWrite, false),
    Reg(0x4002_8128, 0, "P0_MUX_STATE", AccessRead, true),
    Reg(0x4002_8130, 0, "P1_MUX_SET", AccessWrite, false),
    Reg(0x4002_8134, 0, "P1_MUX_CLR", AccessWrite, false),
    Reg(0x4002_8138, 0, "P1_MUX_STATE", AccessRead, true)
  ]

  // src/pinmux.c:519-524
  const Ports2and3: seq<RegisterDescription> := [
    Reg(0x4002_8028, 0, "P2_MUX_SET", AccessWrite, false),
    Reg(0x4002_802c, 0, "P2_MUX_CLR", AccessWrite, false),
    Reg(0x4002_8030, 0, "P2_MUX_STATE", AccessRead, true),
    Reg(0x4002_8110, 0, "P3_MUX_SET", AccessWrite, false),
    Reg(0x4002_8114, 0, "P3_MUX_CLR", AccessWrite, false),
    Reg(0x4002_8118, 0, "P3_MUX_STATE", AccessRead, true)
  ]

  /** `pinmux[]`: 19 descriptors, in the source order. */
  const Table: seq<RegisterDescription> := Shared + PeripheralAndPorts0and1 + Ports2and3

  /**
   * The multiplexer state registers: P_MUX_STATE (0x40028108), P0_MUX_STATE
   * (0x40028128), P1_MUX_STATE (0x40028138), P2_MUX_STATE (0x40028030) and
   * P3_MUX_STATE (0x40028118).
   */
  predicate IsMuxState(addr: u32)
  {
    || addr == 0x4002_8108 || addr == 0x4002_8128 || addr == 0x4002_8138
    || addr == 0x4002_8030 || addr == 0x4002_8118
  }

  /**
   * What every pinmux descriptor satisfies: a word register with reset 0;
   * either one of the read-write registers MAC_CLK_CTRL (0x40004090), LCD_CFG
   * (0x40004054), MS_CTRL (0x40004080) and UART_CTRL (0x40054000), or a
   * multiplexer register in 0x40028028-0x40028030 or 0x40028100-0x4002813c,
   * read-only when it is a state register and write-only when it is a set or
   * clear register.
   */
  predicate Row(r: RegisterDescription)
  {
    && r.addr % 4 == 0
    && r.resetState == 0
    && (|| ((r.addr == 0x4000_4090 || r.addr == 0x4000_4054 || r.addr == 0x4000_4080 || r.addr == 0x4005_4000)
            && r.access == AccessRW)
        || ((0x4002_8028 <= r.addr <= 0x4002_8030 || 0x4002_8100 <= r.addr < 0x4002_8140)
            && r.access == (if IsMuxState(r.addr) then AccessRead else AccessWrite)))
  }

  lemma SharedRows()
    ensures forall i :: 0 <= i < |Shared| ==> Row(Shared[i])
  {
  }

  lemma PeripheralAndPorts0and1Rows()
    ensures forall i :: 0 <= i < |PeripheralAndPorts0and1| ==> Row(PeripheralAndPorts0and1[i])
  {
  }

  lemma Ports2and3Rows()
    ensures forall i :: 0 <= i < |Ports2and3| ==> Row(Ports2and3[i])
  {
  }

  /**
   * Every pinmux entry satisfies Row.
   */
  lemma TableFacts()
    ensures |Table| == 19
    ensures forall i :: 0 <= i < |Table| ==> Row(Table[i])
  {
    SharedRows();
    PeripheralAndPorts0and1Rows();
    Ports2and3Rows();
  }

  /** The position of each register outside the multiplexer block, and of the port 2 multiplexer-clear register the SPI-NOR driver writes; -1 for every other address. */
  function Landmark(addr: u32): int
  {
    if addr == 0x4000_4090 then 0
    else if addr == 0x4000_4054 then 1
    else if addr == 0x4005_4000 then 2
    else if addr == 0x4000_4080 then 3
    else if addr == 0x4002_802c then 14
    else -1
  }

  lemma SharedLandmarks()
    ensures forall i :: 0 <= i < |Shared| ==> Landmark(Shared[i].addr) == -1 || Landmark(Shared[i].addr) == 0 + i
  {
  }

  lemma PeripheralAndPorts0and1Landmarks()
    ensures forall i :: 0 <= i < |PeripheralAndPorts0and1| ==> Landmark(PeripheralAndPorts0and1[i].addr) == -1 || Landmark(PeripheralAndPorts0and1[i].addr) == 4 + i
  {
  }

  lemma Ports2and3Landmarks()
    ensures forall i :: 0 <= i < |Ports2and3| ==> Landmark(Ports2and3[i].addr) == -1 || Landmark(Ports2and3[i].addr) == 13 + i
  {
  }

  lemma LandmarkPositions()
    ensures forall i :: 0 <= i < |Table| ==> Landmark(Table[i].addr) == -1 || Landmark(Table[i].addr) == i
  {
    SharedLandmarks();
    PeripheralAndPorts0and1Landmarks();
    Ports2and3Landmarks();
  }

  /** Where those registers are, by name. */
  lemma LandmarkNames()
    ensures |Table| > 14
    ensures Table[0].addr == 0x4000_4090 && Table[0].name == "MAC_CLK_CTRL"
    ensures Table[1].addr == 0x4000_4054 && Table[1].name == "LCD_CFG"
    ensures Table[2].addr == 0x4005_4000 && Table[2].name == "UART_CTRL"
    ensures Table[3].addr == 0x4000_4080 && Table[3].name == "MS_CTRL"
    ensures Table[14].addr == 0x4002_802c && Table[14].name == "P2_MUX_CLR"
  {
  }

  /** Each of those registers occurs exactly once in the table, at its recorded position. */
  lemma Unique(addr: u32)
    requires Landmark(addr) != -1
    ensures OnlyAt(Table, addr, Landmark(addr))
  {
    LandmarkPositions();
    LandmarkNames();
  }

  lemma PeripheralAndPorts0and1Names()
    ensures forall i :: 0 <= i < |PeripheralAndPorts0and1| ==>
      (IsMuxState(PeripheralAndPorts0and1[i].addr) <==> EndsWith(PeripheralAndPorts0and1[i].name, "_MUX_STATE"))
  {
  }

  lemma Ports2and3Names()
    ensures forall i :: 0 <= i < |Ports2and3| ==> (IsMuxState(Ports2and3[i].addr) <==> EndsWith(Ports2and3[i].name, "_MUX_STATE"))
  {
  }

  /**
   * Among the multiplexer registers (entries 4 on), the state registers are
   * exactly those whose name ends in "_MUX_STATE": with Row, every *_MUX_STATE
   * register is read-only and every *_MUX_SET or *_MUX_CLR register write-only.
   */
  lemma StateNames()
    ensures forall i :: 4 <= i < |Table| ==> (IsMuxState(Table[i].addr) <==> EndsWith(Table[i].name, "_MUX_STATE"))
  {
    PeripheralAndPorts0and1Names();
    Ports2and3Names();
  }

  /** MAC_CLK_CTRL and LCD_CFG carry no decoder here, MS_CTRL and UART_CTRL do. */
  lemma SharedDecoders()
    ensures |Table| == 19
    ensures !Table[0].hasDecoder && !Table[1].hasDecoder && Table[2].hasDecoder && Table[3].hasDecoder
  {
  }
}

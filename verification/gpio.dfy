/**
 * The GPIO block's descriptor table `gpio[]` (src/gpio.c).
 */
module Gpio {
  import opened Word
  import opened Registers

  // src/gpio.c:316-330
  const Ports0and1: seq<RegisterDescription> := [
    Reg(0x4002_8040, 0, "P0_INP_STATE", AccessRead, true),
    Reg(0x4002_8044, 0, "P0_OUTP_SET", AccessWrite, false),
    Reg(0x4002_8048, 0, "P0_OUTP_CLR", AccessWrite, false),
    Reg(0x4002_804c, 0, "P0_OUTP_STATE", AccessRead, true),
    Reg(0x4002_8050, 0, "P0_DIR_SET", AccessWrite, false),
    Reg(0x4002_8054, 0, "P0_DIR_CLR", AccessWrite, false),
    Reg(0x4002_8058, 0, "P0_DIR_STATE", AccessRead, true),
    Reg(0x4002_8060, 0, "P1_INP_STATE", AccessRead, true),
    Reg(0x4002_8064, 0, "P1_OUTP_SET", AccessWrite, false),
    Reg(0x4002_8068, 0, "P1_OUTP_CLR", AccessWrite, false),
    Reg(0x4002_806c, 0, "P1_OUTP_STATE", AccessRead, true),
    Reg(0x4002_8070, 0, "P1_DIR_SET", AccessWrite, false),
    Reg(0x4002_8074, 0, "P1_DIR_CLR", AccessWrite, false),
    Reg(0x4002_8078, 0, "P1_DIR_STATE", AccessRead, true)
  ]

  // src/gpio.c:332-342
  const Ports2and3: seq<RegisterDescription> := [
    Reg(0x4002_801c, 0, "P2_INP_STATE", AccessRead, true),
    Reg(0x4002_8020, 0, "P2_OUTP_SET", AccessWrite, false),
    Reg(0x4002_8024, 0, "P2_OUTP_CLR", AccessWrite, false),
    Reg(0x4002_8010, 0, "P2_DIR_SET", AccessWrite, true),
    Reg(0x4002_8014, 0, "P2_DIR_CLR", AccessWrite, false),
    Reg(0x4002_8018, 0, "P2_DIR_STATE", AccessRead, false),
    Reg(0x4002_8000, 0, "P3_INP_STATE", AccessRead, true),
    Reg(0x4002_8004, 0, "P3_OUTP_SET", AccessWrite, false),
    Reg(0x4002_8008, 0, "P3_OUTP_CLR", AccessWrite, false),
    Reg(0x4002_800c, 0, "P3_OUTP_STATE", AccessRead, true)
  ]

  /** `gpio[]`: 24 descriptors, in the source order. */
  const Table: seq<RegisterDescription> := Ports0and1 + Ports2and3

  /**
   * The state registers: the input, output and direction state of ports 0 and
   * 1 (0x40028040/4c/58 and 0x40028060/6c/78), the input state of port 2
   * (0x4002801c), the shared port 2/3 direction state (0x40028018) and the
   * input and output state of port 3 (0x40028000/0c).
   */
  predicate IsState(addr: u32)
  {
    || addr == 0x4002_8040 || addr == 0x4002_804c || addr == 0x4002_8058
    || addr == 0x4002_8060 || addr == 0x4002_806c || addr == 0x4002_8078
    || addr == 0x4002_801c || addr == 0x4002_8018 || addr == 0x4002_8000 || addr == 0x4002_800c
  }

  /**
   * What every gpio descriptor satisfies: a word register of page 0x40028000,
   * below 0x40028028 or in 0x40028040-0x4002807c, with reset 0; the state
   * registers are read-only and the set and clear registers write-only, so
   * none is read-write.
   */
  predicate Row(r: RegisterDescription)
  {
    && r.addr % 4 == 0
    && (0x4002_8000 <= r.addr < 0x4002_8028 || 0x4002_8040 <= r.addr < 0x4002_8080)
    && r.resetState == 0
    && r.access == (if IsState(r.addr) then AccessRead else AccessWrite)
  }

  lemma Ports0and1Rows()
    ensures forall i :: 0 <= i < |Ports0and1| ==> Row(Ports0and1[i])
  {
  }

  lemma Ports2and3Rows()
    ensures forall i :: 0 <= i < |Ports2and3| ==> Row(Ports2and3[i])
  {
  }

  /**
   * Every gpio entry satisfies Row.
   */
  lemma TableFacts()
    ensures |Table| == 24
    ensures forall i :: 0 <= i < |Table| ==> Row(Table[i])
  {
    Ports0and1Rows();
    Ports2and3Rows();
  }

  /** The position of each register the SPI-NOR driver uses, and of the port 2/3 direction-state register; -1 for every other address. */
  function Landmark(addr: u32): int
  {
    if addr == 0x4002_8010 then 17
    else if addr == 0x4002_8018 then 19
    else if addr == 0x4002_8000 then 20
    else if addr == 0x4002_8004 then 21
    else if addr == 0x4002_8008 then 22
    else -1
  }

  lemma Ports0and1Landmarks()
    ensures forall i :: 0 <= i < |Ports0and1| ==> Landmark(Ports0and1[i].addr) == -1 || Landmark(Ports0and1[i].addr) == 0 + i
  {
  }

  lemma Ports2and3Landmarks()
    ensures forall i :: 0 <= i < |Ports2and3| ==> Landmark(Ports2and3[i].addr) == -1 || Landmark(Ports2and3[i].addr) == 14 + i
  {
  }

  lemma LandmarkPositions()
    ensures forall i :: 0 <= i < |Table| ==> Landmark(Table[i].addr) == -1 || Landmark(Table[i].addr) == i
  {
    Ports0and1Landmarks();
    Ports2and3Landmarks();
  }

  /** Where those registers are, by name. */
  lemma LandmarkNames()
    ensures |Table| > 22
    ensures Table[17].addr == 0x4002_8010 && Table[17].name == "P2_DIR_SET"
    ensures Table[19].addr == 0x4002_8018 && Table[19].name == "P2_DIR_STATE"
    ensures Table[20].addr == 0x4002_8000 && Table[20].name == "P3_INP_STATE"
    ensures Table[21].addr == 0x4002_8004 && Table[21].name == "P3_OUTP_SET"
    ensures Table[22].addr == 0x4002_8008 && Table[22].name == "P3_OUTP_CLR"
  {
  }

  /** Each of those registers occurs exactly once in the table, at its recorded position. */
  lemma Unique(addr: u32)
    requires Landmark(addr) != -1
    ensures OnlyAt(Table, addr, Landmark(addr))
  {
    LandmarkPositions();
    LandmarkNames();
  }

  lemma Ports0and1Names()
    ensures forall i :: 0 <= i < |Ports0and1| ==> (IsState(Ports0and1[i].addr) <==> EndsWith(Ports0and1[i].name, "_STATE"))
  {
    Port0Names();
    Port1Names();
  }

  lemma Port0Names()
    ensures forall i :: 0 <= i < 7 ==> (IsState(Ports0and1[i].addr) <==> EndsWith(Ports0and1[i].name, "_STATE"))
  {
  }

  lemma Port1Names()
    ensures forall i :: 7 <= i < 14 ==> (IsState(Ports0and1[i].addr) <==> EndsWith(Ports0and1[i].name, "_STATE"))
  {
  }

  lemma Ports2and3Names()
    ensures forall i :: 0 <= i < |Ports2and3| ==> (IsState(Ports2and3[i].addr) <==> EndsWith(Ports2and3[i].name, "_STATE"))
  {
  }

  /**
   * The state registers are exactly the entries whose name ends in "_STATE":
   * with Row, every *_STATE register is read-only and every other gpio
   * register (the *_SET and *_CLR ones) write-only.
   */
  lemma StateNames()
    ensures forall i :: 0 <= i < |Table| ==> (IsState(Table[i].addr) <==> EndsWith(Table[i].name, "_STATE"))
  {
    Ports0and1Names();
    Ports2and3Names();
  }

  /** The port 2/3 direction-set register has a decoder, the direction-state register none. */
  lemma DirectionDecoders()
    ensures |Table| == 24
    ensures Table[17].hasDecoder && !Table[19].hasDecoder
  {
  }
}

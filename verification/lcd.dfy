/**
 * The LCD controller's descriptor table `lcd[]` (src/lcd.c).
 */
module Lcd {
  import opened Word
  import opened Registers

  // src/lcd.c:358-371
  const Panel: seq<RegisterDescription> := [
    Reg(0x4000_4054, 0, "LCD_CFG", AccessRW, false),
    Reg(0x3104_0000, 0, "LCD_TIMH", AccessRW, true),
    Reg(0x3104_0004, 0, "LCD_TIMV", AccessRW, true),
    Reg(0x3104_0008, 0, "LCD_POL", AccessRW, true),
    Reg(0x3104_000c, 0, "LCD_LE", AccessRW, true),
    Reg(0x3104_0010, 0, "LCD_UPBASE", AccessRW, true),
    Reg(0x3104_0014, 0, "LCD_LPBASE", AccessRW, true),
    Reg(0x3104_0018, 0, "LCD_CTRL", AccessRW, true),
    Reg(0x3104_001c, 0, "LCD_INTMSK", AccessRW, true),
    Reg(0x3104_0020, 0, "LCD_INTRAW", AccessRead, true),
    Reg(0x3104_0024, 0, "LCD_INTSTAT", AccessRead, true),
    Reg(0x3104_0028, 0, "LCD_INTCLR", AccessWrite, true),
    Reg(0x3104_002c, 0, "LCD_UPCURR", AccessRead, true),
    Reg(0x3104_0030, 0, "LCD_LPCURR", AccessRead, true)
  ]

  // src/lcd.c:372-381
  const Cursor: seq<RegisterDescription> := [
    Reg(0x3104_0c00, 0, "CRSR_CTRL", AccessRW, true),
    Reg(0x3104_0c04, 0, "CRSR_CFG", AccessRW, true),
    Reg(0x3104_0c08, 0, "CRSR_PAL0", AccessRW, true),
    Reg(0x3104_0c0c, 0, "CRSR_PAL1", AccessRW, true),
    Reg(0x3104_0c10, 0, "CRSR_XY", AccessRW, true),
    Reg(0x3104_0c14, 0, "CRSR_CLIP", AccessRW, true),
    Reg(0x3104_0c20, 0, "CRSR_INTMSK", AccessRW, true),
    Reg(0x3104_0c24, 0, "CRSR_INTCLR", AccessWrite, true),
    Reg(0x3104_0c28, 0, "CRSR_INTRAW", AccessRead, true),
    Reg(0x3104_0c2c, 0, "CRSR_INTSTAT", AccessRead, true)
  ]

  /** `lcd[]`: 24 descriptors, in the source order. */
  const Table: seq<RegisterDescription> := Panel + Cursor

  /**
   * The permission the table records for the lcd register at `addr`:
   * LCD_INTCLR (0x31040028) and CRSR_INTCLR (0x31040c24) are write-only;
   * LCD_INTRAW, LCD_INTSTAT, LCD_UPCURR, LCD_LPCURR, CRSR_INTRAW and
   * CRSR_INTSTAT read-only; the rest read-write.
   */
  function RecordedAccess(addr: u32): Access
  {
    if addr == 0x3104_0028 || addr == 0x3104_0c24 then AccessWrite
    else if addr == 0x3104_0020 || addr == 0x3104_0024 || addr == 0x3104_002c || addr == 0x3104_0030
         || addr == 0x3104_0c28 || addr == 0x3104_0c2c then AccessRead
    else AccessRW
  }

  /**
   * What every lcd descriptor satisfies: LCD_CFG is the clock register
   * 0x40004054 without a decoder; every other entry is a decoded register of
   * page 0x31040000. All reset to 0.
   */
  predicate Row(r: RegisterDescription)
  {
    && r.addr % 4 == 0
    && ((r.addr == 0x4000_4054 && !r.hasDecoder) || (PageOf(r.addr) == 0x3104_0000 && r.hasDecoder))
    && r.resetState == 0
    && r.access == RecordedAccess(r.addr)
  }

  lemma PanelRows()
    ensures forall i :: 0 <= i < |Panel| ==> Row(Panel[i])
  {
  }

  lemma CursorRows()
    ensures forall i :: 0 <= i < |Cursor| ==> Row(Cursor[i])
  {
  }

  /**
   * Every lcd entry satisfies Row.
   */
  lemma TableFacts()
    ensures |Table| == 24
    ensures forall i :: 0 <= i < |Table| ==> Row(Table[i])
  {
    PanelRows();
    CursorRows();
  }

  /** The position of each register that clkpwr repeats; -1 for every other address. */
  function Landmark(addr: u32): int
  {
    if addr == 0x4000_4054 then 0
    else -1
  }

  lemma PanelLandmarks()
    ensures forall i :: 0 <= i < |Panel| ==> Landmark(Panel[i].addr) == -1 || Landmark(Panel[i].addr) == 0 + i
  {
  }

  lemma CursorLandmarks()
    ensures forall i :: 0 <= i < |Cursor| ==> Landmark(Cursor[i].addr) == -1 || Landmark(Cursor[i].addr) == 14 + i
  {
  }

  lemma LandmarkPositions()
    ensures forall i :: 0 <= i < |Table| ==> Landmark(Table[i].addr) == -1 || Landmark(Table[i].addr) == i
  {
    PanelLandmarks();
    CursorLandmarks();
  }

  /** Where those registers are, by name. */
  lemma LandmarkNames()
    ensures |Table| > 0
    ensures Table[0].addr == 0x4000_4054 && Table[0].name == "LCD_CFG"
  {
  }

  /** Each of those registers occurs exactly once in the table, at its recorded position. */
  lemma Unique(addr: u32)
    requires Landmark(addr) != -1
    ensures OnlyAt(Table, addr, Landmark(addr))
  {
    LandmarkPositions();
    LandmarkNames();
  }
}

/**
 * What the lookups of src/registers.c return on the concrete catalog: which
 * entry answers each shared address, which registers a permission check
 * refuses, and which registers the SPI-NOR driver relies on.
 */
module CatalogFacts {
  import opened Word
  import opened Registers
  import opened Catalog
  import ClkPwr
  import Gpdma
  import Emc
  import Mlc
  import Slc
  import Lcd
  import Ts
  import Spi
  import Ssp
  import Gpio
  import Pinmux

  /** A clkpower landmark other than the two read-only start registers answers every lookup itself. */
  lemma ClockResolves(addr: u32, need: Need)
    requires ClkPwr.Landmark(addr) != -1 && addr != 0x4000_4038 && addr != 0x4000_4028
    ensures Find(AllRegisters, addr, need) == Some(Pos(0, ClkPwr.Landmark(addr)))
  {
    ClkPwr.Unique(addr);
    ClockEntry(ClkPwr.Landmark(addr));
    ResolvesTo(Pos(0, ClkPwr.Landmark(addr)), addr, need);
  }

  /** lcd's copy of the clock register LCD_CFG has no decoder of its own. */
  lemma LcdClockEntry()
    ensures |Lcd.Table| > 0 && Lcd.Table[0].addr == 0x4000_4054 && Lcd.Table[0].name == "LCD_CFG"
    ensures !Lcd.Table[0].hasDecoder
  {
    Lcd.LandmarkNames();
    Lcd.TableFacts();
    assert Lcd.Row(Lcd.Table[0]);
  }

  /** spi's copy of the clock register SPI_CTRL has no decoder of its own. */
  lemma SpiClockEntry()
    ensures |Spi.Table| > 0 && Spi.Table[0].addr == 0x4000_40c4 && Spi.Table[0].name == "SPI_CTRL"
    ensures !Spi.Table[0].hasDecoder
  {
    Spi.LandmarkNames();
    Spi.TableFacts();
    assert Spi.Row(Spi.Table[0]);
  }

  /** ssp's copy of the clock register SSP_CTRL has no decoder of its own. */
  lemma SspClockEntry()
    ensures |Ssp.Table| > 0 && Ssp.Table[0].addr == 0x4000_4078 && Ssp.Table[0].name == "SSP_CTRL"
    ensures !Ssp.Table[0].hasDecoder
  {
    Ssp.LandmarkNames();
    Ssp.TableFacts();
    assert Ssp.Row(Ssp.Table[0]);
  }

  /** A clkpower entry other than the two start registers is RW and has a decoder. */
  lemma ClockEntry(i: nat)
    requires i < |ClkPwr.Table|
    ensures ClkPwr.Table[i].hasDecoder
    ensures ClkPwr.Table[i].addr != 0x4000_4038 && ClkPwr.Table[i].addr != 0x4000_4028 ==> ClkPwr.Table[i].access == AccessRW
  {
    ClkPwr.TableFacts();
    assert ClkPwr.Row(ClkPwr.Table[i]);
  }

  /**
   * clkpwr is scanned first, so each clock register that later tables repeat
   * is answered by its clkpower entry, whose decoder is present, whatever the
   * lookup asks for.
   */
  lemma SharedClockRegisters(need: Need)
    ensures Find(AllRegisters, 0x4000_4080, need) == Some(Pos(0, 19))
    ensures Find(AllRegisters, 0x4000_4090, need) == Some(Pos(0, 22))
    ensures Find(AllRegisters, 0x4000_4054, need) == Some(Pos(0, 23))
    ensures Find(AllRegisters, 0x4000_4078, need) == Some(Pos(0, 25))
    ensures Find(AllRegisters, 0x4000_40c4, need) == Some(Pos(0, 26))
    ensures Find(AllRegisters, 0x4000_40b4, need) == Some(Pos(0, 30))
    ensures Find(AllRegisters, 0x4000_4060, need) == Some(Pos(0, 31))
    ensures |AllRegisters[0].regs| > 31
    ensures At(AllRegisters, Pos(0, 19)).hasDecoder && At(AllRegisters, Pos(0, 22)).hasDecoder
    ensures At(AllRegisters, Pos(0, 23)).hasDecoder && At(AllRegisters, Pos(0, 25)).hasDecoder
    ensures At(AllRegisters, Pos(0, 26)).hasDecoder && At(AllRegisters, Pos(0, 30)).hasDecoder
    ensures At(AllRegisters, Pos(0, 31)).hasDecoder
  {
    ClockResolves(0x4000_4080, need);
    ClockResolves(0x4000_4090, need);
    ClockResolves(0x4000_4054, need);
    ClockResolves(0x4000_4078, need);
    ClockResolves(0x4000_40c4, need);
    ClockResolves(0x4000_40b4, need);
    ClockResolves(0x4000_4060, need);
    ClkPwr.LandmarkNames();
    ClockEntry(19);
    ClockEntry(22);
    ClockEntry(23);
    ClockEntry(25);
    ClockEntry(26);
    ClockEntry(30);
    ClockEntry(31);
  }

  /**
   * LCD_CFG is answered by clkpower's LCDCLK_CTRL, with a decoder, and never
   * by lcd's own LCD_CFG entry, which has none.
   */
  lemma LcdConfigShowsClockEntry()
    ensures Valid(AllRegisters, Pos(5, 0)) && At(AllRegisters, Pos(5, 0)).addr == 0x4000_4054
    ensures At(AllRegisters, Pos(5, 0)).name == "LCD_CFG" && !At(AllRegisters, Pos(5, 0)).hasDecoder
    ensures Find(AllRegisters, 0x4000_4054, AnyAccess) == Some(Pos(0, 23))
    ensures At(AllRegisters, Pos(0, 23)).name == "LCDCLK_CTRL" && At(AllRegisters, Pos(0, 23)).hasDecoder
  {
    SharedClockRegisters(AnyAccess);
    ClkPwr.LandmarkNames();
    LcdClockEntry();
  }

  /**
   * The two ADC clock registers the ts table repeats are answered by clkpower,
   * so ts's own entries for them are never chosen.
   */
  lemma AdcClocksShowClockEntries()
    ensures Valid(AllRegisters, Pos(6, 1))
    ensures At(AllRegisters, Pos(6, 0)).addr == 0x4000_40b4 && At(AllRegisters, Pos(6, 0)).name == "ADCLK_CTRL"
    ensures At(AllRegisters, Pos(6, 1)).addr == 0x4000_4060 && At(AllRegisters, Pos(6, 1)).name == "ADCLK_CTRL1"
    ensures Find(AllRegisters, 0x4000_40b4, AnyAccess) == Some(Pos(0, 30))
    ensures Find(AllRegisters, 0x4000_4060, AnyAccess) == Some(Pos(0, 31))
    ensures At(AllRegisters, Pos(0, 30)).name == "ADCLK_CTRL" && At(AllRegisters, Pos(0, 31)).name == "ADCLK_CTRL1"
  {
    SharedClockRegisters(AnyAccess);
    ClkPwr.LandmarkNames();
    Ts.LandmarkNames();
  }

  /** spi's SPI_CTRL entry has no decoder; lookups reach clkpower's, which has one. */
  lemma SpiClockShowsClockEntry()
    ensures Valid(AllRegisters, Pos(7, 0)) && At(AllRegisters, Pos(7, 0)).addr == 0x4000_40c4
    ensures At(AllRegisters, Pos(7, 0)).name == "SPI_CTRL" && !At(AllRegisters, Pos(7, 0)).hasDecoder
    ensures Find(AllRegisters, 0x4000_40c4, AnyAccess) == Some(Pos(0, 26))
    ensures At(AllRegisters, Pos(0, 26)).name == "SPI_CTRL" && At(AllRegisters, Pos(0, 26)).hasDecoder
  {
    SharedClockRegisters(AnyAccess);
    ClkPwr.LandmarkNames();
    SpiClockEntry();
  }

  /** ssp's SSP_CTRL entry has no decoder; lookups reach clkpower's, which has one. */
  lemma SspClockShowsClockEntry()
    ensures Valid(AllRegisters, Pos(8, 0)) && At(AllRegisters, Pos(8, 0)).addr == 0x4000_4078
    ensures At(AllRegisters, Pos(8, 0)).name == "SSP_CTRL" && !At(AllRegisters, Pos(8, 0)).hasDecoder
    ensures Find(AllRegisters, 0x4000_4078, AnyAccess) == Some(Pos(0, 25))
    ensures At(AllRegisters, Pos(0, 25)).name == "SSP_CTRL" && At(AllRegisters, Pos(0, 25)).hasDecoder
  {
    SharedClockRegisters(AnyAccess);
    ClkPwr.LandmarkNames();
    SspClockEntry();
  }

  /**
   * pinmux's first entries repeat three clock registers; lookups show them
   * under clkpower's names with clkpower's decoders, so pinmux's own MS_CTRL
   * entry, which has a decoder, is never chosen.
   */
  lemma PinmuxClocksShowClockEntries()
    ensures Valid(AllRegisters, Pos(10, 3))
    ensures At(AllRegisters, Pos(10, 0)).addr == 0x4000_4090 && At(AllRegisters, Pos(10, 0)).name == "MAC_CLK_CTRL"
    ensures At(AllRegisters, Pos(10, 1)).addr == 0x4000_4054 && At(AllRegisters, Pos(10, 1)).name == "LCD_CFG"
    ensures At(AllRegisters, Pos(10, 3)).addr == 0x4000_4080 && At(AllRegisters, Pos(10, 3)).hasDecoder
    ensures Find(AllRegisters, 0x4000_4090, AnyAccess) == Some(Pos(0, 22))
    ensures Find(AllRegisters, 0x4000_4054, AnyAccess) == Some(Pos(0, 23))
    ensures Find(AllRegisters, 0x4000_4080, AnyAccess) == Some(Pos(0, 19))
    ensures At(AllRegisters, Pos(0, 22)).name == "MACCLK_CTRL" && At(AllRegisters, Pos(0, 23)).name == "LCDCLK_CTRL"
    ensures At(AllRegisters, Pos(0, 19)).name == "MS_CTRL"
  {
    SharedClockRegisters(AnyAccess);
    ClkPwr.LandmarkNames();
    Pinmux.LandmarkNames();
    Pinmux.SharedDecoders();
  }

  /**
   * The two start-status registers are answered by clkpower for reads and
   * refused for writes: no other set holds their addresses.
   */
  lemma StartStatusReadOnly()
    ensures Find(AllRegisters, 0x4000_4038, NeedRead) == Some(Pos(0, 11))
    ensures Find(AllRegisters, 0x4000_4028, NeedRead) == Some(Pos(0, 12))
    ensures Find(AllRegisters, 0x4000_4038, NeedWrite) == None
    ensures Find(AllRegisters, 0x4000_4028, NeedWrite) == None
  {
    StartRegister(0x4000_4038, NeedRead);
    StartRegister(0x4000_4028, NeedRead);
    StartRegister(0x4000_4038, NeedWrite);
    StartRegister(0x4000_4028, NeedWrite);
  }

  lemma StartRegister(addr: u32, need: Need)
    requires addr == 0x4000_4038 || addr == 0x4000_4028
    ensures ClkPwr.Landmark(addr) != -1
    ensures Find(AllRegisters, addr, need) == if need == NeedWrite then None else Some(Pos(0, ClkPwr.Landmark(addr)))
  {
    ClkPwr.Unique(addr);
    ClkPwr.LandmarkNames();
    StartEntry(ClkPwr.Landmark(addr));
    Owned(Pos(0, ClkPwr.Landmark(addr)), addr, need);
  }

  lemma StartEntry(i: nat)
    requires i < |ClkPwr.Table| && (ClkPwr.Table[i].addr == 0x4000_4038 || ClkPwr.Table[i].addr == 0x4000_4028)
    ensures ClkPwr.Table[i].access == AccessRead
  {
    ClkPwr.TableFacts();
    assert ClkPwr.Row(ClkPwr.Table[i]);
  }

  /**
   * The four emc registers in the clock page are not in the clkpower table,
   * so they resolve to emc's entries; the two read-only ones, and EMCStatus,
   * refuse writes.
   */
  lemma EmcRegistersInClockPage(need: Need)
    ensures Find(AllRegisters, 0x4000_4068, need) == Some(Pos(2, 0))
    ensures Find(AllRegisters, 0x4000_406c, need) == Some(Pos(2, 59))
    ensures Find(AllRegisters, 0x4000_4070, need) == if need == NeedWrite then None else Some(Pos(2, 60))
    ensures Find(AllRegisters, 0x4000_4074, need) == if need == NeedWrite then None else Some(Pos(2, 61))
    ensures Find(AllRegisters, 0x3108_0004, need) == if need == NeedWrite then None else Some(Pos(2, 2))
  {
    EmcLandmark(0x4000_4068, need);
    EmcLandmark(0x4000_406c, need);
    EmcLandmark(0x4000_4070, need);
    EmcLandmark(0x4000_4074, need);
    EmcLandmark(0x3108_0004, need);
  }

  lemma EmcLandmark(addr: u32, need: Need)
    requires Emc.Landmark(addr) != -1
    ensures Find(AllRegisters, addr, need) ==
      if need == NeedWrite && (addr == 0x3108_0004 || addr == 0x4000_4070 || addr == 0x4000_4074) then None
      else Some(Pos(2, Emc.Landmark(addr)))
  {
    Emc.Unique(addr);
    EmcEntry(Emc.Landmark(addr));
    EmcOnly(addr);
    Owned(Pos(2, Emc.Landmark(addr)), addr, need);
  }

  /** No set but emc has a region holding an emc landmark. */
  lemma EmcOnly(addr: u32)
    requires Emc.Landmark(addr) != -1
    ensures forall s :: 0 <= s < 11 && s != 2 ==> !InRegion(s, addr)
  {
  }

  /** An emc entry is read-only exactly at EMCStatus, DDR_LAP_COUNT and DDR_CAL_DELAY, and RW elsewhere. */
  lemma EmcEntry(i: nat)
    requires i < |Emc.Table|
    ensures var a := Emc.Table[i].addr;
      Emc.Table[i].access == if a == 0x3108_0004 || a == 0x4000_4070 || a == 0x4000_4074 then AccessRead else AccessRW
  {
    Emc.TableFacts();
    assert Emc.Row(Emc.Table[i]);
  }

  /**
   * gpdma's addresses ascend and no other set reaches page 0x31000000, so every
   * gpdma entry answers the lookups it permits and nothing else does.
   */
  lemma GpdmaOwnsItsEntries(i: nat, need: Need)
    requires i < |Gpdma.Table|
    ensures Find(AllRegisters, Gpdma.Table[i].addr, need) ==
      if Allows(need, Gpdma.Table[i].access) then Some(Pos(1, i)) else None
  {
    GpdmaEntry(i);
    GpdmaOnly(Gpdma.Table[i].addr);
    Owned(Pos(1, i), Gpdma.Table[i].addr, need);
  }

  lemma GpdmaEntry(i: nat)
    requires i < |Gpdma.Table|
    ensures OnlyAt(Gpdma.Table, Gpdma.Table[i].addr, i)
    ensures Gpdma.Table[i].access == Gpdma.RecordedAccess(Gpdma.Table[i].addr)
    ensures var a := Gpdma.Table[i].addr; PageOf(a) == 0x3100_0000
  {
    Gpdma.TableFacts();
    AscendingOnlyAt(Gpdma.Table, i);
    assert Gpdma.Row(Gpdma.Table[i]);
  }

  lemma GpdmaOnly(a: u32)
    requires PageOf(a) == 0x3100_0000
    ensures forall s :: 0 <= s < 11 && s != 1 ==> !InRegion(s, a)
  {
  }

  /**
   * mlc's addresses ascend and no other set reaches the three mlc pages, so every
   * mlc entry answers the lookups it permits and nothing else does.
   */
  lemma MlcOwnsItsEntries(i: nat, need: Need)
    requires i < |Mlc.Table|
    ensures Find(AllRegisters, Mlc.Table[i].addr, need) ==
      if Allows(need, Mlc.Table[i].access) then Some(Pos(3, i)) else None
  {
    MlcEntry(i);
    MlcOnly(Mlc.Table[i].addr);
    Owned(Pos(3, i), Mlc.Table[i].addr, need);
  }

  lemma MlcEntry(i: nat)
    requires i < |Mlc.Table|
    ensures OnlyAt(Mlc.Table, Mlc.Table[i].addr, i)
    ensures Mlc.Table[i].access == Mlc.RecordedAccess(Mlc.Table[i].addr)
    ensures var a := Mlc.Table[i].addr; (PageOf(a) == 0x200a_8000 || PageOf(a) == 0x200b_0000 || PageOf(a) == 0x200b_8000)
  {
    Mlc.TableFacts();
    AscendingOnlyAt(Mlc.Table, i);
    assert Mlc.Row(Mlc.Table[i]);
  }

  lemma MlcOnly(a: u32)
    requires (PageOf(a) == 0x200a_8000 || PageOf(a) == 0x200b_0000 || PageOf(a) == 0x200b_8000)
    ensures forall s :: 0 <= s < 11 && s != 3 ==> !InRegion(s, a)
  {
  }

  /**
   * slc's addresses ascend and no other set reaches page 0x20020000, so every
   * slc entry answers the lookups it permits and nothing else does.
   */
  lemma SlcOwnsItsEntries(i: nat, need: Need)
    requires i < |Slc.Table|
    ensures Find(AllRegisters, Slc.Table[i].addr, need) ==
      if Allows(need, Slc.Table[i].access) then Some(Pos(4, i)) else None
  {
    SlcEntry(i);
    SlcOnly(Slc.Table[i].addr);
    Owned(Pos(4, i), Slc.Table[i].addr, need);
  }

  lemma SlcEntry(i: nat)
    requires i < |Slc.Table|
    ensures OnlyAt(Slc.Table, Slc.Table[i].addr, i)
    ensures Slc.Table[i].access == Slc.RecordedAccess(Slc.Table[i].addr)
    ensures var a := Slc.Table[i].addr; PageOf(a) == 0x2002_0000
  {
    Slc.TableFacts();
    AscendingOnlyAt(Slc.Table, i);
    assert Slc.Row(Slc.Table[i]);
  }

  lemma SlcOnly(a: u32)
    requires PageOf(a) == 0x2002_0000
    ensures forall s :: 0 <= s < 11 && s != 4 ==> !InRegion(s, a)
  {
  }

  /** The two gpdma interrupt-clear registers are write-only: a read lookup refuses them, a write lookup finds them. */
  lemma GpdmaClearRegistersNotRead()
    ensures Find(AllRegisters, 0x3100_0008, NeedRead) == None
    ensures Find(AllRegisters, 0x3100_0010, NeedRead) == None
    ensures Find(AllRegisters, 0x3100_0008, NeedWrite) == Some(Pos(1, 2))
    ensures Find(AllRegisters, 0x3100_0010, NeedWrite) == Some(Pos(1, 4))
  {
    Gpdma.ClearRegisters();
    GpdmaEntry(2);
    GpdmaEntry(4);
    GpdmaOwnsItsEntries(2, NeedRead);
    GpdmaOwnsItsEntries(4, NeedRead);
    GpdmaOwnsItsEntries(2, NeedWrite);
    GpdmaOwnsItsEntries(4, NeedWrite);
  }

  /**
   * Of the 21 mlc registers a read lookup finds exactly MLC_BUFF, MLC_DATA,
   * MLC_IRQ_SR and MLC_ISR; the others are write-only.
   */
  lemma MlcReadableRegisters(i: nat)
    requires i < |Mlc.Table|
    ensures Find(AllRegisters, Mlc.Table[i].addr, NeedRead).Some? <==> i == 0 || i == 1 || i == 17 || i == 19
  {
    MlcOwnsItsEntries(i, NeedRead);
    MlcReadableAt(i);
  }

  lemma MlcReadableAt(i: nat)
    requires i < |Mlc.Table|
    ensures Readable(Mlc.Table[i].access) <==> i == 0 || i == 1 || i == 17 || i == 19
  {
    Mlc.Named();
    MlcEntry(i);
    AccessEncoding(Mlc.Table[i].access);
    AscendingOnlyAtMlc();
  }

  lemma AscendingOnlyAtMlc()
    ensures OnlyAt(Mlc.Table, 0x200a_8000, 0) && OnlyAt(Mlc.Table, 0x200b_0000, 1)
    ensures OnlyAt(Mlc.Table, 0x200b_803c, 17) && OnlyAt(Mlc.Table, 0x200b_8048, 19)
  {
    Mlc.Named();
    MlcEntry(0);
    MlcEntry(1);
    MlcEntry(17);
    MlcEntry(19);
  }

  /** Lookups of an ssp data or interrupt-clear register. */
  lemma SspLandmark(addr: u32, need: Need)
    requires Ssp.Landmark(addr) > 0
    ensures Find(AllRegisters, addr, need) == if need == NeedRead then None else Some(Pos(8, Ssp.Landmark(addr)))
  {
    Ssp.Unique(addr);
    SspEntry(Ssp.Landmark(addr));
    SspOnly(addr);
    Owned(Pos(8, Ssp.Landmark(addr)), addr, need);
  }

  lemma SspOnly(addr: u32)
    requires Ssp.Landmark(addr) > 0
    ensures forall s :: 0 <= s < 11 && s != 8 ==> !InRegion(s, addr)
  {
  }

  lemma SspEntry(i: nat)
    requires i < |Ssp.Table| && Ssp.Landmark(Ssp.Table[i].addr) > 0
    ensures Ssp.Table[i].access == AccessWrite
  {
    Ssp.TableFacts();
    assert Ssp.Row(Ssp.Table[i]);
  }

  /**
   * SSP0DR, SSP1DR, SSP0ICR and SSP1ICR are write-only, so a read lookup
   * (and an "ssp" dump) never reads them, while a write lookup finds them.
   */
  lemma SspDataAndClearNotRead(need: Need)
    ensures Find(AllRegisters, 0x2008_4008, need) == if need == NeedRead then None else Some(Pos(8, 5))
    ensures Find(AllRegisters, 0x2008_c008, need) == if need == NeedRead then None else Some(Pos(8, 6))
    ensures Find(AllRegisters, 0x2008_4020, need) == if need == NeedRead then None else Some(Pos(8, 17))
    ensures Find(AllRegisters, 0x2008_c020, need) == if need == NeedRead then None else Some(Pos(8, 18))
  {
    SspLandmark(0x2008_4008, need);
    SspLandmark(0x2008_c008, need);
    SspLandmark(0x2008_4020, need);
    SspLandmark(0x2008_c020, need);
  }

  /** Lookups of a gpio landmark: write-only registers refuse reads, state registers refuse writes. */
  lemma GpioLandmark(addr: u32, need: Need)
    requires Gpio.Landmark(addr) != -1
    ensures Find(AllRegisters, addr, need) ==
      if Allows(need, if Gpio.IsState(addr) then AccessRead else AccessWrite) then Some(Pos(9, Gpio.Landmark(addr))) else None
  {
    Gpio.Unique(addr);
    GpioEntry(Gpio.Landmark(addr));
    GpioOnly(addr);
    Owned(Pos(9, Gpio.Landmark(addr)), addr, need);
  }

  lemma GpioOnly(addr: u32)
    requires Gpio.Landmark(addr) != -1
    ensures forall s :: 0 <= s < 11 && s != 9 ==> !InRegion(s, addr)
  {
  }

  lemma GpioEntry(i: nat)
    requires i < |Gpio.Table|
    ensures Gpio.Table[i].access == if Gpio.IsState(Gpio.Table[i].addr) then AccessRead else AccessWrite
  {
    Gpio.TableFacts();
    assert Gpio.Row(Gpio.Table[i]);
  }

  /** Lookups of a pinmux landmark that clkpower does not repeat. */
  lemma PinmuxLandmark(addr: u32, need: Need)
    requires addr == 0x4002_802c || addr == 0x4005_4000
    ensures Pinmux.Landmark(addr) != -1
    ensures Find(AllRegisters, addr, need) ==
      if Allows(need, if addr == 0x4005_4000 then AccessRW else AccessWrite) then Some(Pos(10, Pinmux.Landmark(addr))) else None
  {
    Pinmux.Unique(addr);
    PinmuxEntry(Pinmux.Landmark(addr));
    PinmuxOnly(addr);
    Owned(Pos(10, Pinmux.Landmark(addr)), addr, need);
  }

  lemma PinmuxOnly(addr: u32)
    requires addr == 0x4002_802c || addr == 0x4005_4000
    ensures forall s :: 0 <= s < 11 && s != 10 ==> !InRegion(s, addr)
  {
  }

  lemma PinmuxEntry(i: nat)
    requires i < |Pinmux.Table| && (Pinmux.Table[i].addr == 0x4002_802c || Pinmux.Table[i].addr == 0x4005_4000)
    ensures Pinmux.Table[i].access == if Pinmux.Table[i].addr == 0x4005_4000 then AccessRW else AccessWrite
  {
    Pinmux.TableFacts();
    assert Pinmux.Row(Pinmux.Table[i]);
  }

  /** Lookups of an SPI1 register: every spi entry is RW, so every lookup finds it. */
  lemma SpiLandmark(addr: u32, need: Need)
    requires Spi.Landmark(addr) > 0
    ensures Find(AllRegisters, addr, need) == Some(Pos(7, Spi.Landmark(addr)))
  {
    Spi.Unique(addr);
    SpiEntry(Spi.Landmark(addr));
    SpiOnly(addr);
    Owned(Pos(7, Spi.Landmark(addr)), addr, need);
  }

  lemma SpiOnly(addr: u32)
    requires Spi.Landmark(addr) > 0
    ensures forall s :: 0 <= s < 11 && s != 7 ==> !InRegion(s, addr)
  {
  }

  lemma SpiEntry(i: nat)
    requires i < |Spi.Table|
    ensures Spi.Table[i].access == AccessRW
  {
    Spi.TableFacts();
    assert Spi.Row(Spi.Table[i]);
  }

  /**
   * The SPI1 address constants are the addresses of the spi table's SPI1
   * entries, and all lie in page 0x20088000.
   */
  lemma SpiRegisterConstants()
    ensures |Spi.Table| > 11
    ensures Spi.Table[1].addr == SPI1_GLOBAL && Spi.Table[3].addr == SPI1_CON && Spi.Table[5].addr == SPI1_FRM
    ensures Spi.Table[9].addr == SPI1_STAT && Spi.Table[11].addr == SPI1_DAT
    ensures Spi.Table[1].name == "SPI1_GLOBAL" && Spi.Table[3].name == "SPI1_CON" && Spi.Table[5].name == "SPI1_FRM"
    ensures Spi.Table[9].name == "SPI1_STAT" && Spi.Table[11].name == "SPI1_DAT"
    ensures PageOf(SPI1_GLOBAL) == PageOf(SPI1_CON) == PageOf(SPI1_FRM) == PageOf(SPI1_STAT) == PageOf(SPI1_DAT) == 0x2008_8000
  {
    Spi.LandmarkNames();
  }

  /**
   * Every register the SPI-NOR driver writes is first matched by an entry
   * that permits writing, and the two it reads by entries that permit reading.
   */
  lemma DriverRegistersPermitted()
    ensures Find(AllRegisters, P2_MUX_CLR, NeedWrite) == Some(Pos(10, 14))
    ensures Find(AllRegisters, P2_DIR_SET, NeedWrite) == Some(Pos(9, 17))
    ensures Find(AllRegisters, P3_OUTP_SET, NeedWrite) == Some(Pos(9, 21))
    ensures Find(AllRegisters, P3_OUTP_CLR, NeedWrite) == Some(Pos(9, 22))
    ensures Find(AllRegisters, SPI_CTRL, NeedWrite) == Some(Pos(0, 26))
    ensures Find(AllRegisters, SPI1_GLOBAL, NeedWrite) == Some(Pos(7, 1))
    ensures Find(AllRegisters, SPI1_CON, NeedWrite) == Some(Pos(7, 3))
    ensures Find(AllRegisters, SPI1_FRM, NeedWrite) == Some(Pos(7, 5))
    ensures Find(AllRegisters, SPI1_STAT, NeedWrite) == Some(Pos(7, 9))
    ensures Find(AllRegisters, SPI1_DAT, NeedWrite) == Some(Pos(7, 11))
    ensures Find(AllRegisters, SPI1_STAT, NeedRead) == Some(Pos(7, 9))
    ensures Find(AllRegisters, SPI1_DAT, NeedRead) == Some(Pos(7, 11))
  {
    PinmuxLandmark(P2_MUX_CLR, NeedWrite);
    GpioLandmark(P2_DIR_SET, NeedWrite);
    GpioLandmark(P3_OUTP_SET, NeedWrite);
    GpioLandmark(P3_OUTP_CLR, NeedWrite);
    SharedClockRegisters(NeedWrite);
    SpiLandmark(SPI1_GLOBAL, NeedWrite);
    SpiLandmark(SPI1_CON, NeedWrite);
    SpiLandmark(SPI1_FRM, NeedWrite);
    SpiLandmark(SPI1_STAT, NeedWrite);
    SpiLandmark(SPI1_DAT, NeedWrite);
    SpiLandmark(SPI1_STAT, NeedRead);
    SpiLandmark(SPI1_DAT, NeedRead);
  }

  /**
   * The chip-select registers are write-only, P2_DIR_SET is write-only with a
   * decoder and P2_DIR_STATE read-only without one.
   */
  lemma GpioDriverRegisters()
    ensures Find(AllRegisters, P3_OUTP_SET, NeedRead) == None
    ensures Find(AllRegisters, P3_OUTP_CLR, NeedRead) == None
    ensures Find(AllRegisters, P2_DIR_SET, NeedRead) == None
    ensures Find(AllRegisters, 0x4002_8018, NeedRead) == Some(Pos(9, 19))
    ensures Find(AllRegisters, 0x4002_8018, NeedWrite) == None
    ensures At(AllRegisters, Pos(9, 17)).hasDecoder && !At(AllRegisters, Pos(9, 19)).hasDecoder
  {
    GpioLandmark(P3_OUTP_SET, NeedRead);
    GpioLandmark(P3_OUTP_CLR, NeedRead);
    GpioLandmark(P2_DIR_SET, NeedRead);
    GpioLandmark(0x4002_8018, NeedRead);
    GpioLandmark(0x4002_8018, NeedWrite);
    Gpio.DirectionDecoders();
  }

  /** UART_CTRL is RW and held by pinmux alone. */
  lemma UartControlOnlyInPinmux(need: Need)
    ensures Find(AllRegisters, 0x4005_4000, need) == Some(Pos(10, 2))
    ensures forall q :: Valid(AllRegisters, q) && At(AllRegisters, q).addr == 0x4005_4000 ==> q == Pos(10, 2)
  {
    PinmuxLandmark(0x4005_4000, need);
    Pinmux.Unique(0x4005_4000);
    Regions();
    forall q | Valid(AllRegisters, q) && At(AllRegisters, q).addr == 0x4005_4000
      ensures q == Pos(10, 2)
    {
      assert InRegion(q.group, 0x4005_4000);
    }
  }

  /** No two sets of the catalog share a name, so a lookup by name finds the one set of that name. */
  lemma SetNamesDistinct()
    ensures |AllRegisters| == 11
    ensures forall s, t :: 0 <= s < |AllRegisters| && 0 <= t < |AllRegisters| && AllRegisters[s].name == AllRegisters[t].name ==> s == t
  {
  }

  /**
   * No catalog address lies in page 0, the page the window base starts at, so
   * the first access to any catalog register always asks for a new mapping.
   */
  lemma NoEntryInPageZero()
    ensures forall p :: Valid(AllRegisters, p) ==> PageOf(At(AllRegisters, p).addr) != 0
  {
    Regions();
    forall p | Valid(AllRegisters, p)
      ensures PageOf(At(AllRegisters, p).addr) != 0
    {
      RegionsAvoidPageZero(p.group, At(AllRegisters, p).addr);
    }
  }

  lemma RegionsAvoidPageZero(s: nat, a: u32)
    requires InRegion(s, a)
    ensures PageOf(a) != 0
  {
  }
}

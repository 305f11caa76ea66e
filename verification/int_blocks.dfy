/**
 * The interrupt-block accumulator of src/interrupt.c, as values: the three
 * six-register blocks (MIC, SIC1, SIC2), which register address fills which
 * slot, when a block is complete, the rows its report prints, and one call
 * of `interrupt_decode_reg` as a function of the blocks before it.
 */
module IntBlocks {
  import opened Word
  import opened Registers

  /** The slots of a block, in `IntRegTypes_e` order. */
  const ER: nat := 0
  const RSR: nat := 1
  const SR: nat := 2
  const APR: nat := 3
  const ATR: nat := 4
  const ITR: nat := 5
  const MAX_REG: nat := 6

  /** `RegRecord_t`: whether the slot has been recorded, and the address and value recorded. */
  datatype RegRecord = RegRecord(isSet: bool, addr: u32, val: u32)

  /** A record after `memset(…, 0, …)`. */
  const Empty := RegRecord(false, 0, 0)
  const Zeros: seq<RegRecord> := [Empty, Empty, Empty, Empty, Empty, Empty]

  datatype BlockId = Mic | Sic1 | Sic2

  /** The address of a block's enable register; its six registers follow one word apart. */
  function Base(b: BlockId): u32
  {
    match b
    case Mic => 0x4000_8000
    case Sic1 => 0x4000_c000
    case Sic2 => 0x4001_0000
  }

  datatype Slot = Slot(block: BlockId, index: nat)

  /** The `switch (addr)` of `interrupt_decode_reg`: the slot an address is recorded in, if any. */
  function Locate(addr: u32): (r: Option<Slot>)
    ensures r.Some? ==> r.value.index < MAX_REG && addr == Base(r.value.block) + 4 * r.value.index
  {
    match addr
    case 0x4000_8000 => Some(Slot(Mic, ER))
    case 0x4000_8004 => Some(Slot(Mic, RSR))
    case 0x4000_8008 => Some(Slot(Mic, SR))
    case 0x4000_800c => Some(Slot(Mic, APR))
    case 0x4000_8010 => Some(Slot(Mic, ATR))
    case 0x4000_8014 => Some(Slot(Mic, ITR))
    case 0x4000_c000 => Some(Slot(Sic1, ER))
    case 0x4000_c004 => Some(Slot(Sic1, RSR))
    case 0x4000_c008 => Some(Slot(Sic1, SR))
    case 0x4000_c00c => Some(Slot(Sic1, APR))
    case 0x4000_c010 => Some(Slot(Sic1, ATR))
    case 0x4000_c014 => Some(Slot(Sic1, ITR))
    case 0x4001_0000 => Some(Slot(Sic2, ER))
    case 0x4001_0004 => Some(Slot(Sic2, RSR))
    case 0x4001_0008 => Some(Slot(Sic2, SR))
    case 0x4001_000c => Some(Slot(Sic2, APR))
    case 0x4001_0010 => Some(Slot(Sic2, ATR))
    case 0x4001_0014 => Some(Slot(Sic2, ITR))
    case _ => None
  }

  /** Every register of every block is recognised, in its own slot. */
  lemma LocateComplete(b: BlockId, k: nat)
    requires k < MAX_REG
    ensures Locate(Base(b) + 4 * k) == Some(Slot(b, k))
  {
    match b
    case Mic =>
      assert Base(b) == 0x4000_8000;
    case Sic1 =>
      assert Base(b) == 0x4000_c000;
    case Sic2 =>
      assert Base(b) == 0x4001_0000;
  }

  /** `get_bit`: '?' past bit 31, otherwise '1' or '0' as `reg & (1 << bitPos)` is non-zero. */
  function GetBit(reg: u32, bitPos: nat): char
  {
    if bitPos > 31 then '?'
    else if And(reg, Shl(1, bitPos)) != 0 then '1'
    else '0'
  }

  lemma GetBitMeaning(reg: u32, bitPos: nat)
    ensures GetBit(reg, bitPos) == '?' <==> bitPos > 31
    ensures bitPos <= 31 ==> (GetBit(reg, bitPos) == '1' <==> Bit(reg, bitPos))
    ensures bitPos <= 31 ==> (GetBit(reg, bitPos) == '0' <==> !Bit(reg, bitPos))
  {
    if bitPos <= 31 {
      assert Pow2(0) == 1;
      ShlPow2(0, bitPos);
      AndPow2(reg, bitPos);
    }
  }

  /** The number of recorded slots, counted front to back. */
  function Count(blk: seq<RegRecord>): (n: nat)
    ensures n <= |blk|
  {
    if blk == [] then 0 else Count(blk[..|blk| - 1]) + (if blk[|blk| - 1].isSet then 1 else 0)
  }

  /** A block is complete when all six of its slots are recorded. */
  predicate Full(blk: seq<RegRecord>)
  {
    Count(blk) == MAX_REG
  }

  lemma {:induction false} CountAll(blk: seq<RegRecord>)
    ensures Count(blk) == |blk| <==> forall k :: 0 <= k < |blk| ==> blk[k].isSet
    decreases |blk|
  {
    if blk != [] {
      var init := blk[..|blk| - 1];
      CountAll(init);
      assert forall k :: 0 <= k < |init| ==> init[k] == blk[k];
    }
  }

  /** Recording a slot changes the count by the change in that one slot. */
  lemma {:induction false} CountUpdate(blk: seq<RegRecord>, k: nat, r: RegRecord)
    requires k < |blk|
    ensures Count(blk[k := r]) + (if blk[k].isSet then 1 else 0) == Count(blk) + (if r.isSet then 1 else 0)
    decreases |blk|
  {
    var last := |blk| - 1;
    var blk' := blk[k := r];
    if k < last {
      assert blk'[..last] == blk[..last][k := r];
      assert blk'[last] == blk[last];
      CountUpdate(blk[..last], k, r);
    } else {
      assert blk'[..last] == blk[..last];
    }
  }

  lemma CountZeros()
    ensures Count(Zeros) == 0
  {
    assert forall k :: 0 <= k <= MAX_REG ==> Zeros[..k] == Zeros[..k];
    assert Count(Zeros[..1]) == 0;
    assert Count(Zeros[..2]) == 0 by { assert Zeros[..2][..1] == Zeros[..1]; }
    assert Count(Zeros[..3]) == 0 by { assert Zeros[..3][..2] == Zeros[..2]; }
    assert Count(Zeros[..4]) == 0 by { assert Zeros[..4][..3] == Zeros[..3]; }
    assert Count(Zeros[..5]) == 0 by { assert Zeros[..5][..4] == Zeros[..4]; }
    assert Zeros[..6] == Zeros;
  }

  /** One printed line of a block report. */
  datatype Line =
    | Legend(addrs: seq<u32>, vals: seq<u32>)   // the six-register legend, printed above bit 31
    | ReservedRow(name: string)                 // a reserved interrupt line: its name only
    | BitRow(name: string, bits: seq<char>)     // bit `bit` of each of the six registers

  /** `strncmp(name_p, "(reserved)", strlen("(reserved)")) == 0`. */
  predicate IsReserved(name: string)
  {
    |name| >= 10 && name[..10] == "(reserved)"
  }

  /** The row of one interrupt line. */
  function Row(name: string, blk: seq<RegRecord>, bit: nat): Line
    requires |blk| == MAX_REG
  {
    if IsReserved(name) then ReservedRow(name)
    else BitRow(name, seq(MAX_REG, k requires 0 <= k < MAX_REG => GetBit(blk[k].val, bit)))
  }

  /** The bits a row shows are bit `bit` of each of the six recorded values, in slot order. */
  lemma RowShowsBits(name: string, blk: seq<RegRecord>, bit: nat)
    requires |blk| == MAX_REG && bit <= 31 && !IsReserved(name)
    ensures Row(name, blk, bit).BitRow? && |Row(name, blk, bit).bits| == MAX_REG
    ensures forall k :: 0 <= k < MAX_REG ==> (Row(name, blk, bit).bits[k] == '1' <==> Bit(blk[k].val, bit))
    ensures forall k :: 0 <= k < MAX_REG ==> (Row(name, blk, bit).bits[k] == '0' <==> !Bit(blk[k].val, bit))
  {
    forall k | 0 <= k < MAX_REG
      ensures Row(name, blk, bit).bits[k] == GetBit(blk[k].val, bit)
    {
    }
    forall k | 0 <= k < MAX_REG
      ensures GetBit(blk[k].val, bit) == '1' <==> Bit(blk[k].val, bit)
      ensures GetBit(blk[k].val, bit) == '0' <==> !Bit(blk[k].val, bit)
    {
      GetBitMeaning(blk[k].val, bit);
    }
  }

  /** `print_block_row`: nothing for a NULL name, a NULL block or a bit past 31; the legend before bit 31. */
  function PrintBlockRow(name: Option<string>, blk: Option<seq<RegRecord>>, bit: nat): (r: seq<Line>)
    requires blk.Some? ==> |blk.value| == MAX_REG
  {
    if name.None? || blk.None? || bit > 31 then []
    else
      var b := blk.value;
      (if bit == 31
       then [Legend(seq(MAX_REG, k requires 0 <= k < MAX_REG => b[k].addr), seq(MAX_REG, k requires 0 <= k < MAX_REG => b[k].val))]
       else [])
      + [Row(name.value, b, bit)]
  }

  lemma PrintBlockRowCases(name: Option<string>, blk: Option<seq<RegRecord>>, bit: nat)
    requires blk.Some? ==> |blk.value| == MAX_REG
    ensures PrintBlockRow(name, blk, bit) == [] <==> name.None? || blk.None? || bit > 31
    ensures name.Some? && blk.Some? && bit < 31 ==> PrintBlockRow(name, blk, bit) == [Row(name.value, blk.value, bit)]
    ensures name.Some? && blk.Some? && bit == 31 ==>
      |PrintBlockRow(name, blk, bit)| == 2 && PrintBlockRow(name, blk, bit)[0].Legend?
      && PrintBlockRow(name, blk, bit)[1] == Row(name.value, blk.value, bit)
  {
  }

  /** The rows of bits i down to 0, as the `process_*_block` loops print them. */
  function RowsDown(names: seq<string>, blk: seq<RegRecord>, i: int): seq<Line>
    requires |names| == 32 && |blk| == MAX_REG && i < 32
    decreases i + 1
  {
    if i < 0 then [] else PrintBlockRow(Some(names[i]), Some(blk), i) + RowsDown(names, blk, i - 1)
  }

  lemma RowsDownStep(names: seq<string>, blk: seq<RegRecord>, i: int)
    requires |names| == 32 && |blk| == MAX_REG && 0 <= i < 32
    ensures RowsDown(names, blk, i) == PrintBlockRow(Some(names[i]), Some(blk), i) + RowsDown(names, blk, i - 1)
  {
  }

  lemma LinesAssoc(a: seq<Line>, b: seq<Line>, c: seq<Line>)
    ensures a + (b + c) == (a + b) + c
  {
  }

  /** The report of one complete block. */
  function BlockText(names: seq<string>, blk: seq<RegRecord>): seq<Line>
    requires |names| == 32 && |blk| == MAX_REG
  {
    RowsDown(names, blk, 31)
  }

  lemma {:induction false} RowsDownOrder(names: seq<string>, blk: seq<RegRecord>, i: int)
    requires |names| == 32 && |blk| == MAX_REG && -1 <= i <= 30
    ensures |RowsDown(names, blk, i)| == i + 1
    ensures forall b :: 0 <= b <= i ==> RowsDown(names, blk, i)[i - b] == Row(names[b], blk, b)
    decreases i + 1
  {
    if i >= 0 {
      RowsDownOrder(names, blk, i - 1);
      var rest := RowsDown(names, blk, i - 1);
      assert RowsDown(names, blk, i) == [Row(names[i], blk, i)] + rest;
      forall b | 0 <= b <= i
        ensures RowsDown(names, blk, i)[i - b] == Row(names[b], blk, b)
      {
        if b < i {
          assert RowsDown(names, blk, i)[i - b] == rest[i - 1 - b];
        }
      }
    }
  }

  /**
   * A block report is the legend, then one row per interrupt line from bit
   * 31 down to bit 0: the row of bit b is line 32 - b.
   */
  lemma BlockTextOrder(names: seq<string>, blk: seq<RegRecord>)
    requires |names| == 32 && |blk| == MAX_REG
    ensures |BlockText(names, blk)| == 33
    ensures BlockText(names, blk)[0].Legend? && |BlockText(names, blk)[0].addrs| == MAX_REG
    ensures forall k :: 0 <= k < MAX_REG ==>
      BlockText(names, blk)[0].addrs[k] == blk[k].addr && BlockText(names, blk)[0].vals[k] == blk[k].val
    ensures forall b :: 0 <= b < 32 ==> BlockText(names, blk)[32 - b] == Row(names[b], blk, b)
  {
    var h, rest := PrintBlockRow(Some(names[31]), Some(blk), 31), RowsDown(names, blk, 30);
    RowsDownOrder(names, blk, 30);
    TopRow(names[31], blk);
    var t := BlockText(names, blk);
    assert t == h + rest;
    assert t[0] == h[0] && t[1] == h[1];
    forall b | 0 <= b < 31
      ensures t[32 - b] == Row(names[b], blk, b)
    {
      var j := 32 - b;
      assert t[j] == rest[j - 2];
      assert j - 2 == 30 - b;
    }
  }

  /** Bit 31 is printed under the legend. */
  lemma TopRow(name: string, blk: seq<RegRecord>)
    requires |blk| == MAX_REG
    ensures |PrintBlockRow(Some(name), Some(blk), 31)| == 2
    ensures PrintBlockRow(Some(name), Some(blk), 31)[0].Legend?
    ensures |PrintBlockRow(Some(name), Some(blk), 31)[0].addrs| == MAX_REG
    ensures forall k :: 0 <= k < MAX_REG ==>
      PrintBlockRow(Some(name), Some(blk), 31)[0].addrs[k] == blk[k].addr
      && PrintBlockRow(Some(name), Some(blk), 31)[0].vals[k] == blk[k].val
    ensures PrintBlockRow(Some(name), Some(blk), 31)[1] == Row(name, blk, 31)
  {
  }

  /** `MicBlockNames`, bit 0 first. */
  const MicNames: seq<string> := [
    "sub1IRQn", "sub2IRQn", "(reserved)", "Timer4/MCPWM", "Timer5",
    "HSTIMER_INT", "WATCH_INT", "UART3", "UART4", "UART5",
    "UART6", "FLASH_INT", "(reserved)", "SD1_INT", "LCD_INT",
    "SD0_INT", "Timer0", "Timer1", "Timer2", "Timer3",
    "SSP0", "SSP1", "I2S0", "I2S1", "UART7",
    "UART2", "UART1", "MSTIMER_INT", "DMA_INT", "ethernet",
    "sub1FIQn", "sub2FIQn"]

  /** `Sic1BlockNames`, bit 0 first. */
  const Sic1Names: seq<string> := [
    "(reserved)", "JTAG_COMM_TX", "JTAG_COMM_RX", "(reserved)", "GPI_28",
    "(reserved)", "TS_P", "TS_IRQ(ADC_INT)", "TS_AUX", "(reserved)",
    "(reserved)", "(reserved)", "SPI2_INT", "PLLUSB_INT", "PLLHCLK_INT",
    "(reserved)", "(reserved)", "PLL397_INT", "I2C2_INT", "I2C1_INT",
    "RTC_INT", "(reserved)", "KEY_IRQ", "SPI1_INT", "SW_INT",
    "USB_otg_timer_int", "USB_otg_atx_int_n", "USB_host_int", "USB_dev_dma_int", "USB_dev_lp_int",
    "USB_dev_hp_int", "USB_i2c_int"]

  /** `Sic2BlockNames`, bit 0 first. */
  const Sic2Names: seq<string> := [
    "GPIO_0", "GPIO_1", "GPIO_2", "GPIO_3", "GPIO_4",
    "GPIO_5", "SPI2_DATIN", "UART2_HCTS", "Pn_GPIO", "GPI_8",
    "GPI_9", "GPI_19", "UART7_HCTS", "(reserved)", "(reserved)",
    "GPI_7", "(reserved)", "(reserved)", "SDIO_INT_N", "UART5_RX",
    "SPI1_DATIN", "(reserved)", "GPI_0", "GPI_1", "GPI_2",
    "GPI_3", "GPI_4", "GPI_5", "GPI_6", "(reserved)",
    "(reserved)", "SYSCLK mux"]

  function Names(b: BlockId): (names: seq<string>)
    ensures |names| == 32
  {
    match b
    case Mic => MicNames
    case Sic1 => Sic1Names
    case Sic2 => Sic2Names
  }

  /** The contents of the three blocks. */
  datatype Blocks = Blocks(mic: seq<RegRecord>, sic1: seq<RegRecord>, sic2: seq<RegRecord>)
  {
    function Get(b: BlockId): seq<RegRecord>
    {
      match b
      case Mic => mic
      case Sic1 => sic1
      case Sic2 => sic2
    }

    function Put(b: BlockId, blk: seq<RegRecord>): (r: Blocks)
      ensures r.Get(b) == blk
      ensures forall c :: c != b ==> r.Get(c) == Get(c)
    {
      match b
      case Mic => this.(mic := blk)
      case Sic1 => this.(sic1 := blk)
      case Sic2 => this.(sic2 := blk)
    }

    predicate Shaped()
    {
      |mic| == MAX_REG && |sic1| == MAX_REG && |sic2| == MAX_REG
    }

    /** The invariant between calls: no block is complete. */
    predicate NoneFull()
    {
      Shaped() && !Full(mic) && !Full(sic1) && !Full(sic2)
    }
  }

  const Cleared := Blocks(Zeros, Zeros, Zeros)

  /** The blocks after a call, the blocks it reported (in order) and the lines of those reports. */
  datatype Outcome = Outcome(blocks: Blocks, flushed: seq<BlockId>, out: seq<Line>)

  /** The count-and-flush step for one block: a complete block is reported, then cleared. */
  function Settle(o: Outcome, b: BlockId): (r: Outcome)
    requires o.blocks.Shaped()
    ensures r.blocks.Shaped()
  {
    var blk := o.blocks.Get(b);
    if Full(blk) then Outcome(o.blocks.Put(b, Zeros), o.flushed + [b], o.out + BlockText(Names(b), blk))
    else o
  }

  /** The blocks as the call sees them after its first-call clearing. */
  function Start(first: bool, s: Blocks): Blocks
  {
    if first then Cleared else s
  }

  /**
   * One call of `interrupt_decode_reg(addr, val)`, `first` being the static
   * `init` flag: clear everything on the first call, ignore an unknown
   * address, otherwise record the slot and then count, report and clear
   * MIC, SIC1 and SIC2 in turn.
   */
  function Decode(first: bool, s: Blocks, addr: u32, val: u32): Outcome
    requires s.Shaped()
  {
    var s0 := Start(first, s);
    match Locate(addr)
    case None => Outcome(s0, [], [])
    case Some(slot) => Fill(s0, slot, RegRecord(true, addr, val))
  }

  /** Store a record in its slot, then count, report and clear MIC, SIC1 and SIC2 in turn. */
  function Fill(s0: Blocks, slot: Slot, rec: RegRecord): Outcome
    requires s0.Shaped() && slot.index < MAX_REG
  {
    var s1 := s0.Put(slot.block, s0.Get(slot.block)[slot.index := rec]);
    Settle(Settle(Settle(Outcome(s1, [], []), Mic), Sic1), Sic2)
  }

  lemma ClearedNoneFull()
    ensures Cleared.NoneFull()
  {
    CountZeros();
  }

  lemma SettleNotFull(o: Outcome, b: BlockId)
    requires o.blocks.Shaped() && !Full(o.blocks.Get(b))
    ensures Settle(o, b) == o
  {
  }

  /** An address outside the three blocks changes nothing beyond the first-call clearing and reports nothing. */
  lemma DecodeUnknown(first: bool, s: Blocks, addr: u32, val: u32)
    requires s.Shaped() && Locate(addr).None?
    ensures Decode(first, s, addr, val) == Outcome(Start(first, s), [], [])
  {
  }

  /**
   * A recognised address fills its own slot. Its block is reported and
   * cleared exactly when that makes all six slots recorded; otherwise the
   * block keeps the new record. The other two blocks are left alone and
   * nothing else is reported.
   */
  lemma DecodeRecord(first: bool, s: Blocks, addr: u32, val: u32)
    requires (first && s.Shaped()) || s.NoneFull()
    requires Locate(addr).Some?
    ensures var slot := Locate(addr).value;
      var s0 := Start(first, s);
      var blk := s0.Get(slot.block)[slot.index := RegRecord(true, addr, val)];
      var r := Decode(first, s, addr, val);
      && (forall c :: c != slot.block ==> r.blocks.Get(c) == s0.Get(c))
      && (Full(blk) ==> r.blocks.Get(slot.block) == Zeros && r.flushed == [slot.block]
                        && r.out == BlockText(Names(slot.block), blk))
      && (!Full(blk) ==> r.blocks.Get(slot.block) == blk && r.flushed == [] && r.out == [])
  {
    if first {
      ClearedNoneFull();
    }
    FillEffect(Start(first, s), Locate(addr).value, RegRecord(true, addr, val));
  }

  lemma FillEffect(s0: Blocks, slot: Slot, rec: RegRecord)
    requires s0.NoneFull() && slot.index < MAX_REG
    ensures var blk := s0.Get(slot.block)[slot.index := rec];
      var r := Fill(s0, slot, rec);
      && (forall c :: c != slot.block ==> r.blocks.Get(c) == s0.Get(c))
      && (Full(blk) ==> r.blocks.Get(slot.block) == Zeros && r.flushed == [slot.block]
                        && r.out == BlockText(Names(slot.block), blk))
      && (!Full(blk) ==> r.blocks.Get(slot.block) == blk && r.flushed == [] && r.out == [])
  {
    var blk := s0.Get(slot.block)[slot.index := rec];
    var o := Outcome(s0.Put(slot.block, blk), [], []);
    match slot.block
    case Mic =>
      SettleNotFull(Settle(o, Mic), Sic1);
      SettleNotFull(Settle(o, Mic), Sic2);
    case Sic1 =>
      SettleNotFull(o, Mic);
      SettleNotFull(o, Sic2);
    case Sic2 =>
      SettleNotFull(o, Mic);
      SettleNotFull(o, Sic1);
  }

  /**
   * The invariant of the static blocks: after every call no block is
   * complete, and at most one block, the one just written, was reported.
   */
  lemma DecodeKeepsNoneFull(first: bool, s: Blocks, addr: u32, val: u32)
    requires (first && s.Shaped()) || s.NoneFull()
    ensures Decode(first, s, addr, val).blocks.NoneFull()
    ensures |Decode(first, s, addr, val).flushed| <= 1
    ensures Decode(first, s, addr, val).flushed != [] ==>
      Locate(addr).Some? && Decode(first, s, addr, val).flushed == [Locate(addr).value.block]
  {
    if first {
      ClearedNoneFull();
    }
    var s0 := Start(first, s);
    match Locate(addr)
    case None =>
    case Some(slot) =>
      FillKeepsNoneFull(s0, slot, RegRecord(true, addr, val));
  }

  lemma FillKeepsNoneFull(s0: Blocks, slot: Slot, rec: RegRecord)
    requires s0.NoneFull() && slot.index < MAX_REG
    ensures Fill(s0, slot, rec).blocks.NoneFull()
    ensures Fill(s0, slot, rec).flushed == [] || Fill(s0, slot, rec).flushed == [slot.block]
  {
    FillEffect(s0, slot, rec);
    CountZeros();
  }

  /** Recording a slot that is already recorded only replaces its value: the count stays and nothing is reported. */
  lemma DecodeRerecord(s: Blocks, addr: u32, val: u32)
    requires s.NoneFull() && Locate(addr).Some?
    requires s.Get(Locate(addr).value.block)[Locate(addr).value.index].isSet
    ensures var slot := Locate(addr).value;
      var r := Decode(false, s, addr, val);
      && r.flushed == []
      && Count(r.blocks.Get(slot.block)) == Count(s.Get(slot.block))
      && r.blocks.Get(slot.block)[slot.index] == RegRecord(true, addr, val)
  {
    var slot := Locate(addr).value;
    var blk := s.Get(slot.block);
    CountUpdate(blk, slot.index, RegRecord(true, addr, val));
    DecodeRecord(false, s, addr, val);
  }

  /** A block is reported exactly when the call records its last unrecorded slot. */
  lemma DecodeCompletes(s: Blocks, addr: u32, val: u32)
    requires s.NoneFull() && Locate(addr).Some?
    ensures var slot := Locate(addr).value;
      var blk := s.Get(slot.block);
      Decode(false, s, addr, val).flushed == [slot.block]
      <==> !blk[slot.index].isSet && Count(blk) == MAX_REG - 1
  {
    var slot := Locate(addr).value;
    var blk := s.Get(slot.block);
    CountUpdate(blk, slot.index, RegRecord(true, addr, val));
    DecodeRecord(false, s, addr, val);
  }
}

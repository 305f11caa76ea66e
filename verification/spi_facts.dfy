/**
 * Facts about what the SPI-NOR driver puts on the bus: the fast-read command
 * carries the low 24 bits of the address high byte first, the JEDEC ID
 * query is a fixed thirteen-operation exchange, and every register the driver
 * touches passes the permission checks of `lpc32x0__get_reg` and
 * `lpc32x0__set_reg` against the register catalog.
 */
module SpiFacts {
  import opened Word
  import opened Registers
  import Catalog
  import CatalogFacts
  import opened SpiOps

  /** The fast-read command: opcode 0x0b, bits 23..0 of the address high byte first, one dummy byte. */
  lemma CommandBytes(addr: u32)
    ensures |Command(addr)| == 5 && Command(addr)[0] == 0x0b && Command(addr)[4] == 0
    ensures Command(addr)[1] == (addr / 0x1_0000) % 0x100
    ensures Command(addr)[2] == (addr / 0x100) % 0x100
    ensures Command(addr)[3] == addr % 0x100
    ensures Command(addr)[1] as int * 0x1_0000 + Command(addr)[2] as int * 0x100 + Command(addr)[3] as int == addr % 0x100_0000
  {
    ByteFields(addr);
    ByteSum(addr as nat);
  }

  /** The three byte extractions of `spi_readflash` as divisions and remainders. */
  lemma ByteFields(addr: u32)
    ensures And(Shr(addr, 16), 0xff) as int == (addr / 0x1_0000) % 0x100
    ensures And(Shr(addr, 8), 0xff) as int == (addr / 0x100) % 0x100
    ensures And(addr, 0xff) as int == addr % 0x100
  {
    assert Pow2(8) == 0x100;
    assert Pow2(16) == 0x1_0000;
    ShrDiv(addr, 16);
    ShrDiv(addr, 8);
    AndLowByte(Shr(addr, 16));
    AndLowByte(Shr(addr, 8));
    AndLowByte(addr);
  }

  /** Bytes 2, 1 and 0 of a number, weighted back, give its low 24 bits. */
  lemma ByteSum(x: nat)
    ensures ((x / 0x1_0000) % 0x100) * 0x1_0000 + ((x / 0x100) % 0x100) * 0x100 + x % 0x100 == x % 0x100_0000
  {
    var lo := x % 0x1_0000;
    var hi := x / 0x1_0000;
    MidByte(x);
    assert lo == 0x100 * (lo / 0x100) + x % 0x100;
    assert hi == 0x100 * (hi / 0x100) + hi % 0x100;
    assert x == 0x100_0000 * (hi / 0x100) + (0x1_0000 * (hi % 0x100) + lo);
    DivOfSum(0x100_0000, hi / 0x100, 0x1_0000 * (hi % 0x100) + lo);
  }

  lemma MidByte(x: nat)
    ensures (x / 0x100) % 0x100 == (x % 0x1_0000) / 0x100
  {
    var lo := x % 0x1_0000;
    assert x == 0x1_0000 * (x / 0x1_0000) + lo;
    assert lo == 0x100 * (lo / 0x100) + x % 0x100;
    assert x / 0x100 == 0x100 * (x / 0x1_0000) + lo / 0x100 by {
      DivOfSum(0x100, 0x100 * (x / 0x1_0000) + lo / 0x100, x % 0x100);
    }
    DivOfSum(0x100, x / 0x1_0000, lo / 0x100);
  }

  /** The transmit of one frame of up to 65535 bytes: CON, its length, its bytes, the interrupt clear. */
  lemma TxOpsOneFrame(data: seq<u8>)
    requires 0 < |data| <= MAX_FRAME
    ensures TxOps(data) == [Wr(SPI1_CON, CON_TX), Wr(SPI1_FRM, |data|)] + DatWrites(data) + [Wr(SPI1_STAT, INT_CLR)]
  {
    TxFramesOne(data);
    assert TxOps(data) == [Wr(SPI1_CON, CON_TX)] + TxFrames(data);
    Prepend(Wr(SPI1_CON, CON_TX), Wr(SPI1_FRM, |data|), DatWrites(data), [Wr(SPI1_STAT, INT_CLR)]);
  }

  lemma Prepend(a: Op, b: Op, w: seq<Op>, c: seq<Op>)
    ensures [a] + ([b] + w + c) == [a, b] + w + c
  {
    assert [a, b] == [a] + [b];
  }

  lemma TxFramesOne(data: seq<u8>)
    requires 0 < |data| <= MAX_FRAME
    ensures TxFrames(data) == [Wr(SPI1_FRM, |data|)] + DatWrites(data) + [Wr(SPI1_STAT, INT_CLR)]
  {
    var f := FrameLen(|data|);
    assert data[..f] == data;
    assert TxFrames(data[f..]) == [];
  }

  /** `spi_getid` with the polls set aside, operation by operation. */
  lemma GetidBus(dat: Stream, i: nat)
    ensures GetidOps(dat, i) == [
      Wr(P3_OUTP_CLR, CS_PIN),
      Wr(SPI1_CON, CON_TX), Wr(SPI1_FRM, 1), Wr(SPI1_DAT, 0x9f), Wr(SPI1_STAT, INT_CLR),
      Wr(SPI1_CON, CON_RX), Wr(SPI1_FRM, 3),
      Rd(SPI1_DAT, At(dat, i)), Rd(SPI1_DAT, At(dat, i + 1)), Rd(SPI1_DAT, At(dat, i + 2)), Rd(SPI1_DAT, At(dat, i + 3)),
      Wr(SPI1_STAT, INT_CLR),
      Wr(P3_OUTP_SET, CS_PIN)]
  {
    var tx := [Wr(SPI1_CON, CON_TX), Wr(SPI1_FRM, 1), Wr(SPI1_DAT, 0x9f), Wr(SPI1_STAT, INT_CLR)];
    var rx := [Wr(SPI1_CON, CON_RX), Wr(SPI1_FRM, 3),
      Rd(SPI1_DAT, At(dat, i)), Rd(SPI1_DAT, At(dat, i + 1)), Rd(SPI1_DAT, At(dat, i + 2)), Rd(SPI1_DAT, At(dat, i + 3)),
      Wr(SPI1_STAT, INT_CLR)];
    TxReadId();
    RxOpsThree(dat, i);
    assert GetidOps(dat, i) == Session(tx, rx);
  }

  lemma TxReadId()
    ensures TxOps([READ_ID]) == [Wr(SPI1_CON, CON_TX), Wr(SPI1_FRM, 1), Wr(SPI1_DAT, 0x9f), Wr(SPI1_STAT, INT_CLR)]
  {
    TxOpsOneFrame([READ_ID]);
    assert DatWrites([READ_ID]) == [Wr(SPI1_DAT, 0x9f)] by {
      assert [READ_ID][..0] == [];
    }
  }

  lemma RxOpsThree(dat: Stream, i: nat)
    ensures RxOps(dat, 3, i) == [Wr(SPI1_CON, CON_RX), Wr(SPI1_FRM, 3),
      Rd(SPI1_DAT, At(dat, i)), Rd(SPI1_DAT, At(dat, i + 1)), Rd(SPI1_DAT, At(dat, i + 2)), Rd(SPI1_DAT, At(dat, i + 3)),
      Wr(SPI1_STAT, INT_CLR)]
  {
    var r1, r2, r3 := Rd(SPI1_DAT, At(dat, i + 1)), Rd(SPI1_DAT, At(dat, i + 2)), Rd(SPI1_DAT, At(dat, i + 3));
    assert DatReads(dat, i + 1, 1) == [r1];
    assert DatReads(dat, i + 1, 2) == [r1, r2];
    assert DatReads(dat, i + 1, 3) == [r1, r2, r3];
    assert RxFrames(dat, 3, i) == [Wr(SPI1_FRM, 3), Rd(SPI1_DAT, At(dat, i))] + [r1, r2, r3] + [Wr(SPI1_STAT, INT_CLR)]
      + RxFrames(dat, 0, i + 4);
  }

  /** An operation on a register the driver names: the chip-select, pin set-up, clock and SPI1 registers. */
  predicate DriverOp(op: Op)
  {
    match op
    case Wr(a, _) =>
      a == P2_MUX_CLR || a == P2_DIR_SET || a == P3_OUTP_SET || a == P3_OUTP_CLR || a == SPI_CTRL
      || a == SPI1_GLOBAL || a == SPI1_CON || a == SPI1_FRM || a == SPI1_STAT || a == SPI1_DAT
    case Rd(a, _) => a == SPI1_STAT || a == SPI1_DAT
  }

  predicate AllDriver(t: seq<Op>)
  {
    forall k :: 0 <= k < |t| ==> DriverOp(t[k])
  }

  /** The operation passes the permission check of `lpc32x0__set_reg` (a write) or `lpc32x0__get_reg` (a read). */
  predicate Permitted(op: Op)
  {
    Catalog.Find(Catalog.AllRegisters, op.addr, if op.Wr? then Catalog.NeedWrite else Catalog.NeedRead).Some?
  }

  lemma DriverOpPermitted(op: Op)
    requires DriverOp(op)
    ensures Permitted(op)
  {
    CatalogFacts.DriverRegistersPermitted();
  }

  lemma AllDriverAppend(a: seq<Op>, b: seq<Op>)
    requires AllDriver(a) && AllDriver(b)
    ensures AllDriver(a + b)
  {
    forall k | 0 <= k < |a + b|
      ensures DriverOp((a + b)[k])
    {
      if k >= |a| {
        assert (a + b)[k] == b[k - |a|];
      }
    }
  }

  lemma {:induction false} DatWritesDriver(b: seq<u8>)
    ensures AllDriver(DatWrites(b))
    decreases |b|
  {
    if b != [] {
      DatWritesDriver(b[..|b| - 1]);
      AllDriverAppend(DatWrites(b[..|b| - 1]), [Wr(SPI1_DAT, b[|b| - 1])]);
    }
  }

  lemma {:induction false} TxFramesDriver(data: seq<u8>)
    ensures AllDriver(TxFrames(data))
    decreases |data|
  {
    if data != [] {
      var f := FrameLen(|data|);
      DatWritesDriver(data[..f]);
      TxFramesDriver(data[f..]);
      AllDriverAppend([Wr(SPI1_FRM, f)], DatWrites(data[..f]));
      AllDriverAppend([Wr(SPI1_FRM, f)] + DatWrites(data[..f]), [Wr(SPI1_STAT, INT_CLR)]);
      AllDriverAppend([Wr(SPI1_FRM, f)] + DatWrites(data[..f]) + [Wr(SPI1_STAT, INT_CLR)], TxFrames(data[f..]));
    }
  }

  lemma {:induction false} DatReadsDriver(dat: Stream, i: nat, n: nat)
    ensures AllDriver(DatReads(dat, i, n))
    decreases n
  {
    if n > 0 {
      DatReadsDriver(dat, i, n - 1);
      AllDriverAppend(DatReads(dat, i, n - 1), [Rd(SPI1_DAT, At(dat, i + n - 1))]);
    }
  }

  lemma {:induction false} RxFramesDriver(dat: Stream, len: nat, i: nat)
    ensures AllDriver(RxFrames(dat, len, i))
    decreases len
  {
    if len > 0 {
      var f := FrameLen(len);
      var head := [Wr(SPI1_FRM, f), Rd(SPI1_DAT, At(dat, i))];
      DatReadsDriver(dat, i + 1, f);
      RxFramesDriver(dat, len - f, i + 1 + f);
      AllDriverAppend(head, DatReads(dat, i + 1, f));
      AllDriverAppend(head + DatReads(dat, i + 1, f), [Wr(SPI1_STAT, INT_CLR)]);
      AllDriverAppend(head + DatReads(dat, i + 1, f) + [Wr(SPI1_STAT, INT_CLR)], RxFrames(dat, len - f, i + 1 + f));
    }
  }

  lemma TxOpsDriver(data: seq<u8>)
    ensures AllDriver(TxOps(data))
  {
    TxFramesDriver(data);
    AllDriverAppend([Wr(SPI1_CON, CON_TX)], TxFrames(data));
  }

  lemma RxOpsDriver(dat: Stream, len: nat, i: nat)
    ensures AllDriver(RxOps(dat, len, i))
  {
    RxFramesDriver(dat, len, i);
    AllDriverAppend([Wr(SPI1_CON, CON_RX)], RxFrames(dat, len, i));
  }

  lemma SessionDriver(tx: seq<Op>, rx: seq<Op>)
    requires AllDriver(tx) && AllDriver(rx)
    ensures AllDriver(Session(tx, rx))
  {
    AllDriverAppend([Wr(P3_OUTP_CLR, CS_PIN)], tx);
    AllDriverAppend([Wr(P3_OUTP_CLR, CS_PIN)] + tx, rx);
    AllDriverAppend([Wr(P3_OUTP_CLR, CS_PIN)] + tx + rx, [Wr(P3_OUTP_SET, CS_PIN)]);
  }

  /** The status polls and shift-off rewrites a trace loses in `Quiet` are driver operations too. */
  lemma {:induction false} QuietDriver(t: seq<Op>)
    requires AllDriver(Quiet(t))
    ensures AllDriver(t)
    decreases |t|
  {
    if t != [] {
      var init, last := t[..|t| - 1], t[|t| - 1];
      assert t == init + [last];
      QuietAppend(init, [last]);
      QuietOne(last);
      assert AllDriver(Quiet(init)) by {
        forall k | 0 <= k < |Quiet(init)|
          ensures DriverOp(Quiet(init)[k])
        {
          assert Quiet(t)[k] == Quiet(init)[k];
        }
      }
      QuietDriver(init);
      if !Polling(last) {
        assert Quiet(t)[|Quiet(t)| - 1] == last;
      }
      AllDriverAppend(init, [last]);
    }
  }

  /** `spi_init` writes only registers whose first catalog match allows writing. */
  lemma InitPermitted()
    ensures forall k :: 0 <= k < |InitOps| ==> Permitted(InitOps[k])
  {
    forall k | 0 <= k < |InitOps|
      ensures Permitted(InitOps[k])
    {
      DriverOpPermitted(InitOps[k]);
    }
  }

  /** Whatever the status answers, `spi_tx` touches only driver registers. */
  lemma TxDriverOnly(data: seq<u8>, t: seq<Op>)
    requires Quiet(t) == TxOps(data)
    ensures AllDriver(t)
  {
    TxOpsDriver(data);
    QuietDriver(t);
  }

  /** Whatever the status answers, `spi_rx` touches only driver registers. */
  lemma RxDriverOnly(dat: Stream, len: nat, i: nat, t: seq<Op>)
    requires Quiet(t) == RxOps(dat, len, i)
    ensures AllDriver(t)
  {
    RxOpsDriver(dat, len, i);
    QuietDriver(t);
  }

  /** Whatever the status answers, `spi_readflash` touches only driver registers. */
  lemma ReadflashDriverOnly(dat: Stream, addr: u32, len: nat, i: nat, t: seq<Op>)
    requires Quiet(t) == ReadflashOps(dat, addr, len, i)
    ensures AllDriver(t)
  {
    if len > 0 {
      TxOpsDriver(Command(addr));
      RxOpsDriver(dat, len, i);
      SessionDriver(TxOps(Command(addr)), RxOps(dat, len, i));
    }
    QuietDriver(t);
  }

  /** Whatever the status answers, `spi_getid` touches only driver registers. */
  lemma GetidDriverOnly(dat: Stream, i: nat, t: seq<Op>)
    requires Quiet(t) == GetidOps(dat, i)
    ensures AllDriver(t)
  {
    TxOpsDriver([READ_ID]);
    RxOpsDriver(dat, 3, i);
    SessionDriver(TxOps([READ_ID]), RxOps(dat, 3, i));
    QuietDriver(t);
  }
}

/**
 * The SPI-NOR driver of src/lpc32x0-spi.c as a state machine over the
 * register bus. Every register access goes through SetReg, GetStat or
 * GetDat and is recorded in `trace`. What the hardware answers is given by
 * two oracles: `At(stat, n)` is the word the n-th SPI1_STAT read returns and
 * `At(dat, n)` the word the n-th SPI1_DAT read returns.
 */
module SpiNor {
  import opened Word
  import opened Registers
  import opened SpiOps

  class Driver {
    const stat: Stream
    const dat: Stream
    /** How many SPI1_STAT and SPI1_DAT reads have been made so far. */
    var statReads: nat
    var datReads: nat
    /** Every register access so far, in order. */
    var trace: seq<Op>
    /** `buf_G`, the driver's 256-byte receive buffer. */
    const buf: array<u8>

    constructor (stat: Stream, dat: Stream)
      ensures this.stat == stat && this.dat == dat
      ensures statReads == 0 && datReads == 0 && trace == []
      ensures fresh(buf) && buf.Length == 256
      ensures forall k :: 0 <= k < buf.Length ==> buf[k] == 0
    {
      this.stat := stat;
      this.dat := dat;
      statReads, datReads, trace := 0, 0, [];
      buf := new u8[256](_ => 0);
    }

    /** Some status read from the n-th on shows the bits of `mask` (`on`) or shows none of them. */
    ghost predicate Eventually(n: nat, mask: u32, on: bool)
    {
      exists m :: n <= m && Shows(At(stat, m), mask) == on
    }

    /**
     * The hardware never stalls for good: whatever has been read so far, the
     * transmit FIFO will show not-full and the receive FIFO both empty and
     * not-empty again.
     */
    ghost predicate Fair()
    {
      forall n :: Eventually(n, 4, false) && Eventually(n, 1, true) && Eventually(n, 1, false)
    }

    /** `lpc32x0__set_reg` on the bus. */
    method SetReg(addr: u32, val: u32)
      modifies this`trace
      ensures trace == old(trace) + [Wr(addr, val)]
    {
      trace := trace + [Wr(addr, val)];
    }

    /** `lpc32x0__get_reg(SPI1_STAT, &val)`: the next status word. */
    method GetStat() returns (val: u32)
      modifies this`trace, this`statReads
      ensures val == At(stat, old(statReads)) && statReads == old(statReads) + 1
      ensures trace == old(trace) + [Rd(SPI1_STAT, val)]
    {
      val := At(stat, statReads);
      statReads := statReads + 1;
      trace := trace + [Rd(SPI1_STAT, val)];
    }

    /** `lpc32x0__get_reg(SPI1_DAT, &val)`: the next data word. */
    method GetDat() returns (val: u32)
      modifies this`trace, this`datReads
      ensures val == At(dat, old(datReads)) && datReads == old(datReads) + 1
      ensures trace == old(trace) + [Rd(SPI1_DAT, val)]
    {
      val := At(dat, datReads);
      datReads := datReads + 1;
      trace := trace + [Rd(SPI1_DAT, val)];
    }

    /**
     * Read the status, then read it again for as long as the bits of `mask`
     * do not show as `until` asks. The result is the first status word that
     * does; every earlier one did not.
     */
    method Poll(mask: u32, until: bool) returns (val: u32)
      requires Eventually(statReads, mask, until)
      modifies this`trace, this`statReads
      ensures old(statReads) < statReads
      ensures val == At(stat, statReads - 1) && Shows(val, mask) == until
      ensures forall m :: old(statReads) <= m < statReads - 1 ==> Shows(At(stat, m), mask) != until
      ensures trace == old(trace) + StatReads(stat, old(statReads), statReads)
    {
      ghost var target :| statReads <= target && Shows(At(stat, target), mask) == until;
      ghost var s0, t0 := statReads, trace;
      val := GetStat();
      while Shows(val, mask) != until
        invariant s0 < statReads <= target + 1
        invariant val == At(stat, statReads - 1)
        invariant forall m :: s0 <= m < statReads - 1 ==> Shows(At(stat, m), mask) != until
        invariant trace == t0 + StatReads(stat, s0, statReads)
        decreases target + 1 - statReads
      {
        StatReadsSnoc(stat, s0, statReads);
        Assoc(t0, StatReads(stat, s0, statReads), [Rd(SPI1_STAT, At(stat, statReads))]);
        val := GetStat();
      }
    }

    /** `spi_init`: the pin, clock and reset writes, chip select high among them. */
    method SpiInit()
      modifies this`trace
      ensures trace == old(trace) + InitOps
    {
      SetReg(P2_MUX_CLR, 0x30);
      SetReg(P2_DIR_SET, 0x6000_0000);
      CsHigh();
      SetReg(SPI_CTRL, 0x03);
      SetReg(SPI1_GLOBAL, 0x01);
      SetReg(SPI1_GLOBAL, 0x03);
      SetReg(SPI1_GLOBAL, 0x01);
    }

    /** `cs_high`: drive GPIO_05 high. */
    method CsHigh()
      modifies this`trace
      ensures trace == old(trace) + [Wr(P3_OUTP_SET, CS_PIN)]
    {
      SetReg(P3_OUTP_SET, CS_PIN);
    }

    /** `cs_low`: drive GPIO_05 low. */
    method CsLow()
      modifies this`trace
      ensures trace == old(trace) + [Wr(P3_OUTP_CLR, CS_PIN)]
    {
      SetReg(P3_OUTP_CLR, CS_PIN);
    }

    /**
     * `spi_tx`: send `data`, at most 65535 bytes per frame. With the polls
     * set aside the bus sees exactly TxOps(data); every data write waits for
     * a status read showing the FIFO not full, and every frame's interrupt
     * clear for one showing it empty.
     */
    method SpiTx(data: seq<u8>) returns (ghost ops: seq<Op>)
      requires |data| < WORD && Fair()
      modifies this`trace, this`statReads
      ensures trace == old(trace) + ops
      ensures Quiet(ops) == TxOps(data)
      ensures TxPolled(ops)
      ensures data == [] ==> ops == []
    {
      ops := [];
      var len: u32 := |data|;
      if len == 0 {
        return;
      }
      ghost var t0 := trace;
      SetReg(SPI1_CON, CON_TX);
      ops := [Wr(SPI1_CON, CON_TX)];
      TxStart(data);
      var pos := 0;
      while len != 0
        invariant pos + len == |data|
        invariant trace == t0 + ops
        invariant TxInv(data, pos, ops)
        decreases len
      {
        var frameLen: u32 := if len > 65535 then 65535 else len;
        len := len - frameLen;
        ghost var frame := SendFrame(data, pos, frameLen);
        TxFrameNext(data, pos, frameLen, ops, frame);
        Assoc(t0, ops, frame);
        ops := ops + frame;
        pos := pos + frameLen;
      }
      TxEnd(data, ops);
    }

    /**
     * One pass of the frame loop of `spi_tx`: the frame length to SPI1_FRM,
     * each byte to SPI1_DAT once the status shows the FIFO not full, then
     * the interrupt clear once it shows the FIFO empty.
     */
    method SendFrame(data: seq<u8>, start: nat, frameLen: u32) returns (ghost frame: seq<Op>)
      requires start + frameLen <= |data| && Fair()
      modifies this`trace, this`statReads
      ensures trace == old(trace) + frame
      ensures TxFrameDone(data, start, frameLen, frame)
    {
      ghost var t0, f := trace, frameLen;
      SetReg(SPI1_FRM, frameLen);
      frame := [Wr(SPI1_FRM, frameLen)];
      TxFrameOpen(data, start, f);
      var pos, n := start, frameLen;
      while n != 0
        invariant start <= pos && pos - start + n == f
        invariant trace == t0 + frame
        invariant TxFrameInv(data, start, pos, f, frame)
        decreases n
      {
        n := n - 1;
        frame := SendByte(data, start, pos, f, t0, frame);
        pos := pos + 1;
      }
      ghost var s0 := statReads;
      var val := Poll(1, true);
      ghost var polls := StatReads(stat, s0, statReads);
      TxFrameClose(stat, s0, statReads, data, start, f, frame);
      Assoc(t0 + frame, polls, [Wr(SPI1_STAT, INT_CLR)]);
      Assoc(t0, frame, polls + [Wr(SPI1_STAT, INT_CLR)]);
      SetReg(SPI1_STAT, INT_CLR);
      frame := frame + (polls + [Wr(SPI1_STAT, INT_CLR)]);
    }

    /** One pass of the byte loop of `spi_tx`: wait until the FIFO is not full, then write the byte. */
    method SendByte(data: seq<u8>, start: nat, pos: nat, ghost f: u32, ghost t0: seq<Op>, ghost frame: seq<Op>)
      returns (ghost frame': seq<Op>)
      requires start <= pos < |data| && Fair()
      requires trace == t0 + frame && TxFrameInv(data, start, pos, f, frame)
      modifies this`trace, this`statReads
      ensures trace == t0 + frame' && TxFrameInv(data, start, pos + 1, f, frame')
    {
      ghost var s0 := statReads;
      var val := Poll(4, false);
      ghost var polls := StatReads(stat, s0, statReads);
      TxByte(stat, s0, statReads, data, start, pos, f, frame);
      Assoc(t0 + frame, polls, [Wr(SPI1_DAT, data[pos])]);
      Assoc(t0, frame, polls + [Wr(SPI1_DAT, data[pos])]);
      SetReg(SPI1_DAT, data[pos]);
      frame' := frame + (polls + [Wr(SPI1_DAT, data[pos])]);
    }

    /**
     * `spi_rx`: receive `len` bytes into `data`, at most 65535 per frame,
     * each frame opened by one dummy data read. With the polls and shift-off
     * rewrites set aside the bus sees exactly RxOps; byte k is the low byte
     * of the data read RxSource names; every shift-off rewrite follows a
     * status read showing bit 0x08.
     */
    method SpiRx(data: array<u8>, len: u32) returns (ghost ops: seq<Op>)
      requires len <= data.Length && Fair()
      modifies this`trace, this`statReads, this`datReads, data
      ensures trace == old(trace) + ops
      ensures Quiet(ops) == RxOps(dat, len, old(datReads))
      ensures RxPolled(ops)
      ensures len == 0 ==> ops == []
      ensures datReads == old(datReads) + len + |Frames(len)|
      ensures forall k :: 0 <= k < len ==> data[k] == Low8(At(dat, RxSource(old(datReads), k)))
      ensures forall k :: len <= k < data.Length ==> data[k] == old(data[k])
    {
      ops := [];
      if len == 0 {
        return;
      }
      ghost var d0, t0 := datReads, trace;
      SetReg(SPI1_CON, CON_RX);
      ops := [Wr(SPI1_CON, CON_RX)];
      RxStart(dat, len, d0);
      var rem: u32 := len;
      var pos := 0;
      ghost var j: nat := 0;
      while rem != 0
        invariant pos + rem == len
        invariant rem > 0 ==> pos == j * MAX_FRAME
        invariant datReads == d0 + pos + j
        invariant |Frames(len)| == j + |Frames(rem)|
        invariant trace == t0 + ops
        invariant RxInv(dat, len, d0, rem, datReads, ops)
        invariant forall k :: 0 <= k < pos ==> data[k] == Low8(At(dat, RxSource(d0, k)))
        invariant forall k :: pos <= k < data.Length ==> data[k] == old(data[k])
        decreases rem
      {
        var frameLen: u32 := if rem > 65535 then 65535 else rem;
        ghost var i0, rem0, ops0 := datReads, rem, ops;
        FramesStep(rem);
        forall k | pos <= k < pos + frameLen
          ensures RxSource(d0, k) == i0 + 1 + (k - pos)
        {
          FrameOfByte(j, k);
        }
        ghost var frame := ReceiveFrame(data, pos, frameLen);
        Assoc(t0, ops, frame);
        ops := ops + frame;
        rem := rem - frameLen;
        pos := pos + frameLen;
        j := j + 1;
        RxFrameNext(dat, len, d0, rem0, i0, frameLen, ops0, frame, rem, datReads, ops);
      }
    }

    /**
     * One pass of the frame loop of `spi_rx`: the frame length to SPI1_FRM,
     * a dummy data read, then for each byte a wait until the status shows
     * the FIFO not empty, a second status read whose bit 0x08 triggers the
     * shift-off rewrite of SPI1_CON, and the data read whose low byte is
     * stored; finally the interrupt clear.
     */
    method ReceiveFrame(data: array<u8>, start: nat, frameLen: u32) returns (ghost frame: seq<Op>)
      requires start + frameLen <= data.Length && Fair()
      modifies this`trace, this`statReads, this`datReads, data
      ensures trace == old(trace) + frame
      ensures RxFrameDone(dat, old(datReads), frameLen, frame)
      ensures datReads == old(datReads) + 1 + frameLen
      ensures forall k :: start <= k < start + frameLen ==> data[k] == Low8(At(dat, old(datReads) + 1 + (k - start)))
      ensures forall k :: 0 <= k < start ==> data[k] == old(data[k])
      ensures forall k :: start + frameLen <= k < data.Length ==> data[k] == old(data[k])
    {
      ghost var t0, f, i0 := trace, frameLen, datReads;
      SetReg(SPI1_FRM, frameLen);
      var val := GetDat();
      frame := [Wr(SPI1_FRM, frameLen), Rd(SPI1_DAT, val)];
      RxFrameOpen(dat, i0, f);
      frame := ReceiveBytes(data, start, t0, i0, frameLen, frame);
      SetReg(SPI1_STAT, INT_CLR);
      RxFrameClose(dat, i0, f, frame);
      frame := frame + [Wr(SPI1_STAT, INT_CLR)];
    }

    /** The byte loop of one receive frame: `f` bytes stored from `data[start]` on. */
    method ReceiveBytes(data: array<u8>, start: nat, ghost t0: seq<Op>, ghost i0: nat, f: u32, ghost frame: seq<Op>)
      returns (ghost frame': seq<Op>)
      requires start + f <= data.Length && Fair()
      requires trace == t0 + frame && datReads == i0 + 1
      requires RxFrameInv(dat, i0, 0, f, frame)
      modifies this`trace, this`statReads, this`datReads, data
      ensures trace == t0 + frame' && RxFrameInv(dat, i0, f, f, frame')
      ensures datReads == i0 + 1 + f
      ensures forall k :: start <= k < start + f ==> data[k] == Low8(At(dat, i0 + 1 + (k - start)))
      ensures forall k :: 0 <= k < start ==> data[k] == old(data[k])
      ensures forall k :: start + f <= k < data.Length ==> data[k] == old(data[k])
    {
      frame' := frame;
      var pos, n := start, f;
      while n != 0
        invariant start <= pos && pos - start + n == f
        invariant datReads == i0 + 1 + (pos - start)
        invariant trace == t0 + frame'
        invariant RxFrameInv(dat, i0, pos - start, f, frame')
        invariant forall k :: start <= k < pos ==> data[k] == Low8(At(dat, i0 + 1 + (k - start)))
        invariant forall k :: 0 <= k < data.Length && !(start <= k < pos) ==> data[k] == old(data[k])
        decreases n
      {
        n := n - 1;
        frame' := ReceiveStep(data, start, pos, t0, i0, f, frame');
        pos := pos + 1;
      }
    }

    /** One pass of the byte loop: read the next byte and store it at `data[pos]`. */
    method ReceiveStep(data: array<u8>, start: nat, pos: nat, ghost t0: seq<Op>, ghost i0: nat, ghost f: u32, ghost frame: seq<Op>)
      returns (ghost frame': seq<Op>)
      requires start <= pos < data.Length && Fair()
      requires trace == t0 + frame && datReads == i0 + 1 + (pos - start)
      requires RxFrameInv(dat, i0, pos - start, f, frame)
      modifies this`trace, this`statReads, this`datReads, data
      ensures trace == t0 + frame' && RxFrameInv(dat, i0, pos - start + 1, f, frame')
      ensures datReads == old(datReads) + 1
      ensures data[pos] == Low8(At(dat, i0 + 1 + (pos - start)))
      ensures forall k :: 0 <= k < data.Length && k != pos ==> data[k] == old(data[k])
    {
      var b;
      b, frame' := ReceiveByte(t0, i0, pos - start, f, frame);
      data[pos] := b;
    }

    /**
     * The body of the byte loop of `spi_rx`, up to the store: wait until the
     * status shows the FIFO not empty, read the status again and rewrite
     * SPI1_CON for shift-off if it shows bit 0x08, then read the data word;
     * its low byte is the result.
     */
    method ReceiveByte(ghost t0: seq<Op>, ghost i0: nat, ghost n: nat, ghost f: u32, ghost frame: seq<Op>)
      returns (b: u8, ghost frame': seq<Op>)
      requires Fair() && trace == t0 + frame && datReads == i0 + 1 + n
      requires RxFrameInv(dat, i0, n, f, frame)
      modifies this`trace, this`statReads, this`datReads
      ensures datReads == old(datReads) + 1
      ensures b == Low8(At(dat, i0 + 1 + n))
      ensures trace == t0 + frame' && RxFrameInv(dat, i0, n + 1, f, frame')
    {
      ghost var s0 := statReads;
      var val := Poll(1, false);
      ghost var s1, t1 := statReads, trace;
      val := GetStat();
      var shift := Shows(val, 8);
      ghost var mid := trace;
      if shift {
        SetReg(SPI1_CON, CON_SHIFT_OFF);
      }
      assert trace == mid + (if shift then [Wr(SPI1_CON, CON_SHIFT_OFF)] else []);
      val := GetDat();
      RxTrace(t0 + frame, stat, s0, s1, shift, val);
      RxByte(stat, s0, s1 + 1, shift, dat, i0, n, f, frame);
      Assoc(t0, frame, ByteOps(stat, s0, s1 + 1, shift, val));
      frame' := frame + ByteOps(stat, s0, s1 + 1, shift, val);
      b := Low8(val);
    }

    /**
     * `spi_readflash`: clear `buf_G`, send the fast-read command for `addr`,
     * receive `len` bytes into `data`, and print the first `len` bytes of
     * `buf_G` (returned as `printed`). Those are the received bytes only
     * when `data` is `buf_G` itself; otherwise they are the zeros just
     * written.
     */
    method SpiReadflash(data: array<u8>, addr: u32, len: u32) returns (printed: seq<u8>, ghost ops: seq<Op>)
      requires len <= data.Length && len <= buf.Length && Fair()
      modifies this`trace, this`statReads, this`datReads, data, buf
      ensures trace == old(trace) + ops
      ensures Quiet(ops) == ReadflashOps(dat, addr, len, old(datReads))
      ensures forall k :: 0 <= k < len ==> data[k] == Low8(At(dat, RxSource(old(datReads), k)))
      ensures data != buf ==> forall k :: len <= k < data.Length ==> data[k] == old(data[k])
      ensures len > 0 && data != buf ==> forall k :: 0 <= k < buf.Length ==> buf[k] == 0
      ensures len > 0 && data == buf ==> forall k :: len <= k < buf.Length ==> buf[k] == 0
      ensures printed == buf[..len]
      ensures len == 0 ==> ops == [] && printed == [] && buf[..] == old(buf[..])
    {
      ops := [];
      printed := [];
      if len == 0 {
        return;
      }
      forall k | 0 <= k < buf.Length {
        buf[k] := 0;
      }
      ghost var t0, d0 := trace, datReads;
      CsLow();
      var tx := SpiTx(Command(addr));
      var rx := SpiRx(data, len);
      CsHigh();
      ops := Session(tx, rx);
      SessionTrace(t0, tx, rx);
      SessionQuiet(tx, rx);
      printed := buf[..len];
    }

    /**
     * `spi_getid`: clear `buf_G`, send READ_ID, receive the three JEDEC ID
     * bytes into `buf_G` and print them (returned as `id`).
     */
    method SpiGetid() returns (id: seq<u8>, ghost ops: seq<Op>)
      requires 3 <= buf.Length && Fair()
      modifies this`trace, this`statReads, this`datReads, buf
      ensures trace == old(trace) + ops
      ensures Quiet(ops) == GetidOps(dat, old(datReads))
      ensures id == buf[..3]
      ensures id == [Low8(At(dat, old(datReads) + 1)), Low8(At(dat, old(datReads) + 2)), Low8(At(dat, old(datReads) + 3))]
      ensures forall k :: 3 <= k < buf.Length ==> buf[k] == 0
    {
      ghost var d0 := datReads;
      forall k | 0 <= k < buf.Length {
        buf[k] := 0;
      }
      ghost var t0 := trace;
      CsLow();
      var tx := SpiTx([READ_ID]);
      assert datReads == d0;
      var rx := SpiRx(buf, 3);
      assert buf[0] == Low8(At(dat, RxSource(d0, 0))) && RxSource(d0, 0) == d0 + 1;
      assert buf[1] == Low8(At(dat, RxSource(d0, 1))) && RxSource(d0, 1) == d0 + 2;
      assert buf[2] == Low8(At(dat, RxSource(d0, 2))) && RxSource(d0, 2) == d0 + 3;
      id := [buf[0], buf[1], buf[2]];
      assert id == buf[..3];
      assert id == [Low8(At(dat, d0 + 1)), Low8(At(dat, d0 + 2)), Low8(At(dat, d0 + 3))];
      CsHigh();
      ops := Session(tx, rx);
      SessionTrace(t0, tx, rx);
      SessionQuiet(tx, rx);
    }
  }
}

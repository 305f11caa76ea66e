/**
 * What the SPI-NOR driver (src/lpc32x0-spi.c) puts on the register bus,
 * independent of how long the hardware keeps it waiting: the framing of a
 * transfer, and the register operations of a transmit or a receive once the
 * status polls are set aside.
 */
module SpiOps {
  import opened Word
  import opened Registers

  /** A byte of a transfer buffer (`uint8_t`). */
  type u8 = x: int | 0 <= x < 0x100

  /** One register access through `lpc32x0__set_reg` or `lpc32x0__get_reg`, with the word written or read. */
  datatype Op = Wr(addr: u32, val: u32) | Rd(addr: u32, val: u32)

  /**
   * The words successive reads of one register return: entry n is the
   * answer to the n-th read. An answer the stream leaves open reads as 0.
   */
  type Stream = imap<nat, u32>

  function At(s: Stream, n: nat): u32
  {
    if n in s then s[n] else 0
  }

  /** The largest frame SPI1_FRM takes. */
  const MAX_FRAME: nat := 65535

  /** GPIO_05, the flash chip select, in P3_OUTP_SET / P3_OUTP_CLR. */
  const CS_PIN: u32 := 0x4000_0000
  /** SPI1_CON for transmit, shift enabled. */
  const CON_TX: u32 := 0x80_8e83
  /** SPI1_CON for receive, shift enabled. */
  const CON_RX: u32 := 0x80_0e83
  /** SPI1_CON rewritten in receive when the status shows bit 0x08 (shift off). */
  const CON_SHIFT_OFF: u32 := 0x80_2e83
  /** SPI1_STAT interrupt clear. */
  const INT_CLR: u32 := 0x100
  /** Flash opcodes: fast read and JEDEC read-ID. */
  const FAST_READ: u8 := 0x0b
  const READ_ID: u8 := 0x9f

  /** `frameLen`: what is left, capped at MAX_FRAME. */
  function FrameLen(len: nat): (f: nat)
    ensures f <= MAX_FRAME && f <= len && (len > 0 ==> f > 0)
    ensures f == len || f == MAX_FRAME
  {
    if len > MAX_FRAME then MAX_FRAME else len
  }

  /** The frame lengths a transfer of `len` bytes is cut into, in order. */
  function Frames(len: nat): seq<nat>
    decreases len
  {
    if len == 0 then [] else [FrameLen(len)] + Frames(len - FrameLen(len))
  }

  function Sum(s: seq<nat>): nat
  {
    if s == [] then 0 else s[0] + Sum(s[1..])
  }

  /**
   * The frames cover the transfer exactly: each is between 1 and 65535 bytes,
   * all but the last are full, and there are as many as 65535-byte pieces
   * needed.
   */
  lemma {:induction false} FramesSpec(len: nat)
    ensures Sum(Frames(len)) == len
    ensures |Frames(len)| == (len + MAX_FRAME - 1) / MAX_FRAME
    ensures forall k :: 0 <= k < |Frames(len)| ==> 0 < Frames(len)[k] <= MAX_FRAME
    ensures forall k :: 0 <= k < |Frames(len)| - 1 ==> Frames(len)[k] == MAX_FRAME
    decreases len
  {
    if len > 0 {
      var f := FrameLen(len);
      FramesSpec(len - f);
      var F := Frames(len);
      assert F[1..] == Frames(len - f);
      forall k | 0 <= k < |F|
        ensures 0 < F[k] <= MAX_FRAME
      {
        if k > 0 {
          assert F[k] == Frames(len - f)[k - 1];
        }
      }
      assert f < MAX_FRAME ==> |F| == 1;
      forall k | 0 <= k < |F| - 1
        ensures F[k] == MAX_FRAME
      {
        if k > 0 {
          assert F[k] == Frames(len - f)[k - 1];
        }
      }
    }
  }

  lemma FramesOf70000()
    ensures Frames(70000) == [65535, 4465]
  {
    assert Frames(0) == [];
    assert Frames(4465) == [4465] + Frames(0);
  }

  /** The operations whose number depends on the hardware: status polls and the receive shift-off rewrite. */
  predicate Polling(op: Op)
  {
    (op.Rd? && op.addr == SPI1_STAT) || op == Wr(SPI1_CON, CON_SHIFT_OFF)
  }

  /** A trace with the hardware-paced operations removed. */
  function Quiet(t: seq<Op>): (r: seq<Op>)
    ensures |r| <= |t|
  {
    if t == [] then []
    else Quiet(t[..|t| - 1]) + if Polling(t[|t| - 1]) then [] else [t[|t| - 1]]
  }

  lemma {:induction false} QuietAppend(a: seq<Op>, b: seq<Op>)
    ensures Quiet(a + b) == Quiet(a) + Quiet(b)
    decreases |b|
  {
    if b == [] {
      assert a + b == a;
    } else {
      assert (a + b)[..|a + b| - 1] == a + b[..|b| - 1];
      QuietAppend(a, b[..|b| - 1]);
    }
  }

  lemma QuietOne(op: Op)
    ensures Quiet([op]) == if Polling(op) then [] else [op]
  {
    assert [op][..0] == [];
  }

  /** The answers to status reads a..b-1, as read operations. */
  function StatReads(stat: Stream, a: nat, b: nat): (r: seq<Op>)
    requires a <= b
    ensures |r| == b - a
    decreases b - a
  {
    if a == b then [] else StatReads(stat, a, b - 1) + [Rd(SPI1_STAT, At(stat, b - 1))]
  }

  lemma {:induction false} StatReadsAt(stat: Stream, a: nat, b: nat)
    requires a <= b
    ensures forall k :: 0 <= k < b - a ==> StatReads(stat, a, b)[k] == Rd(SPI1_STAT, At(stat, a + k))
    decreases b - a
  {
    if a < b {
      StatReadsAt(stat, a, b - 1);
    }
  }

  /** Status polls vanish from the quiet trace. */
  lemma {:induction false} QuietStatReads(stat: Stream, a: nat, b: nat)
    requires a <= b
    ensures Quiet(StatReads(stat, a, b)) == []
    decreases b - a
  {
    if a < b {
      QuietStatReads(stat, a, b - 1);
      assert StatReads(stat, a, b)[..b - a - 1] == StatReads(stat, a, b - 1);
    }
  }

  /** The data writes of the bytes `b`, in order. */
  function DatWrites(b: seq<u8>): (r: seq<Op>)
    ensures |r| == |b|
  {
    if b == [] then [] else DatWrites(b[..|b| - 1]) + [Wr(SPI1_DAT, b[|b| - 1])]
  }

  /** Each transmit frame: its length to SPI1_FRM, its bytes to SPI1_DAT, then the interrupt clear. */
  function TxFrames(data: seq<u8>): seq<Op>
    decreases |data|
  {
    if data == [] then []
    else
      var f := FrameLen(|data|);
      [Wr(SPI1_FRM, f)] + DatWrites(data[..f]) + [Wr(SPI1_STAT, INT_CLR)] + TxFrames(data[f..])
  }

  /** `spi_tx`, polls set aside: nothing for no bytes, else SPI1_CON once and then the frames. */
  function TxOps(data: seq<u8>): seq<Op>
  {
    if data == [] then [] else [Wr(SPI1_CON, CON_TX)] + TxFrames(data)
  }

  /** The answers to data reads i..i+n-1, as read operations. */
  function DatReads(dat: Stream, i: nat, n: nat): (r: seq<Op>)
    ensures |r| == n
  {
    if n == 0 then [] else DatReads(dat, i, n - 1) + [Rd(SPI1_DAT, At(dat, i + n - 1))]
  }

  /**
   * Each receive frame, starting at data read `i`: its length to SPI1_FRM,
   * one dummy data read, one data read per byte, then the interrupt clear.
   */
  function RxFrames(dat: Stream, len: nat, i: nat): seq<Op>
    decreases len
  {
    if len == 0 then []
    else
      var f := FrameLen(len);
      [Wr(SPI1_FRM, f), Rd(SPI1_DAT, At(dat, i))] + DatReads(dat, i + 1, f) + [Wr(SPI1_STAT, INT_CLR)]
      + RxFrames(dat, len - f, i + 1 + f)
  }

  /** `spi_rx`, polls and shift-off rewrites set aside. */
  function RxOps(dat: Stream, len: nat, i: nat): seq<Op>
  {
    if len == 0 then [] else [Wr(SPI1_CON, CON_RX)] + RxFrames(dat, len, i)
  }

  /**
   * The data read the k-th received byte comes from, counting from data read
   * `i`: every frame starts with one dummy read, so byte k is preceded by
   * k / 65535 + 1 of them.
   */
  function RxSource(i: nat, k: nat): nat
  {
    i + k + k / MAX_FRAME + 1
  }

  /** What `*data_p++ = val` keeps of a word: its low 8 bits. */
  function Low8(v: u32): u8
  {
    v % 0x100
  }

  /** The five command bytes of `spi_readflash`: opcode, 24-bit address high byte first, dummy. */
  function Command(addr: u32): seq<u8>
  {
    [FAST_READ, And(Shr(addr, 16), 0xff), And(Shr(addr, 8), 0xff), And(addr, 0xff), 0]
  }

  /** The bits of `mask` show in the status word `v` (`v & mask`). */
  predicate Shows(v: u32, mask: u32)
  {
    And(v, mask) != 0
  }

  predicate StatusRead(op: Op)
  {
    op.Rd? && op.addr == SPI1_STAT
  }

  /**
   * Position i of a transmit trace is paced correctly: a data write comes
   * right after a status read with the FIFO-full bit 0x04 clear, the
   * interrupt clear right after one with the FIFO-empty bit 0x01 set, and
   * the receive-only shift-off rewrite of SPI1_CON never occurs.
   */
  predicate PolledAt(t: seq<Op>, i: nat)
    requires i < |t|
  {
    && (t[i].Wr? && t[i].addr == SPI1_DAT ==> i > 0 && StatusRead(t[i - 1]) && !Shows(t[i - 1].val, 4))
    && (t[i] == Wr(SPI1_STAT, INT_CLR) ==> i > 0 && StatusRead(t[i - 1]) && Shows(t[i - 1].val, 1))
    && t[i] != Wr(SPI1_CON, CON_SHIFT_OFF)
  }

  predicate TxPolled(t: seq<Op>)
  {
    forall i :: 0 <= i < |t| ==> PolledAt(t, i)
  }

  /** Position i of a trace is a data read that fetches a byte: any data read but the dummy one right after SPI1_FRM. */
  predicate ByteReadAt(t: seq<Op>, i: nat)
    requires i < |t|
  {
    t[i].Rd? && t[i].addr == SPI1_DAT && !(i > 0 && t[i - 1].Wr? && t[i - 1].addr == SPI1_FRM)
  }

  /**
   * Position i of a receive trace is paced as `spi_rx` paces it. A shift-off
   * rewrite comes right after a status read showing bit 0x08 and right
   * before a byte's data read, nowhere else. A byte's data
   * read comes after a poll showing the FIFO-empty bit 0x01 clear and a
   * second status read right after it; the shift-off rewrite sits between
   * that second read and the data read exactly when the second read shows
   * bit 0x08.
   */
  predicate RxPacedAt(t: seq<Op>, i: nat)
    requires i < |t|
  {
    && (t[i] == Wr(SPI1_CON, CON_SHIFT_OFF) ==> i > 0 && StatusRead(t[i - 1]) && Shows(t[i - 1].val, 8))
    && (t[i] == Wr(SPI1_CON, CON_SHIFT_OFF) ==> i + 1 < |t| && ByteReadAt(t, i + 1))
    && (ByteReadAt(t, i) ==>
          || (i >= 2 && StatusRead(t[i - 1]) && !Shows(t[i - 1].val, 8)
              && StatusRead(t[i - 2]) && !Shows(t[i - 2].val, 1))
          || (i >= 3 && t[i - 1] == Wr(SPI1_CON, CON_SHIFT_OFF)
              && StatusRead(t[i - 2]) && Shows(t[i - 2].val, 8)
              && StatusRead(t[i - 3]) && !Shows(t[i - 3].val, 1)))
  }

  predicate RxPolled(t: seq<Op>)
  {
    forall i :: 0 <= i < |t| ==> RxPacedAt(t, i)
  }

  /**
   * Receive traces with the right quiet part that `spi_rx` cannot produce:
   * a byte read with no poll before it, a byte read after a second status
   * read showing bit 0x08 with no shift-off rewrite in between, and a
   * shift-off rewrite inside the wait for the FIFO not empty.
   */
  lemma RxPolledRejects()
    ensures !RxPolled([Wr(SPI1_CON, CON_RX), Wr(SPI1_FRM, 1), Rd(SPI1_DAT, 0), Rd(SPI1_DAT, 0), Wr(SPI1_STAT, INT_CLR)])
    ensures !RxPolled([Wr(SPI1_CON, CON_RX), Wr(SPI1_FRM, 1), Rd(SPI1_DAT, 0),
                       Rd(SPI1_STAT, 0), Rd(SPI1_STAT, 9), Rd(SPI1_DAT, 0), Wr(SPI1_STAT, INT_CLR)])
    ensures !RxPolled([Wr(SPI1_CON, CON_RX), Wr(SPI1_FRM, 1), Rd(SPI1_DAT, 0), Rd(SPI1_STAT, 9), Wr(SPI1_CON, CON_SHIFT_OFF),
                       Rd(SPI1_STAT, 0), Rd(SPI1_STAT, 0), Rd(SPI1_DAT, 0), Wr(SPI1_STAT, INT_CLR)])
  {
    var t := [Wr(SPI1_CON, CON_RX), Wr(SPI1_FRM, 1), Rd(SPI1_DAT, 0), Rd(SPI1_DAT, 0), Wr(SPI1_STAT, INT_CLR)];
    assert !RxPacedAt(t, 3);
    var u := [Wr(SPI1_CON, CON_RX), Wr(SPI1_FRM, 1), Rd(SPI1_DAT, 0),
              Rd(SPI1_STAT, 0), Rd(SPI1_STAT, 9), Rd(SPI1_DAT, 0), Wr(SPI1_STAT, INT_CLR)];
    assert Shows(9, 8);
    assert !RxPacedAt(u, 5);
    var w := [Wr(SPI1_CON, CON_RX), Wr(SPI1_FRM, 1), Rd(SPI1_DAT, 0), Rd(SPI1_STAT, 9), Wr(SPI1_CON, CON_SHIFT_OFF),
              Rd(SPI1_STAT, 0), Rd(SPI1_STAT, 0), Rd(SPI1_DAT, 0), Wr(SPI1_STAT, INT_CLR)];
    assert !RxPacedAt(w, 4);
  }

  /** Both pacing properties are kept by concatenation, since neither looks further back than the start of its own trace. */
  lemma PacedAppend(a: seq<Op>, b: seq<Op>)
    ensures TxPolled(a) && TxPolled(b) ==> TxPolled(a + b)
    ensures RxPolled(a) && RxPolled(b) ==> RxPolled(a + b)
  {
    var t := a + b;
    if TxPolled(a) && TxPolled(b) {
      forall i | 0 <= i < |t|
        ensures PolledAt(t, i)
      {
        if i >= |a| {
          assert PolledAt(b, i - |a|);
          if i > |a| {
            assert t[i - 1] == b[i - |a| - 1];
          }
        } else {
          assert PolledAt(a, i);
        }
      }
    }
    if RxPolled(a) && RxPolled(b) {
      forall i | 0 <= i < |t|
        ensures RxPacedAt(t, i)
      {
        if i >= |a| {
          RxPacedShift(a, b, i - |a|);
        } else {
          assert RxPacedAt(a, i);
          assert t[i] == a[i];
          if i + 1 < |a| {
            assert t[i + 1] == a[i + 1];
          }
          if i > 0 {
            assert t[i - 1] == a[i - 1];
          }
          if i > 1 {
            assert t[i - 2] == a[i - 2];
          }
          if i > 2 {
            assert t[i - 3] == a[i - 3];
          }
        }
      }
    }
  }

  /** Receive pacing at position k of `b` carries over to the same operation after `a`. */
  lemma RxPacedShift(a: seq<Op>, b: seq<Op>, k: nat)
    requires k < |b| && RxPacedAt(b, k)
    ensures RxPacedAt(a + b, |a| + k)
  {
    var t, i := a + b, |a| + k;
    assert t[i] == b[k];
    if k + 1 < |b| {
      assert t[i + 1] == b[k + 1];
    }
    if k > 0 {
      assert t[i - 1] == b[k - 1];
    }
    if k > 1 {
      assert t[i - 2] == b[k - 2];
    }
    if k > 2 {
      assert t[i - 3] == b[k - 3];
    }
  }

  /** Status polls alone are paced. */
  lemma PollsPaced(r: seq<Op>)
    requires forall i :: 0 <= i < |r| ==> StatusRead(r[i])
    ensures TxPolled(r) && RxPolled(r)
  {
    forall i | 0 <= i < |r|
      ensures PolledAt(r, i) && RxPacedAt(r, i)
    {
      assert StatusRead(r[i]);
    }
  }

  /** Status polls followed by one operation leave just that operation in the quiet trace. */
  lemma PollsThenQuiet(stat: Stream, a: nat, b: nat, op: Op)
    requires a <= b
    ensures Quiet(StatReads(stat, a, b) + [op]) == Quiet([op])
  {
    QuietStatReads(stat, a, b);
    QuietAppend(StatReads(stat, a, b), [op]);
  }

  /**
   * Status polls followed by one transmit operation are paced when the last
   * poll allows that operation.
   */
  lemma PollsThenPaced(r: seq<Op>, op: Op)
    requires |r| > 0 && forall i :: 0 <= i < |r| ==> StatusRead(r[i])
    requires op != Wr(SPI1_CON, CON_SHIFT_OFF)
    ensures (op.Wr? && op.addr == SPI1_DAT ==> !Shows(r[|r| - 1].val, 4))
        && (op == Wr(SPI1_STAT, INT_CLR) ==> Shows(r[|r| - 1].val, 1))
        ==> TxPolled(r + [op])
  {
    PollsPaced(r);
    var t := r + [op];
    assert t[|r|] == op && t[|r| - 1] == r[|r| - 1];
    forall i | 0 <= i < |r|
      ensures PolledAt(t, i) == PolledAt(r, i)
    {
      assert t[i] == r[i];
      if i > 0 {
        assert t[i - 1] == r[i - 1];
      }
    }
  }

  /** One transmit frame taken off the front of the bytes still to send. */
  lemma TxFrameStep(data: seq<u8>, start: nat, f: nat)
    requires start < |data| && f == FrameLen(|data| - start)
    ensures TxFrames(data[start..]) == [Wr(SPI1_FRM, f)] + DatWrites(data[start..start + f]) + [Wr(SPI1_STAT, INT_CLR)] + TxFrames(data[start + f..])
  {
    assert data[start..][..f] == data[start..start + f];
    assert data[start..][f..] == data[start + f..];
  }

  lemma DatWritesSnoc(data: seq<u8>, start: nat, pos: nat)
    requires start <= pos < |data|
    ensures DatWrites(data[start..pos + 1]) == DatWrites(data[start..pos]) + [Wr(SPI1_DAT, data[pos])]
  {
    assert data[start..pos + 1][..pos - start] == data[start..pos];
  }

  /** Within frame j, the bytes j * 65535 up to the frame's end all lie in frame j. */
  /** Peeling one frame off a transfer of `rem` bytes. */
  lemma FramesStep(rem: nat)
    requires rem > 0
    ensures FrameLen(rem) == (if rem > MAX_FRAME then MAX_FRAME else rem)
    ensures |Frames(rem)| == 1 + |Frames(rem - FrameLen(rem))|
  {
  }

  lemma FrameOfByte(j: nat, k: nat)
    requires j * MAX_FRAME <= k < j * MAX_FRAME + MAX_FRAME
    ensures k / MAX_FRAME == j
  {
  }

  /** A trace without polls is its own quiet trace. */
  lemma {:induction false} QuietPlain(t: seq<Op>)
    requires forall k :: 0 <= k < |t| ==> !Polling(t[k])
    ensures Quiet(t) == t
    decreases |t|
  {
    if t != [] {
      QuietPlain(t[..|t| - 1]);
      assert t == t[..|t| - 1] + [t[|t| - 1]];
    }
  }

  /**
   * A transmit step: polls a..b-1, then a data write or the interrupt clear
   * the last poll allows, appended to a paced trace.
   */
  lemma TxStep(stat: Stream, a: nat, b: nat, prefix: seq<Op>, op: Op)
    requires a < b && TxPolled(prefix) && op != Wr(SPI1_CON, CON_SHIFT_OFF)
    requires op.Wr? && op.addr == SPI1_DAT ==> !Shows(At(stat, b - 1), 4)
    requires op == Wr(SPI1_STAT, INT_CLR) ==> Shows(At(stat, b - 1), 1)
    ensures Quiet(prefix + (StatReads(stat, a, b) + [op])) == Quiet(prefix) + Quiet([op])
    ensures TxPolled(prefix + (StatReads(stat, a, b) + [op]))
  {
    var r := StatReads(stat, a, b);
    StatReadsAt(stat, a, b);
    PollsThenQuiet(stat, a, b, op);
    QuietAppend(prefix, r + [op]);
    PollsThenPaced(r, op);
    PacedAppend(prefix, r + [op]);
  }

  /** The operations a receive makes for one byte: polls, maybe the shift-off rewrite, the data read. */
  function ByteOps(stat: Stream, a: nat, c: nat, shift: bool, x: u32): seq<Op>
    requires a <= c
  {
    StatReads(stat, a, c) + (if shift then [Wr(SPI1_CON, CON_SHIFT_OFF)] else []) + [Rd(SPI1_DAT, x)]
  }

  /**
   * A receive step: of one byte's operations only the data read stays in the
   * quiet trace, and they are paced when the status read before the last
   * shows the FIFO not empty and the shift-off rewrite is made exactly when
   * the last shows bit 0x08.
   */
  lemma RxStep(stat: Stream, a: nat, c: nat, shift: bool, x: u32, prefix: seq<Op>)
    requires a + 2 <= c && RxPolled(prefix)
    requires !Shows(At(stat, c - 2), 1) && shift == Shows(At(stat, c - 1), 8)
    ensures Quiet(prefix + ByteOps(stat, a, c, shift, x)) == Quiet(prefix) + [Rd(SPI1_DAT, x)]
    ensures RxPolled(prefix + ByteOps(stat, a, c, shift, x))
  {
    ByteOpsQuiet(stat, a, c, shift, x);
    ByteOpsPaced(stat, a, c, shift, x);
    QuietAppend(prefix, ByteOps(stat, a, c, shift, x));
    PacedAppend(prefix, ByteOps(stat, a, c, shift, x));
  }

  /** Of one byte's operations only the data read stays in the quiet trace. */
  lemma ByteOpsQuiet(stat: Stream, a: nat, c: nat, shift: bool, x: u32)
    requires a <= c
    ensures Quiet(ByteOps(stat, a, c, shift, x)) == [Rd(SPI1_DAT, x)]
  {
    var r := StatReads(stat, a, c);
    var w: seq<Op> := if shift then [Wr(SPI1_CON, CON_SHIFT_OFF)] else [];
    var d := Rd(SPI1_DAT, x);
    QuietStatReads(stat, a, c);
    QuietOne(Wr(SPI1_CON, CON_SHIFT_OFF));
    assert Quiet(w) == [] by {
      if !shift {
        assert w == [];
      }
    }
    QuietOne(d);
    QuietAppend(r, w);
    QuietAppend(r + w, [d]);
  }

  /** One byte's operations are paced under the conditions `spi_rx` waits for. */
  lemma ByteOpsPaced(stat: Stream, a: nat, c: nat, shift: bool, x: u32)
    requires a + 2 <= c
    requires !Shows(At(stat, c - 2), 1) && shift == Shows(At(stat, c - 1), 8)
    ensures RxPolled(ByteOps(stat, a, c, shift, x))
  {
    var r := StatReads(stat, a, c);
    var t := ByteOps(stat, a, c, shift, x);
    var n := |r|;
    StatReadsAt(stat, a, c);
    assert r[n - 1] == Rd(SPI1_STAT, At(stat, c - 1)) && r[n - 2] == Rd(SPI1_STAT, At(stat, c - 2));
    forall i | 0 <= i < |t|
      ensures RxPacedAt(t, i)
    {
      if i < n {
        assert t[i] == r[i];
      } else if shift && i == n {
        assert t[i] == Wr(SPI1_CON, CON_SHIFT_OFF) && t[i - 1] == r[n - 1] && t[i + 1] == Rd(SPI1_DAT, x);
      } else if shift {
        assert i == n + 1 && t[i] == Rd(SPI1_DAT, x);
        assert t[i - 1] == Wr(SPI1_CON, CON_SHIFT_OFF) && t[i - 2] == r[n - 1] && t[i - 3] == r[n - 2];
      } else {
        assert i == n && t[i] == Rd(SPI1_DAT, x);
        assert t[i - 1] == r[n - 1] && t[i - 2] == r[n - 2];
      }
    }
  }

  /** A write other than data, interrupt clear or shift-off, appended: kept in the quiet trace, no pacing broken. */
  lemma PlainStep(prefix: seq<Op>, op: Op)
    requires op.Wr? && op.addr != SPI1_DAT && op != Wr(SPI1_STAT, INT_CLR) && op != Wr(SPI1_CON, CON_SHIFT_OFF)
    ensures Quiet(prefix + [op]) == Quiet(prefix) + [op]
    ensures TxPolled(prefix) ==> TxPolled(prefix + [op])
    ensures RxPolled(prefix) ==> RxPolled(prefix + [op])
  {
    QuietOne(op);
    QuietAppend(prefix, [op]);
    assert TxPolled([op]) && RxPolled([op]);
    PacedAppend(prefix, [op]);
  }

  /** The interrupt clear that ends a receive frame. */
  lemma RxClearStep(prefix: seq<Op>)
    ensures Quiet(prefix + [Wr(SPI1_STAT, INT_CLR)]) == Quiet(prefix) + [Wr(SPI1_STAT, INT_CLR)]
    ensures RxPolled(prefix) ==> RxPolled(prefix + [Wr(SPI1_STAT, INT_CLR)])
  {
    var op := Wr(SPI1_STAT, INT_CLR);
    QuietOne(op);
    QuietAppend(prefix, [op]);
    assert RxPolled([op]);
    PacedAppend(prefix, [op]);
  }

  lemma Regroup(p: seq<Op>, frame: seq<Op>, s: seq<Op>, w: seq<Op>)
    ensures p + frame + s + w == p + (frame + (s + w))
  {
  }

  lemma StatReadsSnoc(stat: Stream, a: nat, b: nat)
    requires a <= b
    ensures StatReads(stat, a, b + 1) == StatReads(stat, a, b) + [Rd(SPI1_STAT, At(stat, b))]
  {
  }

  /** What `spi_tx` has put on the bus once the bytes before `pos` are sent: the rest are still to come. */
  predicate TxInv(data: seq<u8>, pos: nat, ops: seq<Op>)
    requires pos <= |data|
  {
    Quiet(ops) + TxFrames(data[pos..]) == TxOps(data) && TxPolled(ops)
  }

  lemma TxStart(data: seq<u8>)
    requires data != []
    ensures TxInv(data, 0, [Wr(SPI1_CON, CON_TX)])
  {
    PlainStep([], Wr(SPI1_CON, CON_TX));
    assert data[0..] == data;
  }

  lemma TxEnd(data: seq<u8>, ops: seq<Op>)
    requires TxInv(data, |data|, ops)
    ensures Quiet(ops) == TxOps(data) && TxPolled(ops)
  {
    assert data[|data|..] == [];
  }

  /** Within a transmit frame of `f` bytes from `start`: its length, then the bytes up to `pos`. */
  predicate TxFrameInv(data: seq<u8>, start: nat, pos: nat, f: u32, frame: seq<Op>)
    requires start <= pos <= |data|
  {
    Quiet(frame) == [Wr(SPI1_FRM, f)] + DatWrites(data[start..pos]) && TxPolled(frame)
  }

  lemma TxFrameOpen(data: seq<u8>, start: nat, f: u32)
    requires start <= |data|
    ensures TxFrameInv(data, start, start, f, [Wr(SPI1_FRM, f)])
  {
    PlainStep([], Wr(SPI1_FRM, f));
    assert data[start..start] == [];
  }

  /** One byte sent after polls s0..s1-1, the last of which shows the FIFO not full. */
  lemma TxByte(stat: Stream, s0: nat, s1: nat, data: seq<u8>, start: nat, pos: nat, f: u32, frame: seq<Op>)
    requires s0 < s1 && !Shows(At(stat, s1 - 1), 4)
    requires start <= pos < |data| && TxFrameInv(data, start, pos, f, frame)
    ensures TxFrameInv(data, start, pos + 1, f, frame + (StatReads(stat, s0, s1) + [Wr(SPI1_DAT, data[pos])]))
  {
    var w := Wr(SPI1_DAT, data[pos]);
    TxStep(stat, s0, s1, frame, w);
    QuietOne(w);
    DatWritesSnoc(data, start, pos);
    Assoc([Wr(SPI1_FRM, f)], DatWrites(data[start..pos]), [w]);
  }

  /** A whole frame sent and its interrupt cleared after polls showing the FIFO empty. */
  /** A transmit frame of `f` bytes from `start`, complete with its interrupt clear. */
  predicate TxFrameDone(data: seq<u8>, start: nat, f: u32, frame: seq<Op>)
    requires start + f <= |data|
  {
    Quiet(frame) == [Wr(SPI1_FRM, f)] + DatWrites(data[start..start + f]) + [Wr(SPI1_STAT, INT_CLR)] && TxPolled(frame)
  }

  /** All bytes of the frame sent, the interrupt cleared after polls showing the FIFO empty. */
  lemma TxFrameClose(stat: Stream, s0: nat, s1: nat, data: seq<u8>, start: nat, f: u32, frame: seq<Op>)
    requires s0 < s1 && Shows(At(stat, s1 - 1), 1)
    requires start + f <= |data| && TxFrameInv(data, start, start + f, f, frame)
    ensures TxFrameDone(data, start, f, frame + (StatReads(stat, s0, s1) + [Wr(SPI1_STAT, INT_CLR)]))
  {
    var c := Wr(SPI1_STAT, INT_CLR);
    var last := frame + (StatReads(stat, s0, s1) + [c]);
    TxStep(stat, s0, s1, frame, c);
    QuietOne(c);
    assert Quiet(frame) == [Wr(SPI1_FRM, f)] + DatWrites(data[start..start + f]);
    assert Quiet(last) == Quiet(frame) + [c];
  }

  /** A complete frame of the length `spi_tx` chooses advances the transmit. */
  lemma TxFrameNext(data: seq<u8>, start: nat, f: u32, ops: seq<Op>, frame: seq<Op>)
    requires start < |data| && f == FrameLen(|data| - start)
    requires TxInv(data, start, ops) && TxFrameDone(data, start, f, frame)
    ensures TxInv(data, start + f, ops + frame)
  {
    var c := Wr(SPI1_STAT, INT_CLR);
    var head := [Wr(SPI1_FRM, f)] + DatWrites(data[start..start + f]);
    PacedAppend(ops, frame);
    QuietAppend(ops, frame);
    TxFrameStep(data, start, f);
    Assoc(Quiet(ops), head + [c], TxFrames(data[start + f..]));
  }

  lemma Assoc(a: seq<Op>, b: seq<Op>, c: seq<Op>)
    ensures a + b + c == a + (b + c)
  {
  }

  /** What `spi_rx` has put on the bus with `rem` bytes to go and the next data read numbered `next`. */
  predicate RxInv(dat: Stream, len: nat, d0: nat, rem: nat, next: nat, ops: seq<Op>)
  {
    Quiet(ops) + RxFrames(dat, rem, next) == RxOps(dat, len, d0) && RxPolled(ops)
  }

  lemma RxStart(dat: Stream, len: nat, d0: nat)
    requires len > 0
    ensures RxInv(dat, len, d0, len, d0, [Wr(SPI1_CON, CON_RX)])
  {
    PlainStep([], Wr(SPI1_CON, CON_RX));
  }

  /** The bus operations of one received byte, as the driver makes them, are ByteOps. */
  lemma RxTrace(t: seq<Op>, stat: Stream, s0: nat, s1: nat, shift: bool, x: u32)
    requires s0 <= s1
    ensures t + StatReads(stat, s0, s1) + [Rd(SPI1_STAT, At(stat, s1))] + (if shift then [Wr(SPI1_CON, CON_SHIFT_OFF)] else []) + [Rd(SPI1_DAT, x)]
         == t + ByteOps(stat, s0, s1 + 1, shift, x)
  {
    StatReadsSnoc(stat, s0, s1);
  }

  /** Within a receive frame of `f` bytes whose dummy read is number i0, after `n` bytes. */
  predicate RxFrameInv(dat: Stream, i0: nat, n: nat, f: u32, frame: seq<Op>)
  {
    Quiet(frame) == [Wr(SPI1_FRM, f), Rd(SPI1_DAT, At(dat, i0))] + DatReads(dat, i0 + 1, n) && RxPolled(frame)
  }

  lemma RxFrameOpen(dat: Stream, i0: nat, f: u32)
    ensures RxFrameInv(dat, i0, 0, f, [Wr(SPI1_FRM, f), Rd(SPI1_DAT, At(dat, i0))])
  {
    var frame := [Wr(SPI1_FRM, f), Rd(SPI1_DAT, At(dat, i0))];
    QuietPlain(frame);
    assert RxPacedAt(frame, 0) && RxPacedAt(frame, 1);
  }

  /**
   * One byte received: polls s0..c-2 ending with the FIFO not empty, the
   * second status read c-1, the shift-off rewrite exactly when that read
   * shows bit 0x08, data read i0 + 1 + n.
   */
  lemma RxByte(stat: Stream, s0: nat, c: nat, shift: bool, dat: Stream, i0: nat, n: nat, f: u32, frame: seq<Op>)
    requires s0 + 2 <= c && !Shows(At(stat, c - 2), 1) && shift == Shows(At(stat, c - 1), 8)
    requires RxFrameInv(dat, i0, n, f, frame)
    ensures RxFrameInv(dat, i0, n + 1, f, frame + ByteOps(stat, s0, c, shift, At(dat, i0 + 1 + n)))
  {
    RxStep(stat, s0, c, shift, At(dat, i0 + 1 + n), frame);
  }

  /** A receive frame of `f` bytes whose dummy read is number i0, complete with its interrupt clear. */
  predicate RxFrameDone(dat: Stream, i0: nat, f: u32, frame: seq<Op>)
  {
    Quiet(frame) == [Wr(SPI1_FRM, f), Rd(SPI1_DAT, At(dat, i0))] + DatReads(dat, i0 + 1, f) + [Wr(SPI1_STAT, INT_CLR)]
    && RxPolled(frame)
  }

  lemma RxFrameClose(dat: Stream, i0: nat, f: u32, frame: seq<Op>)
    requires RxFrameInv(dat, i0, f, f, frame)
    ensures RxFrameDone(dat, i0, f, frame + [Wr(SPI1_STAT, INT_CLR)])
  {
    RxClearStep(frame);
  }

  /** A complete frame of the length `spi_rx` chooses advances the receive. */
  lemma RxFrameNext(dat: Stream, len: nat, d0: nat, rem: nat, i0: nat, f: u32, ops: seq<Op>, frame: seq<Op>,
                    rem': nat, next: nat, ops': seq<Op>)
    requires rem > 0 && f == FrameLen(rem)
    requires RxInv(dat, len, d0, rem, i0, ops) && RxFrameDone(dat, i0, f, frame)
    requires rem' == rem - f && next == i0 + 1 + f && ops' == ops + frame
    ensures RxInv(dat, len, d0, rem', next, ops')
  {
    var c := Wr(SPI1_STAT, INT_CLR);
    var head := [Wr(SPI1_FRM, f), Rd(SPI1_DAT, At(dat, i0))] + DatReads(dat, i0 + 1, f);
    var tail := RxFrames(dat, rem - f, i0 + 1 + f);
    PacedAppend(ops, frame);
    QuietAppend(ops, frame);
    assert Quiet(ops + frame) == Quiet(ops) + (head + [c]);
    RxFrameStep(dat, rem, i0, f);
    Assoc(Quiet(ops), head + [c], tail);
  }

  /** One receive frame taken off the front of what is still to receive. */
  lemma RxFrameStep(dat: Stream, rem: nat, i0: nat, f: u32)
    requires rem > 0 && f == FrameLen(rem)
    ensures RxFrames(dat, rem, i0)
         == [Wr(SPI1_FRM, f), Rd(SPI1_DAT, At(dat, i0))] + DatReads(dat, i0 + 1, f) + [Wr(SPI1_STAT, INT_CLR)]
            + RxFrames(dat, rem - f, i0 + 1 + f)
  {
  }

  /** A chip-select session: chip select low, a transmit, a receive, chip select high. */
  function Session(tx: seq<Op>, rx: seq<Op>): seq<Op>
  {
    [Wr(P3_OUTP_CLR, CS_PIN)] + tx + rx + [Wr(P3_OUTP_SET, CS_PIN)]
  }

  /** The chip-select writes stay in the quiet trace around whatever the transfers leave. */
  lemma SessionQuiet(tx: seq<Op>, rx: seq<Op>)
    ensures Quiet(Session(tx, rx)) == Session(Quiet(tx), Quiet(rx))
  {
    var lo, hi := Wr(P3_OUTP_CLR, CS_PIN), Wr(P3_OUTP_SET, CS_PIN);
    QuietOne(lo);
    QuietOne(hi);
    QuietAppend([lo], tx);
    QuietAppend([lo] + tx, rx);
    QuietAppend([lo] + tx + rx, [hi]);
  }

  lemma SessionTrace(t: seq<Op>, tx: seq<Op>, rx: seq<Op>)
    ensures t + [Wr(P3_OUTP_CLR, CS_PIN)] + tx + rx + [Wr(P3_OUTP_SET, CS_PIN)] == t + Session(tx, rx)
  {
  }

  /** `spi_readflash`, polls set aside: chip select low, the command, the receive, chip select high. */
  function ReadflashOps(dat: Stream, addr: u32, len: nat, i: nat): seq<Op>
  {
    if len == 0 then [] else Session(TxOps(Command(addr)), RxOps(dat, len, i))
  }

  /** `spi_getid`, polls set aside. */
  function GetidOps(dat: Stream, i: nat): seq<Op>
  {
    Session(TxOps([READ_ID]), RxOps(dat, 3, i))
  }

  /** The register writes of `spi_init`, in order. */
  const InitOps: seq<Op> := [
    Wr(P2_MUX_CLR, 0x30), Wr(P2_DIR_SET, 0x6000_0000), Wr(P3_OUTP_SET, CS_PIN),
    Wr(SPI_CTRL, 0x03), Wr(SPI1_GLOBAL, 0x01), Wr(SPI1_GLOBAL, 0x03), Wr(SPI1_GLOBAL, 0x01)]
}

/**
 * `interrupt_decode_reg` of src/interrupt.c as it runs: the static `init`
 * flag and the three static six-record arrays `MicBlock_G`, `Sic1Block_G`
 * and `Sic2Block_G`, updated in place call after call.
 */
module Interrupt {
  import opened Word
  import opened Registers
  import opened IntBlocks

  /** `memset(blk, 0, sizeof blk)`. */
  method Clear(blk: array<RegRecord>)
    requires blk.Length == MAX_REG
    modifies blk
    ensures blk[..] == Zeros
  {
    forall k | 0 <= k < blk.Length {
      blk[k] := Empty;
    }
  }

  /** The counting loop run on each block after a record is stored. */
  method CountSet(blk: array<RegRecord>) returns (cnt: nat)
    ensures cnt == Count(blk[..])
  {
    cnt := 0;
    var i := 0;
    while i < blk.Length
      invariant 0 <= i <= blk.Length
      invariant cnt == Count(blk[..i])
    {
      assert blk[..i + 1][..i] == blk[..i];
      if blk[i].isSet {
        cnt := cnt + 1;
      }
      i := i + 1;
    }
    assert blk[..blk.Length] == blk[..];
  }

  /** `process_*_block`: the rows of bits 31 down to 0, each through `print_block_row`. */
  method ProcessBlock(names: seq<string>, blk: array<RegRecord>) returns (lines: seq<Line>)
    requires |names| == 32 && blk.Length == MAX_REG
    ensures lines == BlockText(names, blk[..])
  {
    var b := blk[..];
    lines := [];
    var i: int := 31;
    while i > -1
      invariant -1 <= i <= 31
      invariant lines + RowsDown(names, b, i) == BlockText(names, b)
    {
      var row := PrintBlockRow(Some(names[i]), Some(b), i);
      RowsDownStep(names, b, i);
      LinesAssoc(lines, row, RowsDown(names, b, i - 1));
      lines := lines + row;
      i := i - 1;
    }
  }

  class Decoder {
    /** The static `init` flag: true until the first call. */
    var init: bool
    const mic: array<RegRecord>
    const sic1: array<RegRecord>
    const sic2: array<RegRecord>

    function Block(b: BlockId): array<RegRecord>
    {
      match b
      case Mic => mic
      case Sic1 => sic1
      case Sic2 => sic2
    }

    /** The three blocks as values. */
    ghost function State(): Blocks
      reads mic, sic1, sic2
    {
      Blocks(mic[..], sic1[..], sic2[..])
    }

    ghost predicate Valid()
      reads this, mic, sic1, sic2
    {
      && mic.Length == MAX_REG && sic1.Length == MAX_REG && sic2.Length == MAX_REG
      && mic != sic1 && mic != sic2 && sic1 != sic2
      && (!init ==> State().NoneFull())
    }

    /** The statics at program start: zero-filled blocks and `init` still true. */
    constructor()
      ensures Valid() && init && State() == Cleared
    {
      init := true;
      mic := new RegRecord[MAX_REG](_ => Empty);
      sic1 := new RegRecord[MAX_REG](_ => Empty);
      sic2 := new RegRecord[MAX_REG](_ => Empty);
      new;
      assert mic[..] == Zeros && sic1[..] == Zeros && sic2[..] == Zeros;
    }

    /**
     * `interrupt_decode_reg(addr, val)`: returns the blocks it reported, in
     * order, and the lines of those reports.
     */
    method DecodeReg(addr: u32, val: u32) returns (flushed: seq<BlockId>, out: seq<Line>)
      requires Valid()
      modifies this`init, mic, sic1, sic2
      ensures Valid() && !init
      ensures Outcome(State(), flushed, out) == Decode(old(init), old(State()), addr, val)
    {
      ghost var first, s := init, State();
      DecodeKeepsNoneFull(first, s, addr, val);
      if init {
        init := false;
        Clear(mic);
        Clear(sic1);
        Clear(sic2);
      }
      assert State() == Start(first, s);
      flushed, out := [], [];
      var slot := Locate(addr);
      if slot.None? {
        return;
      }
      flushed, out := Store(slot.value, RegRecord(true, addr, val));
    }

    /** Store one record in its slot, then count and settle the three blocks in turn. */
    method Store(slot: Slot, rec: RegRecord) returns (flushed: seq<BlockId>, out: seq<Line>)
      requires mic.Length == MAX_REG && sic1.Length == MAX_REG && sic2.Length == MAX_REG
      requires mic != sic1 && mic != sic2 && sic1 != sic2
      requires slot.index < MAX_REG
      modifies mic, sic1, sic2
      ensures Outcome(State(), flushed, out) == Fill(old(State()), slot, rec)
    {
      ghost var s0 := State();
      var blk := Block(slot.block);
      blk[slot.index] := rec;
      assert State() == s0.Put(slot.block, s0.Get(slot.block)[slot.index := rec]);
      flushed, out := SettleBlock(Mic, [], []);
      flushed, out := SettleBlock(Sic1, flushed, out);
      flushed, out := SettleBlock(Sic2, flushed, out);
    }

    /** Count one block; when all six slots are recorded, report it and clear it. */
    method SettleBlock(b: BlockId, flushed: seq<BlockId>, out: seq<Line>)
      returns (flushed': seq<BlockId>, out': seq<Line>)
      requires mic.Length == MAX_REG && sic1.Length == MAX_REG && sic2.Length == MAX_REG
      requires mic != sic1 && mic != sic2 && sic1 != sic2
      modifies Block(b)
      ensures Outcome(State(), flushed', out') == Settle(Outcome(old(State()), flushed, out), b)
    {
      var blk := Block(b);
      var cnt := CountSet(blk);
      flushed', out' := flushed, out;
      if cnt == MAX_REG {
        var rows := ProcessBlock(Names(b), blk);
        out' := out' + rows;
        flushed' := flushed' + [b];
        Clear(blk);
      }
    }
  }
}

/**
 * The bitfield helpers of src/registers.c: `get_field` extracts the inclusive
 * bit range [high:low] of a register value, `print_field` renders that field
 * as "0b" followed by its bits, and `print_access` renders a permission.
 */
module Bitfield {
  import opened Word
  import opened Registers

  /** `((1 << bits) - 1) << low`, the mask of a field narrower than the word. */
  function FieldMask(bits: u32, low: u32): (m: u32)
    requires 1 <= bits < 32
  {
    ShlPow2(0, bits);
    Shl(Shl(1, bits) - 1, low)
  }

  /**
   * `get_field`: 0 for an empty or out-of-word range, otherwise the value
   * masked to bits high..low and shifted down by low.
   */
  function GetField(val: u32, high: u32, low: u32): u32
  {
    if high < low then 0
    else if high > 31 then 0
    else
      var bits := (high - low) + 1;
      var mask := if bits >= 32 then 0xffff_ffff else FieldMask(bits, low);
      Shr(And(val, mask), low)
  }

  /** Bit p of the field mask is set exactly for low <= p < low + bits. */
  lemma BitOfFieldMask(bits: u32, low: u32, p: nat)
    requires 1 <= bits < 32 && p < 32
    ensures Bit(FieldMask(bits, low), p) == (low <= p < low + bits)
  {
    Pow2Word();
    Pow2Monotone(bits, 32);
    ShlPow2(0, bits);
    BitOfShl(Pow2(bits) - 1, low, p);
    if low <= p {
      BitOfOnes(bits, p - low);
    }
  }

  /**
   * For a valid range, bit k of the field is bit low + k of the value when
   * k < high - low + 1, and clear otherwise.
   */
  lemma GetFieldBit(val: u32, high: u32, low: u32, k: nat)
    requires low <= high <= 31
    ensures Bit(GetField(val, high, low), k) == (k <= high - low && Bit(val, low + k))
  {
    var bits := (high - low) + 1;
    var mask := if bits >= 32 then 0xffff_ffff else FieldMask(bits, low);
    BitOfShr(And(val, mask), low, k);
    BitOfAnd(val, mask, low + k);
    if low + k >= 32 {
      Pow2Word();
      ShrBelow(val, 32, low + k);
    } else if bits >= 32 {
      Pow2Word();
      BitOfOnes(32, k);
    } else {
      BitOfFieldMask(bits, low, low + k);
    }
  }

  /** Bit p of the reference `(val >> low) & (2^bits - 1)` agrees with the field. */
  lemma ReferenceBit(val: u32, high: u32, low: u32, p: nat)
    requires low <= high <= 31 && p < 32
    ensures Pow2(high - low + 1) <= WORD
    ensures Bit(GetField(val, high, low), p) == Bit(And(Shr(val, low), Pow2(high - low + 1) - 1), p)
  {
    var bits := high - low + 1;
    Pow2Word();
    Pow2Monotone(bits, 32);
    GetFieldBit(val, high, low, p);
    BitOfAnd(Shr(val, low), Pow2(bits) - 1, p);
    BitOfShr(val, low, p);
    BitOfOnes(bits, p);
  }

  /**
   * What `get_field` promises: 0 for an invalid range; otherwise the value
   * shifted right by low and masked to high - low + 1 bits.
   */
  lemma GetFieldSpec(val: u32, high: u32, low: u32)
    ensures high < low || high > 31 ==> GetField(val, high, low) == 0
    ensures low <= high <= 31 ==>
      Pow2(high - low + 1) <= WORD &&
      GetField(val, high, low) == And(Shr(val, low), Pow2(high - low + 1) - 1)
  {
    if low <= high <= 31 {
      var r := GetField(val, high, low);
      Pow2Word();
      Pow2Monotone(high - low + 1, 32);
      var ref := And(Shr(val, low), Pow2(high - low + 1) - 1);
      forall p | 0 <= p < 32
        ensures Bit(r, p) == Bit(ref, p)
      {
        ReferenceBit(val, high, low, p);
      }
      BitsDetermine(r, ref, 32);
    }
  }

  /** A valid field fits in high - low + 1 bits. */
  lemma GetFieldBound(val: u32, high: u32, low: u32)
    requires low <= high <= 31
    ensures GetField(val, high, low) < Pow2(high - low + 1)
  {
    var r := GetField(val, high, low);
    Pow2Word();
    forall p | high - low + 1 <= p < 32
      ensures !Bit(r, p)
    {
      GetFieldBit(val, high, low, p);
    }
    ClearHighBits(r, high - low + 1, 32);
  }

  /** The whole-word field [31:0] is the value itself. */
  lemma GetFieldWhole(val: u32)
    ensures GetField(val, 31, 0) == val
  {
    Pow2Word();
    forall p | 0 <= p < 32
      ensures Bit(GetField(val, 31, 0), p) == Bit(val, p)
    {
      GetFieldBit(val, 31, 0, p);
    }
    BitsDetermine(GetField(val, 31, 0), val, 32);
  }

  function Digit(b: bool): char
  {
    if b then '1' else '0'
  }

  /** The n low bits of r as binary digits, most significant first. */
  function FieldDigits(r: u32, n: nat): (s: string)
    ensures |s| == n
  {
    seq(n, k requires 0 <= k < n => Digit(Bit(r, n - 1 - k)))
  }

  /**
   * The 35 characters `print_field` prints for an n-bit field r: "0b", the
   * digits, and the '.' fill of the buffer up to its terminator at index 35.
   */
  function FieldText(r: u32, n: nat): (s: string)
    requires 1 <= n <= 32
    ensures |s| == 35
  {
    "0b" + FieldDigits(r, n) + seq(33 - n, _ => '.')
  }

  /** Character k of the printed text: the prefix, a digit, or the fill. */
  lemma FieldTextAt(r: u32, n: nat, k: nat)
    requires 1 <= n <= 32 && k < 35
    ensures FieldText(r, n)[k] ==
      if k == 0 then '0' else if k == 1 then 'b' else if k < 2 + n then FieldDigits(r, n)[k - 2] else '.'
  {
  }

  /** Reading binary digits back, most significant first. */
  function ParseBinary(s: string): nat
  {
    if s == [] then 0 else 2 * ParseBinary(s[..|s| - 1]) + (if s[|s| - 1] == '1' then 1 else 0)
  }

  /** A value below 2^n is recovered from its n digits. */
  lemma {:induction false} ParseFieldDigits(r: u32, n: nat)
    requires r < Pow2(n)
    ensures ParseBinary(FieldDigits(r, n)) == r
    decreases n
  {
    if n > 0 {
      var s := FieldDigits(r, n);
      forall k | 0 <= k < n - 1
        ensures s[k] == FieldDigits(r / 2, n - 1)[k]
      {
        assert s[k] == Digit(Bit(r, n - 1 - k));
        assert FieldDigits(r / 2, n - 1)[k] == Digit(Bit(r / 2, n - 2 - k));
        assert Shr(r, n - 1 - k) == Shr(r / 2, n - 2 - k);
      }
      assert s[..n - 1] == FieldDigits(r / 2, n - 1);
      assert s[n - 1] == Digit(Bit(r, 0));
      ParseFieldDigits(r / 2, n - 1);
    }
  }

  /**
   * `print_field`: for an invalid range it prints nothing and returns 0;
   * otherwise it returns the field and prints FieldText of it.
   */
  method PrintField(val: u32, high: u32, low: u32) returns (r: u32, text: string)
    ensures r == GetField(val, high, low)
    ensures high < low || high > 31 ==> text == []
    ensures low <= high <= 31 ==> text == FieldText(r, high - low + 1)
  {
    if high < low {
      return 0, [];
    }
    if high > 31 {
      return 0, [];
    }
    var bits := (high - low) + 1;
    r := GetField(val, high, low);

    ghost var digits := FieldDigits(r, bits);
    var buf := new char[40](_ => '.');
    buf[0] := '0';
    buf[1] := 'b';
    var pos := 2;
    var i := 0;
    ShlPow2(0, bits - 1);
    var mask1bit := Shl(1, bits - 1);
    while i < bits
      invariant i <= bits && pos == 2 + i
      invariant i < bits ==> mask1bit == Pow2(bits - 1 - i)
      invariant buf[0] == '0' && buf[1] == 'b'
      invariant forall k :: 0 <= k < i ==> buf[2 + k] == digits[k]
      invariant forall p :: pos <= p < 40 ==> buf[p] == '.'
    {
      AndPow2(r, bits - 1 - i);
      if And(r, mask1bit) != 0 {
        buf[pos] := '1';
      } else {
        buf[pos] := '0';
      }
      pos := pos + 1;
      i := i + 1;
      assert Shr(mask1bit, 1) == mask1bit / 2;
      mask1bit := Shr(mask1bit, 1);
    }
    buf[35] := 0 as char;
    text := buf[..35];
    forall k | 0 <= k < 35
      ensures text[k] == FieldText(r, bits)[k]
    {
      FieldTextAt(r, bits, k);
    }
  }

  /**
   * Digit k of the printed field is bit high - k of the original value, and
   * the digits read back as the returned field.
   */
  lemma PrintedDigits(val: u32, high: u32, low: u32, k: nat)
    requires low <= high <= 31 && k <= high - low
    ensures FieldText(GetField(val, high, low), high - low + 1)[2 + k] == Digit(Bit(val, high - k))
    ensures ParseBinary(FieldDigits(GetField(val, high, low), high - low + 1)) == GetField(val, high, low)
  {
    var bits := high - low + 1;
    GetFieldBit(val, high, low, bits - 1 - k);
    GetFieldBound(val, high, low);
    ParseFieldDigits(GetField(val, high, low), bits);
  }

  /** `print_access`: "R" if the read bit is set, then "W" if the write bit is set. */
  function PrintAccess(a: Access): (s: string)
    ensures a == AccessRead ==> s == "R"
    ensures a == AccessWrite ==> s == "W"
    ensures a == AccessRW ==> s == "RW"
  {
    (if Readable(a) then "R" else "") + (if Writable(a) then "W" else "")
  }
}

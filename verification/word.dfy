/**
 * The 32-bit unsigned arithmetic of the C code (`uint32_t`): a value is an
 * integer in [0, 2^32), and the operators `<<`, `>>` and `&` are written out
 * so that their wrap-around is explicit. Bit p of a value is the parity of the
 * value shifted right p places.
 */
module Word {
  const WORD: int := 0x1_0000_0000

  type u32 = x: int | 0 <= x < WORD

  function Pow2(n: nat): (r: nat)
    ensures r >= 1
  {
    if n == 0 then 1 else 2 * Pow2(n - 1)
  }

  /** `x << n` on a uint32_t: each step doubles and drops what passes bit 31. */
  function Shl(x: u32, n: nat): u32
    decreases n
  {
    if n == 0 then x else Shl((2 * x) % WORD, n - 1)
  }

  /** `x >> n` on a uint32_t. */
  function Shr(x: u32, n: nat): u32
  {
    if n == 0 then x else Shr(x / 2, n - 1)
  }

  /** `x & y`, bit by bit from the least significant end. */
  function And(x: u32, y: u32): (r: u32)
    ensures r <= x && r <= y
    decreases x
  {
    if x == 0 || y == 0 then 0
    else 2 * And(x / 2, y / 2) + (if x % 2 == 1 && y % 2 == 1 then 1 else 0)
  }

  /** Bit p (0 = least significant) of x is set. */
  predicate Bit(x: u32, p: nat)
  {
    Shr(x, p) % 2 == 1
  }

  lemma Pow2Word()
    ensures Pow2(31) == 0x8000_0000 && Pow2(32) == WORD
  {
    assert Pow2(8) == 0x100;
    assert Pow2(16) == 0x1_0000;
    assert Pow2(24) == 0x100_0000;
  }

  lemma {:induction false} Pow2Monotone(m: nat, n: nat)
    requires m <= n
    ensures Pow2(m) <= Pow2(n)
    decreases n
  {
    if m < n {
      Pow2Monotone(m, n - 1);
    }
  }

  /** Shifting right by n and then by p is shifting right by n + p. */
  lemma {:induction false} ShrShr(x: u32, n: nat, p: nat)
    ensures Shr(Shr(x, n), p) == Shr(x, n + p)
    decreases n
  {
    if n > 0 {
      ShrShr(x / 2, n - 1, p);
    }
  }

  /** A value below 2^n has no bit at position n or above. */
  lemma {:induction false} ShrBelow(x: u32, n: nat, p: nat)
    requires x < Pow2(n) && n <= p
    ensures Shr(x, p) == 0 && !Bit(x, p)
    decreases p
  {
    if p > 0 {
      if n > 0 {
        ShrBelow(x / 2, n - 1, p - 1);
      } else {
        ShrBelow(x / 2, 0, p - 1);
      }
    }
  }

  lemma BitOfShr(x: u32, n: nat, p: nat)
    ensures Bit(Shr(x, n), p) == Bit(x, n + p)
  {
    ShrShr(x, n, p);
  }

  /** The bits of `x & y` are the conjunctions of the bits of x and y. */
  lemma {:induction false} BitOfAnd(x: u32, y: u32, p: nat)
    ensures Bit(And(x, y), p) == (Bit(x, p) && Bit(y, p))
    decreases p
  {
    if x == 0 || y == 0 {
      ShrBelow(0, 0, p);
      if x == 0 { assert Shr(x, p) == 0; } else { assert Shr(y, p) == 0; }
    } else if p > 0 {
      BitOfAnd(x / 2, y / 2, p - 1);
      assert And(x, y) / 2 == And(x / 2, y / 2);
    }
  }

  /** Two values below 2^k that agree on bits 0..k-1 are equal. */
  lemma {:induction false} BitsDetermine(x: u32, y: u32, k: nat)
    requires x < Pow2(k) && y < Pow2(k)
    requires forall p :: 0 <= p < k ==> Bit(x, p) == Bit(y, p)
    ensures x == y
    decreases k
  {
    if k == 0 {
    } else {
      assert Bit(x, 0) == Bit(y, 0);
      forall p | 0 <= p < k - 1
        ensures Bit(x / 2, p) == Bit(y / 2, p)
      {
        assert Bit(x, p + 1) == Bit(y, p + 1);
      }
      BitsDetermine(x / 2, y / 2, k - 1);
    }
  }

  /** A value all of whose bits from n up to 31 are clear is below 2^n. */
  lemma {:induction false} ClearHighBits(x: u32, n: nat, k: nat)
    requires n <= k && x < Pow2(k)
    requires forall p :: n <= p < k ==> !Bit(x, p)
    ensures x < Pow2(n)
    decreases n
  {
    if n == 0 {
      forall p | 0 <= p < k
        ensures Bit(x, p) == Bit(0, p)
      {
        ShrBelow(0, 0, p);
      }
      BitsDetermine(x, 0, k);
    } else {
      forall p | n - 1 <= p < k - 1
        ensures !Bit(x / 2, p)
      {
        assert !Bit(x, p + 1);
      }
      ClearHighBits(x / 2, n - 1, k - 1);
    }
  }

  /** 2^b - 1 has exactly the bits 0..b-1 set. */
  lemma {:induction false} BitOfOnes(b: nat, p: nat)
    requires Pow2(b) <= WORD
    ensures Bit(Pow2(b) - 1, p) == (p < b)
    decreases p
  {
    if b == 0 {
      ShrBelow(0, 0, p);
    } else if p > 0 {
      Pow2Monotone(b - 1, b);
      BitOfOnes(b - 1, p - 1);
      assert (Pow2(b) - 1) / 2 == Pow2(b - 1) - 1;
    }
  }

  /** 2^j has only bit j set. */
  lemma {:induction false} BitOfPow2(j: nat, p: nat)
    requires Pow2(j) < WORD
    ensures Bit(Pow2(j), p) == (p == j)
    decreases p
  {
    if j == 0 {
      if p > 0 { ShrBelow(0, 0, p - 1); }
    } else if p == 0 {
    } else {
      BitOfPow2(j - 1, p - 1);
    }
  }

  /** Shifting 2^a left by n without passing bit 31 gives 2^(a+n). */
  lemma ShlPow2(a: nat, n: nat)
    requires a + n < 32 && Pow2(a) < WORD
    ensures Shl(Pow2(a), n) == Pow2(a + n)
  {
    Pow2Word();
    Pow2Monotone(a + n, 31);
    ShlPow2Below(a, n);
  }

  lemma {:induction false} ShlPow2Below(a: nat, n: nat)
    requires Pow2(a) < WORD && Pow2(a + n) < WORD
    ensures Shl(Pow2(a), n) == Pow2(a + n)
    decreases n
  {
    if n > 0 {
      var x := Pow2(a);
      assert Pow2(a + 1) == 2 * x;
      Pow2Monotone(a + 1, a + n);
      assert (2 * x) % WORD == 2 * x;
      ShlPow2Below(a + 1, n - 1);
      assert Shl(x, n) == Shl((2 * x) % WORD, n - 1);
    }
  }

  /** A left shift moves bit p - n to bit p and clears the bits below n, wrapping at bit 32. */
  lemma {:induction false} BitOfShl(x: u32, n: nat, p: nat)
    requires p < 32
    ensures Bit(Shl(x, n), p) == (n <= p && Bit(x, p - n))
    decreases n
  {
    if n > 0 {
      BitOfShl((2 * x) % WORD, n - 1, p);
      if n - 1 <= p {
        BitOfDouble(x, p - (n - 1));
      }
    }
  }

  /** Doubling modulo 2^32 moves every bit up one place. */
  lemma BitOfDouble(x: u32, p: nat)
    requires p < 32
    ensures Bit((2 * x) % WORD, p) == (1 <= p && Bit(x, p - 1))
  {
    Pow2Word();
    if p > 0 {
      var w := (2 * x) % WORD;
      assert Shr(w, p) == Shr(w / 2, p - 1);
      if x < 0x8000_0000 {
        DivOfSum(WORD, 0, 2 * x);
        assert w == 2 * x;
        DivOfSum(2, x, 0);
      } else {
        DivOfSum(WORD, 1, 2 * x - WORD);
        assert w == 2 * (x - 0x8000_0000);
        DivOfSum(2, x - 0x8000_0000, 0);
        BitMinusPow2(x, 31, p - 1);
      }
    }
  }

  /** Subtracting 2^k does not disturb the bits below k. */
  lemma {:induction false} BitMinusPow2(x: u32, k: nat, q: nat)
    requires Pow2(k) <= x && q < k
    ensures Bit(x - Pow2(k), q) == Bit(x, q)
    decreases q
  {
    if q > 0 {
      assert (x - Pow2(k)) / 2 == x / 2 - Pow2(k - 1);
      BitMinusPow2(x / 2, k - 1, q - 1);
    }
  }

  /** `x & 2^j` is non-zero exactly when bit j of x is set. */
  lemma AndPow2(x: u32, j: nat)
    requires j < 32
    ensures Pow2(j) < WORD
    ensures (And(x, Pow2(j)) != 0) == Bit(x, j)
  {
    Pow2Word();
    Pow2Monotone(j, 31);
    var a := And(x, Pow2(j));
    BitOfAnd(x, Pow2(j), j);
    BitOfPow2(j, j);
    if a == 0 {
      ShrBelow(0, 0, j);
    } else {
      forall p | 0 <= p < 32 && p != j
        ensures !Bit(a, p)
      {
        BitOfAnd(x, Pow2(j), p);
        BitOfPow2(j, p);
      }
      if !Bit(x, j) {
        forall p | 0 <= p < 32
          ensures Bit(a, p) == Bit(0, p)
        {
          ShrBelow(0, 0, p);
        }
        BitsDetermine(a, 0, 32);
      }
    }
  }

  /** `x >> n` is division by 2^n. */
  lemma {:induction false} ShrDiv(x: u32, n: nat)
    ensures Shr(x, n) == x / Pow2(n)
    decreases n
  {
    if n > 0 {
      ShrDiv(x / 2, n - 1);
      HalveDiv(x, Pow2(n - 1));
    }
  }

  lemma HalveDiv(x: nat, m: nat)
    requires m > 0
    ensures (x / 2) / m == x / (2 * m)
  {
    var d := 2 * m;
    var q: int, r: int := x / d, x % d;
    var p := m * q;
    var h := r / 2;
    Double(m, q);
    assert x == 2 * (p + h) + r % 2;
    DivOfSum(2, p + h, r % 2);
    DivOfSum(m, q, h);
  }

  lemma Double(m: nat, q: int)
    ensures (2 * m) * q == 2 * (m * q)
  {
  }

  lemma DivOfSum(m: nat, q: int, r: nat)
    requires 0 <= r < m
    ensures (m * q + r) / m == q && (m * q + r) % m == r
  {
    var y := m * q + r;
    var q', r' := y / m, y % m;
    assert m * (q - q') == r' - r;
    MulAtLeast(m, q - q');
  }

  lemma MulAtLeast(m: nat, d: int)
    requires m > 0
    ensures d >= 1 ==> m * d >= m
    ensures d <= -1 ==> m * d + m <= 0
  {
  }

  /** `x & (2^n - 1)` keeps the low n bits: it is x modulo 2^n. */
  lemma {:induction false} AndLowOnes(x: u32, n: nat)
    requires Pow2(n) <= WORD
    ensures And(x, Pow2(n) - 1) == x % Pow2(n)
    decreases n, 1
  {
    if n == 0 {
      assert Pow2(n) - 1 == 0 && And(x, 0) == 0;
    } else {
      AndLowOnesSucc(x, n);
    }
  }

  lemma {:induction false} AndLowOnesSucc(x: u32, n: nat)
    requires 0 < n && Pow2(n) <= WORD
    ensures And(x, Pow2(n) - 1) == x % Pow2(n)
    decreases n, 0
  {
    var m, d := Pow2(n - 1), Pow2(n);
    assert d == 2 * m;
    AndLowOnes(x / 2, n - 1);
    AndLowStep(x, m, d);
  }

  /** One more low bit: from `x/2 & (m-1)` to `x & (2m-1)`. */
  lemma AndLowStep(x: u32, m: nat, d: nat)
    requires 0 < m && d == 2 * m && d <= WORD
    requires And(x / 2, m - 1) == (x / 2) % m
    ensures And(x, d - 1) == x % d
  {
    var y: u32 := d - 1;
    var h: u32, l: u32 := x / 2, m - 1;
    DivOfSum(2, l, 1);
    assert y / 2 == l && y % 2 == 1;
    AndOdd(x, y);
    assert And(x / 2, y / 2) == And(h, l);
    ModDouble(x, m, d);
    assert And(x, y) == 2 * (h % m) + x % 2;
  }

  /** With the low bit of y set, `x & y` keeps the low bit of x. */
  lemma AndOdd(x: u32, y: u32)
    requires y % 2 == 1
    ensures And(x, y) == 2 * And(x / 2, y / 2) + x % 2
  {
  }

  lemma ModDouble(x: nat, m: nat, d: nat)
    requires m > 0 && d == 2 * m
    ensures 2 * ((x / 2) % m) + x % 2 == x % d
  {
    var q: int, r: int := (x / 2) / m, (x / 2) % m;
    var p := m * q;
    Double(m, q);
    assert x == d * q + (2 * r + x % 2);
    DivOfSum(d, q, 2 * r + x % 2);
  }

  /**
   * `x & (2^k - 2^n)` clears the low n bits of a value below 2^k: it is x
   * rounded down to a multiple of 2^n.
   */
  lemma {:induction false} AndHighOnes(x: u32, k: nat, n: nat)
    requires n <= k && Pow2(k) <= WORD && x < Pow2(k)
    ensures Pow2(n) <= Pow2(k)
    ensures And(x, Pow2(k) - Pow2(n)) == x - x % Pow2(n)
    decreases n, 1
  {
    Pow2Monotone(n, k);
    if n == 0 {
      AndLowOnes(x, k);
      DivOfSum(Pow2(k), 0, x);
    } else if Pow2(k) == Pow2(n) {
      DivOfSum(Pow2(n), 0, x);
    } else {
      AndHighRec(x, k, n);
    }
  }

  lemma {:induction false} AndHighRec(x: u32, k: nat, n: nat)
    requires 0 < n <= k && Pow2(k) <= WORD && x < Pow2(k) && Pow2(n) < Pow2(k)
    ensures And(x, Pow2(k) - Pow2(n)) == x - x % Pow2(n)
    decreases n, 0
  {
    var d, m, h := Pow2(n), Pow2(n - 1), Pow2(k - 1);
    assert d == 2 * m && Pow2(k) == 2 * h;
    var x2: u32, y2: u32 := x / 2, h - m;
    AndHighOnes(x2, k - 1, n - 1);
    AndHighStep(x, Pow2(k) - d, x2, y2, m, d);
  }

  /** The inductive step of AndHighOnes: one low bit of mask and value set aside. */
  lemma AndHighStep(x: u32, y: u32, x2: u32, y2: u32, m: nat, d: nat)
    requires m > 0 && d == 2 * m && y == 2 * y2 && x2 == x / 2
    requires And(x2, y2) == x2 - x2 % m
    ensures And(x, y) == x - x % d
  {
    AndEven(x, y, x2, y2);
    RoundDownDouble(x, x2, And(x2, y2), And(x, y), m, d);
  }

  /** Rounding x/2 down to a multiple of m and doubling rounds x down to a multiple of 2m. */
  lemma RoundDownDouble(x: nat, x2: nat, a2: int, a: int, m: nat, d: nat)
    requires m > 0 && d == 2 * m && x2 == x / 2
    requires a2 == x2 - x2 % m && a == 2 * a2
    ensures a == x - x % d
  {
    ModDouble(x, m, d);
  }

  /** With the low bit of y clear, `x & y` has its low bit clear. */
  lemma AndEven(x: u32, y: u32, x2: u32, y2: u32)
    requires y == 2 * y2 && x2 == x / 2
    ensures And(x, y) == 2 * And(x2, y2)
  {
    assert y % 2 == 0 && y / 2 == y2;
  }

  /** The low byte: `x & 0xff` is x modulo 256. */
  lemma AndLowByte(x: u32)
    ensures And(x, 0xff) == x % 0x100
  {
    Pow2Word();
    Pow2Monotone(8, 32);
    assert Pow2(8) == 0x100;
    AndLowOnes(x, 8);
  }
}

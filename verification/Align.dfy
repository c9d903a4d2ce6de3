/** The mask arithmetic of include/dsio/align.hpp, related to division. */
module Align {
  import opened Common

  function Pow2(k: nat): (p: nat)
    ensures p > 0
  {
    if k == 0 then 1 else 2 * Pow2(k - 1)
  }

  /** Bitwise `&`, one bit at a time. */
  function BitAnd(x: nat, y: nat): (r: nat)
    ensures r <= x && r <= y
  {
    if x == 0 || y == 0 then 0 else 2 * BitAnd(x / 2, y / 2) + if x % 2 == 1 && y % 2 == 1 then 1 else 0
  }

  /** The definition with the zero cases folded in. */
  lemma {:induction false} BitAndStep(x: nat, y: nat)
    ensures BitAnd(x, y) == 2 * BitAnd(x / 2, y / 2) + if x % 2 == 1 && y % 2 == 1 then 1 else 0
  {
  }

  /** Bitwise `~` on a 64-bit word. */
  function BitNot(x: u64): u64 { TWO64 - 1 - x }

  /** The precondition every helper asserts. */
  predicate IsPowerOfTwo(alignment: nat) {
    alignment != 0 && BitAnd(alignment, alignment - 1) == 0
  }

  predicate IsAligned(value: u64, alignment: u64)
    requires IsPowerOfTwo(alignment)
  {
    BitAnd(value, alignment - 1) == 0
  }

  function AlignUp(value: u64, alignment: u64): u64
    requires IsPowerOfTwo(alignment)
  {
    BitAnd((value + alignment - 1) % TWO64, BitNot(alignment - 1))
  }

  function AlignDown(value: u64, alignment: u64): u64
    requires IsPowerOfTwo(alignment)
  {
    BitAnd(value, BitNot(alignment - 1))
  }

  // ----- bits and powers of two -----

  lemma {:induction false} PowIsPowerOfTwo(k: nat)
    ensures BitAnd(Pow2(k), Pow2(k) - 1) == 0
  {
    if k > 0 {
      PowIsPowerOfTwo(k - 1);
      assert (Pow2(k) - 1) / 2 == Pow2(k - 1) - 1;
    }
  }

  /** The exponent of a value that passes the assertion. */
  lemma {:induction false} Exponent(alignment: nat) returns (k: nat)
    requires IsPowerOfTwo(alignment)
    ensures alignment == Pow2(k)
  {
    if alignment == 1 {
      k := 0;
    } else {
      var half := alignment / 2;
      if alignment % 2 == 1 {
        assert BitAnd(alignment, alignment - 1) == 2 * BitAnd(half, half);
        SelfAnd(half);
        assert false;
      }
      assert BitAnd(alignment, alignment - 1) == 2 * BitAnd(half, half - 1);
      k := Exponent(half);
      k := k + 1;
    }
  }

  lemma {:induction false} SelfAnd(x: nat)
    ensures BitAnd(x, x) == x
  {
    if x > 0 { SelfAnd(x / 2); }
  }

  /** `alignment != 0 && (alignment & (alignment - 1)) == 0` says exactly "a power of two". */
  lemma {:induction false} PowerOfTwoTest(alignment: nat)
    ensures IsPowerOfTwo(alignment) <==> exists k :: alignment == Pow2(k)
  {
    if IsPowerOfTwo(alignment) {
      var k := Exponent(alignment);
    }
    forall k | alignment == Pow2(k) ensures IsPowerOfTwo(alignment) { PowIsPowerOfTwo(k); }
  }

  lemma {:induction false} DivModUnique(x: nat, d: nat, q: nat, r: nat)
    requires d > 0 && r < d && x == d * q + r
    ensures x / d == q && x % d == r
  {
    var q', r' := x / d, x % d;
    assert x == d * q' + r';
    MulMonotone(d, q' + 1, q);
    MulMonotone(d, q + 1, q');
  }

  /** Dividing by two shifts the remainder modulo a power of two. */
  lemma {:induction false} HalfMod(x: nat, k: nat)
    requires k > 0
    ensures x % Pow2(k) == 2 * ((x / 2) % Pow2(k - 1)) + x % 2
  {
    var p := Pow2(k - 1);
    var q, r := (x / 2) / p, (x / 2) % p;
    assert x / 2 == p * q + r;
    assert x == 2 * (p * q + r) + x % 2 == (2 * p) * q + (2 * r + x % 2);
    DivModUnique(x, 2 * p, q, 2 * r + x % 2);
  }

  /** The low `k` bits of a word are its remainder modulo `2^k`. */
  lemma {:induction false} LowMask(x: nat, k: nat)
    ensures BitAnd(x, Pow2(k) - 1) == x % Pow2(k)
    decreases k
  {
    if k == 0 {
    } else if x == 0 {
      DivModUnique(0, Pow2(k), 0, 0);
    } else {
      LowMask(x / 2, k - 1);
      HalfMod(x, k);
      LowMaskStep(x, Pow2(k - 1), x % Pow2(k), (x / 2) % Pow2(k - 1));
    }
  }

  /** One bit of `LowMask`: `m` is the mask of the higher bits, `r` and `h` the two remainders. */
  lemma {:induction false} LowMaskStep(x: nat, p: nat, r: nat, h: nat)
    requires p > 0 && r == 2 * h + x % 2 && BitAnd(x / 2, p - 1) == h
    ensures BitAnd(x, 2 * p - 1) == r
  {
    BitAndStep(x, 2 * p - 1);
    Halves(p - 1);
  }

  lemma {:induction false} Halves(m: nat)
    ensures (2 * m + 1) / 2 == m && (2 * m + 1) % 2 == 1 && 2 * m / 2 == m && 2 * m % 2 == 0
  {
  }

  lemma {:induction false} Pow2Monotone(k: nat, w: nat)
    requires k <= w
    ensures Pow2(k) <= Pow2(w)
  {
    if k < w { Pow2Monotone(k, w - 1); }
  }

  lemma {:induction false} AllBits(x: nat, w: nat)
    requires x < Pow2(w)
    ensures BitAnd(x, Pow2(w) - 1) == x
  {
    if w > 0 {
      var p := Pow2(w - 1);
      AllBits(x / 2, w - 1);
      BitAndStep(x, 2 * p - 1);
      Halves(p - 1);
    }
  }

  /** The high `w - k` bits and the low `k` bits make up a `w`-bit word. */
  lemma {:induction false} HighMask(x: nat, k: nat, w: nat)
    requires k <= w && x < Pow2(w)
    ensures Pow2(k) <= Pow2(w)
    ensures BitAnd(x, Pow2(w) - Pow2(k)) + BitAnd(x, Pow2(k) - 1) == x
    decreases w
  {
    hide BitAnd;
    Pow2Monotone(k, w);
    if k == 0 {
      AllBits(x, w);
    } else {
      var high, low, half := Pow2(w - 1), Pow2(k - 1), x / 2;
      assert half < high;
      HighMask(half, k - 1, w - 1);
      HighMaskStep(x, half, high, low);
    }
  }

  lemma {:induction false} HighMaskStep(x: nat, half: nat, high: nat, low: nat)
    requires 0 < low <= high && half == x / 2
    requires BitAnd(half, high - low) + BitAnd(half, low - 1) == half
    ensures BitAnd(x, 2 * high - 2 * low) + BitAnd(x, 2 * low - 1) == x
  {
    hide BitAnd;
    BitAndStep(x, 2 * high - 2 * low);
    BitAndStep(x, 2 * low - 1);
    Halves(high - low);
    Halves(low - 1);
  }

  lemma {:induction false} WordSize()
    ensures Pow2(64) == TWO64
  {
    assert Pow2(8) == 0x100;
    assert Pow2(16) == 0x1_0000;
    assert Pow2(24) == 0x100_0000;
    assert Pow2(32) == TWO32;
    assert Pow2(40) == 0x100_0000_0000;
    assert Pow2(48) == 0x1_0000_0000_0000;
    assert Pow2(56) == 0x100_0000_0000_0000;
  }

  lemma {:induction false} StrictlyBelow(k: nat, w: nat)
    requires Pow2(k) < Pow2(w)
    ensures k < w
  {
    if k >= w { Pow2Monotone(w, k); }
  }

  lemma {:induction false} ClearLowBits(x: u64, alignment: u64)
    requires IsPowerOfTwo(alignment)
    ensures BitAnd(x, BitNot(alignment - 1)) == x - x % alignment
  {
    var k := Exponent(alignment);
    WordSize();
    StrictlyBelow(k, 64);
    HighMask(x, k, 64);
    LowMask(x, k);
  }

  lemma {:induction false} NoWrap(x: nat)
    requires x < TWO64
    ensures x % TWO64 == x
  {
  }

  lemma {:induction false} KeepLowBits(x: u64, alignment: u64)
    requires IsPowerOfTwo(alignment)
    ensures BitAnd(x, alignment - 1) == x % alignment
  {
    var k := Exponent(alignment);
    LowMask(x, k);
  }

  // ----- what the helpers mean -----

  /** The masks compute the remainder and the rounding that division defines. */
  lemma {:induction false} MaskIsDivision(value: u64, alignment: u64)
    requires IsPowerOfTwo(alignment)
    ensures IsAligned(value, alignment) <==> value % alignment == 0
    ensures AlignDown(value, alignment) == value - value % alignment
    ensures value + alignment - 1 < TWO64 ==>
              var x := value + alignment - 1; AlignUp(value, alignment) == x - x % alignment
  {
    KeepLowBits(value, alignment);
    ClearLowBits(value, alignment);
    var x := value + alignment - 1;
    if x < TWO64 {
      NoWrap(x);
      ClearLowBits(x, alignment);
    }
  }

  /** `AlignDown` is the greatest multiple that is at most `value`. */
  lemma {:induction false} AlignDownGreatest(value: u64, alignment: u64)
    requires IsPowerOfTwo(alignment)
    ensures AlignDown(value, alignment) % alignment == 0 && AlignDown(value, alignment) <= value
    ensures forall m: nat :: m % alignment == 0 && m <= value ==> m <= AlignDown(value, alignment)
  {
    MaskIsDivision(value, alignment);
    FloorIsGreatest(value, alignment);
  }

  lemma {:induction false} FloorIsGreatest(x: nat, d: nat)
    requires d > 0
    ensures (x - x % d) % d == 0
    ensures forall m: nat :: m % d == 0 && m <= x ==> m <= x - x % d
  {
    var q := x / d;
    assert x - x % d == d * q;
    DivModUnique(d * q, d, q, 0);
    forall m: nat | m % d == 0 && m <= x ensures m <= d * q {
      MultipleAtMost(d, q, x % d, m / d, m);
    }
  }

  lemma {:induction false} MultipleAtMost(d: nat, q: nat, r: nat, n: nat, m: nat)
    requires r < d && m == d * n && m <= d * q + r
    ensures m <= d * q
  {
    MulMonotone(d, q + 1, n);
    MulMonotone(d, n, q);
  }

  lemma {:induction false} MulMonotone(d: nat, a: nat, b: nat)
    ensures a <= b ==> d * a <= d * b
  {
  }

  /** Without wrap-around `AlignUp` is the least multiple that is at least `value`. */
  lemma {:induction false} AlignUpLeast(value: u64, alignment: u64)
    requires IsPowerOfTwo(alignment)
    requires value + alignment - 1 < TWO64
    ensures AlignUp(value, alignment) % alignment == 0 && value <= AlignUp(value, alignment)
    ensures forall m: nat :: m % alignment == 0 && value <= m ==> AlignUp(value, alignment) <= m
  {
    var x := value + alignment - 1;
    MaskIsDivision(value, alignment);
    CeilingIsLeast(value, alignment);
  }

  lemma {:induction false} CeilingIsLeast(v: nat, d: nat)
    requires d > 0
    ensures var up := (v + d - 1) - (v + d - 1) % d; up % d == 0 && v <= up
    ensures forall m: nat :: m % d == 0 && v <= m ==> (v + d - 1) - (v + d - 1) % d <= m
  {
    var x := v + d - 1;
    var q := x / d;
    assert x == d * q + x % d;
    DivModUnique(d * q, d, q, 0);
    forall m: nat | m % d == 0 && v <= m ensures x - x % d <= m {
      assert m == d * (m / d);
      MulMonotone(d, q, m / d);
      MulMonotone(d, m / d + 1, q);
    }
  }

  /** `AlignUp` reaches `value` exactly when `value + alignment - 1` does not wrap; otherwise it is 0. */
  lemma {:induction false} AlignUpWraps(value: u64, alignment: u64)
    requires IsPowerOfTwo(alignment)
    ensures value <= AlignUp(value, alignment) <==> value + alignment - 1 < TWO64
    ensures value + alignment - 1 >= TWO64 ==> AlignUp(value, alignment) == 0
  {
    var x := value + alignment - 1;
    if x < TWO64 {
      AlignUpLeast(value, alignment);
    } else {
      var wrapped := x - TWO64;
      DivModUnique(x, TWO64, 1, wrapped);
      ClearLowBits(wrapped, alignment);
      assert wrapped < alignment;
      DivModUnique(wrapped, alignment, 0, wrapped);
    }
  }

  /** Where `AlignUp` wraps, the value is unaligned and its two roundings differ. */
  lemma {:induction false} WrappedIsUnaligned(value: u64, alignment: u64)
    requires IsPowerOfTwo(alignment) && value + alignment - 1 >= TWO64
    ensures AlignUp(value, alignment) == 0 < AlignDown(value, alignment) && !IsAligned(value, alignment)
  {
    hide BitAnd, Pow2, IsPowerOfTwo;
    AlignUpWraps(value, alignment);
    MaskIsDivision(value, alignment);
    DividesWord(alignment);
    var n := TWO64 / alignment;
    assert TWO64 == alignment * n;
    if n >= 2 { MulMonotone(alignment, 2, n); }
    if IsAligned(value, alignment) { MultipleRoundsUp(value, alignment); }
  }

  /** Both roundings are multiples; unless it wraps to 0, the upper one reaches the value. */
  lemma {:induction false} RoundingsAreMultiples(value: u64, alignment: u64)
    requires IsPowerOfTwo(alignment)
    ensures AlignDown(value, alignment) % alignment == 0 == AlignUp(value, alignment) % alignment
    ensures AlignDown(value, alignment) <= value
    ensures value <= AlignUp(value, alignment) || (AlignUp(value, alignment) == 0 < AlignDown(value, alignment) && !IsAligned(value, alignment))
  {
    hide BitAnd, Pow2, IsPowerOfTwo;
    AlignDownGreatest(value, alignment);
    if value + alignment - 1 < TWO64 {
      AlignUpLeast(value, alignment);
    } else {
      WrappedIsUnaligned(value, alignment);
      DivModUnique(0, alignment, 0, 0);
    }
  }

  /** Both roundings are idempotent, and they agree exactly on aligned values, even where `AlignUp`
      wraps to 0. */
  lemma {:induction false} RoundingsAgree(value: u64, alignment: u64)
    requires IsPowerOfTwo(alignment)
    ensures AlignDown(AlignDown(value, alignment), alignment) == AlignDown(value, alignment)
    ensures AlignUp(AlignUp(value, alignment), alignment) == AlignUp(value, alignment)
    ensures AlignDown(value, alignment) == AlignUp(value, alignment) <==> IsAligned(value, alignment)
  {
    hide BitAnd, Pow2, IsPowerOfTwo, AlignUp, AlignDown, IsAligned;
    RoundingsAreMultiples(value, alignment);
    MaskIsDivision(value, alignment);
    MaskIsDivision(AlignDown(value, alignment), alignment);
    MultipleRoundsUp(AlignUp(value, alignment), alignment);
    if IsAligned(value, alignment) { MultipleRoundsUp(value, alignment); }
  }

  /** A multiple is its own rounding: `alignment - 1` more never wraps past a multiple. */
  lemma {:induction false} MultipleRoundsUp(m: u64, alignment: u64)
    requires IsPowerOfTwo(alignment) && m % alignment == 0
    ensures AlignUp(m, alignment) == m
  {
    hide BitAnd, Pow2;
    DividesWord(alignment);
    var q, n := m / alignment, TWO64 / alignment;
    assert m == alignment * q;
    assert TWO64 == alignment * n;
    MultipleBelow(alignment, q, n);
    DivModUnique(m + alignment - 1, alignment, q, alignment - 1);
    MaskIsDivision(m, alignment);
  }

  lemma {:induction false} DividesWord(alignment: u64)
    requires IsPowerOfTwo(alignment)
    ensures TWO64 % alignment == 0
  {
    var k := Exponent(alignment);
    WordSize();
    StrictlyBelow(k, 64);
    PowDivides(k, 64);
  }

  lemma {:induction false} MultipleBelow(d: nat, q: nat, n: nat)
    requires d * q < d * n
    ensures d * q + d <= d * n
  {
    MulMonotone(d, n, q);
    MulMonotone(d, q + 1, n);
  }

  lemma {:induction false} PowDivides(k: nat, w: nat)
    requires k <= w
    ensures Pow2(w) % Pow2(k) == 0
  {
    if k < w {
      PowDivides(k, w - 1);
      var q := Pow2(w - 1) / Pow2(k);
      assert Pow2(w - 1) == Pow2(k) * q;
      assert Pow2(w) == Pow2(k) * (2 * q);
      DivModUnique(Pow2(w), Pow2(k), 2 * q, 0);
    } else {
      DivModUnique(Pow2(w), Pow2(k), 1, 0);
    }
  }

  // ----- sums of multiples -----

  lemma {:induction false} SumAligned(a: nat, b: nat, d: nat)
    requires d > 0 && a % d == 0 && b % d == 0
    ensures (a + b) % d == 0
  {
    var m, n := a / d, b / d;
    assert a == d * m && b == d * n;
    assert a + b == d * (m + n);
    DivModUnique(a + b, d, m + n, 0);
  }

  lemma {:induction false} DifferenceAligned(a: nat, b: nat, d: nat)
    requires d > 0 && b <= a && a % d == 0 && b % d == 0
    ensures (a - b) % d == 0
  {
    var m, n := a / d, b / d;
    assert a == d * m && b == d * n;
    assert a - b == d * (m - n);
    if m < n {
      MulMonotone(d, m, n);
    }
    DivModUnique(a - b, d, m - n, 0);
  }

  lemma {:induction false} MultipleOfMultiple(x: nat, block: nat, sector: nat)
    requires block > 0 && sector > 0 && x % block == 0 && block % sector == 0
    ensures x % sector == 0
  {
    var m, n := x / block, block / sector;
    assert x == block * m && block == sector * n;
    assert x == sector * (n * m);
    DivModUnique(x, sector, n * m, 0);
  }

  lemma {:induction false} SelfMultiple(block: nat)
    requires block > 0
    ensures block % block == 0
  {
    DivModUnique(block, block, 1, 0);
  }
}

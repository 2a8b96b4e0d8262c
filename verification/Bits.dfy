/** Machine words of the 64-bit target, and the bit operators `align_up` is written with.
    Words are natural numbers below `USIZE`; the bit operators are defined bit by bit. */
module Bits {
  /** One more than `usize::MAX`. */
  const USIZE := 0x1_0000_0000_0000_0000
  const ISIZE_MAX := 0x7FFF_FFFF_FFFF_FFFF

  function Pow2(k: nat): (p: nat)
    ensures p > 0
  {
    if k == 0 then 1 else 2 * Pow2(k - 1)
  }

  /** `x & 1 == 1` and `x >> 1`, counted off in twos. */
  predicate Odd(x: nat) {
    if x < 2 then x == 1 else Odd(x - 2)
  }

  function Half(x: nat): (h: nat)
    ensures x > 0 ==> h < x
    ensures x == 0 ==> h == 0
  {
    if x < 2 then 0 else 1 + Half(x - 2)
  }

  lemma {:induction false} HalfOdd(x: nat)
    ensures Half(x) == x / 2 && (Odd(x) <==> x % 2 == 1)
  {
    if x >= 2 { HalfOdd(x - 2); }
  }

  /** Bit `i` of `x`, counted from the least significant. */
  predicate Bit(x: nat, i: nat) {
    if i == 0 then Odd(x) else Bit(Half(x), i - 1)
  }

  function And(x: nat, y: nat): nat
    decreases x
  {
    if x == 0 then 0 else (if Odd(x) && Odd(y) then 1 else 0) + 2 * And(Half(x), Half(y))
  }

  function Not(x: nat): nat
    requires x < USIZE
  {
    USIZE - 1 - x
  }

  ghost predicate IsPow2(n: nat) {
    exists k: nat :: n == Pow2(k)
  }

  /** A nonzero multiple of `d` is at least `d` away from zero. */
  lemma MulGap(k: int, d: int)
    requires d >= 0
    ensures k >= 1 ==> k * d >= d
    ensures k <= -1 ==> k * d <= -d
  {
    if k >= 1 { assert k * d == d + (k - 1) * d; }
    if k <= -1 { assert k * d == -d + (k + 1) * d; }
  }

  lemma Distribute(a: int, b: int, d: int)
    ensures (a - b) * d == a * d - b * d
  {
  }

  lemma DivUnique(x: nat, d: nat, q: nat, r: nat)
    requires d > 0 && x == q * d + r && r < d
    ensures x / d == q && x % d == r
  {
    var q', r' := x / d, x % d;
    assert x == q' * d + r' && 0 <= r' < d;
    Distribute(q, q', d);
    MulGap(q - q', d);
  }

  lemma HalfMod(x: nat, p: nat)
    requires p > 0
    ensures x % (2 * p) == 2 * (x / 2 % p) + x % 2
  {
    var q, r := x / 2 / p, x / 2 % p;
    assert x / 2 == q * p + r;
    assert q * (2 * p) == 2 * (q * p);
    DivUnique(x, 2 * p, q, 2 * r + x % 2);
  }

  /** `And` is the bitwise conjunction. */
  lemma {:induction false} AndBits(x: nat, y: nat, i: nat)
    ensures Bit(And(x, y), i) <==> Bit(x, i) && Bit(y, i)
    decreases i
  {
    var a := And(x, y);
    HalfOdd(a);
    if x == 0 {
      ZeroBits(i);
    } else if i > 0 {
      assert Half(a) == And(Half(x), Half(y));
      AndBits(Half(x), Half(y), i - 1);
    }
  }

  /** The complement to `w` one bits is the bitwise negation, bit by bit. */
  lemma {:induction false} ComplementBits(x: nat, w: nat, i: nat)
    requires x < Pow2(w) && i < w
    ensures Bit(Pow2(w) - 1 - x, i) <==> !Bit(x, i)
    decreases w
  {
    var y := Pow2(w) - 1 - x;
    HalfOdd(x);
    HalfOdd(y);
    assert y % 2 == 1 - x % 2 && y / 2 == Pow2(w - 1) - 1 - x / 2;
    if i > 0 { ComplementBits(x / 2, w - 1, i - 1); }
  }

  lemma {:induction false} ZeroBits(i: nat)
    ensures !Bit(0, i)
  {
    if i > 0 { ZeroBits(i - 1); }
  }

  lemma {:induction false} Pow2Monotone(j: nat, k: nat)
    requires j <= k
    ensures Pow2(j) <= Pow2(k)
    ensures Pow2(k) % Pow2(j) == 0
    decreases k - j
  {
    if j < k {
      Pow2Monotone(j, k - 1);
      var q := Pow2(k - 1) / Pow2(j);
      assert Pow2(k) == (2 * q) * Pow2(j) + 0;
      DivUnique(Pow2(k), Pow2(j), 2 * q, 0);
    }
  }

  /** One step of `And`: the low bits, then the rest. */
  lemma AndStep(x: nat, y: nat, b: nat)
    requires b < 2
    ensures And(x, 2 * y + b) == (if x % 2 == 1 == b then 1 else 0) + 2 * And(x / 2, y)
  {
    HalfOdd(x);
    HalfOdd(2 * y + b);
  }

  lemma {:induction false} AndOnes(x: nat, w: nat)
    requires x < Pow2(w)
    ensures And(x, Pow2(w) - 1) == x
    decreases w
  {
    if w > 0 {
      AndStep(x, Pow2(w - 1) - 1, 1);
      AndOnes(x / 2, w - 1);
    }
  }

  lemma Pow2Double(k: nat)
    requires k > 0
    ensures Pow2(k) == 2 * Pow2(k - 1)
  {
  }

  /** One more bit on both sides. */
  lemma MaskStep(x: nat, high: nat, low: nat)
    requires 0 < low <= high && And(x / 2, high - low) == x / 2 - x / 2 % low
    ensures And(x, 2 * high - 2 * low) == x - x % (2 * low)
  {
    hide And;
    AndStep(x, high - low, 0);
    HalfMod(x, low);
  }

  /** Masking off the low `k` bits of a `w`-bit word rounds it down to a multiple of 2^k. */
  lemma {:induction false} MaskRoundsDown(x: nat, k: nat, w: nat)
    requires x < Pow2(w) && k <= w
    ensures Pow2(k) <= Pow2(w)
    ensures And(x, Pow2(w) - Pow2(k)) == x - x % Pow2(k)
    decreases k
  {
    hide And;
    Pow2Monotone(k, w);
    if k == 0 {
      AndOnes(x, w);
    } else {
      Pow2Double(w);
      Pow2Double(k);
      hide Pow2;
      MaskRoundsDown(x / 2, k - 1, w - 1);
      MaskStep(x, Pow2(w - 1), Pow2(k - 1));
    }
  }

  lemma Pow2Of64()
    ensures Pow2(64) == USIZE
  {
    assert Pow2(8) == 256;
    assert Pow2(16) == 0x1_0000;
    assert Pow2(24) == 0x100_0000;
    assert Pow2(32) == 0x1_0000_0000;
    assert Pow2(40) == 0x100_0000_0000;
    assert Pow2(48) == 0x1_0000_0000_0000;
    assert Pow2(56) == 0x100_0000_0000_0000;
  }

  /** `Not` is the bitwise negation of a 64-bit word. */
  lemma NotBits(x: nat, i: nat)
    requires x < USIZE && i < 64
    ensures Bit(Not(x), i) <==> !Bit(x, i)
  {
    Pow2Of64();
    hide Pow2, Bit;
    ComplementBits(x, 64, i);
  }

  lemma MultipleBelow(x: nat, d: nat)
    requires d > 0
    ensures (x - x % d) % d == 0
    ensures x - d < x - x % d <= x
  {
    DivUnique(x - x % d, d, x / d, 0);
  }

  lemma MultiplesApart(m: nat, n: nat, d: nat)
    requires d > 0 && m % d == 0 && n % d == 0
    ensures m >= n || m <= n - d
  {
    Distribute(m / d, n / d, d);
    MulGap(m / d - n / d, d);
  }

  /** src/memory/allocator.rs:54: `(value + align - 1) & !(align - 1)`. The sum must not overflow. */
  function AlignUp(value: nat, align: nat): nat
    requires 0 < align < USIZE && value + align - 1 < USIZE
  {
    And(value + align - 1, Not(align - 1))
  }

  lemma AlignUpRounds(value: nat, align: nat)
    requires IsPow2(align) && align < USIZE && value + align - 1 < USIZE
    ensures AlignUp(value, align) == value + align - 1 - (value + align - 1) % align
  {
    var k: nat :| align == Pow2(k);
    Pow2Of64();
    if k > 64 { Pow2Monotone(64, k); }
    hide Pow2, And;
    MaskRoundsDown(value + align - 1, k, 64);
  }

  lemma AlignUpBounds(value: nat, align: nat)
    requires IsPow2(align) && align < USIZE && value + align - 1 < USIZE
    ensures AlignUp(value, align) % align == 0
    ensures value <= AlignUp(value, align) < value + align
  {
    assert align > 0;
    hide AlignUp, IsPow2;
    AlignUpRounds(value, align);
    MultipleBelow(value + align - 1, align);
  }

  /** For a power of two the mask form is the least multiple of `align` that is not below `value`. */
  lemma AlignUpIsLeastMultiple(value: nat, align: nat)
    requires IsPow2(align) && align < USIZE && value + align - 1 < USIZE
    ensures AlignUp(value, align) % align == 0
    ensures value <= AlignUp(value, align)
    ensures forall m: nat :: m >= value && m % align == 0 ==> m >= AlignUp(value, align)
  {
    AlignUpBounds(value, align);
    forall m: nat | m >= value && m % align == 0
      ensures m >= AlignUp(value, align)
    {
      MultiplesApart(m, AlignUp(value, align), align);
    }
  }
}

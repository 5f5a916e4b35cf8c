/** Unsigned-word arithmetic shared by the kernel (include/private/utils.h).

    Words are naturals.  `And` and `Or` are C's bitwise operators, defined bit by bit, so that
    the masking and smearing tricks of the source are proved rather than assumed. */
module Bits {

  const TWO31: nat := 0x8000_0000
  const TWO32: nat := 0x1_0000_0000

  function Pow2(k: nat): (r: nat)
    ensures r > 0
  {
    if k == 0 then 1 else 2 * Pow2(k - 1)
  }

  function And(x: nat, y: nat): (r: nat)
    ensures r <= x && r <= y
  {
    if x == 0 || y == 0 then 0 else 2 * And(x / 2, y / 2) + (if x % 2 == 1 && y % 2 == 1 then 1 else 0)
  }

  function Or(x: nat, y: nat): (r: nat)
    ensures x <= r && y <= r && r <= x + y
    decreases x + y
  {
    if x == 0 then y else if y == 0 then x
    else 2 * Or(x / 2, y / 2) + (if x % 2 == 1 || y % 2 == 1 then 1 else 0)
  }

  /** `ispowerof2`. */
  predicate IsPowerOf2(x: nat) {
    x != 0 && And(x, x - 1) == 0
  }

  /** `ALIGN4` on a 32-bit word, wrap-around included. */
  function Align4(x: nat): (r: nat)
    requires x < TWO32
    ensures r % 4 == 0
    ensures x <= TWO32 - 4 ==> x <= r < x + 4
    ensures x > TWO32 - 4 ==> r == 0
  {
    ((x + 3) % TWO32) / 4 * 4
  }

  /** The least power of two that is at least `x`, defined by halving. */
  function CeilPow2(x: nat): (r: nat)
    ensures r > 0
  {
    if x <= 1 then 1 else 2 * CeilPow2((x + 1) / 2)
  }

  // ----- powers of two

  lemma {:induction false} Pow2Add(a: nat, b: nat)
    ensures Pow2(a + b) == Pow2(a) * Pow2(b)
  {
    if a > 0 {
      Pow2Add(a - 1, b);
      DoubleProduct(Pow2(b), Pow2(a - 1));
    }
  }

  lemma {:induction false} Pow2Monotone(a: nat, b: nat)
    requires a <= b
    ensures Pow2(a) <= Pow2(b)
    ensures a < b ==> 2 * Pow2(a) <= Pow2(b)
  {
    if a < b { Pow2Monotone(a, b - 1); }
  }

  /** The bit trick of `ispowerof2` holds of exactly the powers of two. */
  lemma {:induction false} IsPowerOf2Iff(x: nat)
    ensures IsPowerOf2(x) <==> exists k: nat :: x == Pow2(k)
  {
    if IsPowerOf2(x) {
      var k := Log2(x);
    }
    if k: nat :| x == Pow2(k) { PowerHasOneBit(k); }
  }

  lemma {:induction false} PowerHasOneBit(k: nat)
    ensures IsPowerOf2(Pow2(k))
  {
    if k > 0 {
      PowerHasOneBit(k - 1);
      var h := Pow2(k - 1);
      assert (2 * h - 1) / 2 == h - 1;
    }
  }

  lemma {:induction false} AndSelf(x: nat)
    ensures And(x, x) == x
  {
    if x > 0 { AndSelf(x / 2); }
  }

  lemma {:induction false} Log2(x: nat) returns (k: nat)
    requires IsPowerOf2(x)
    ensures x == Pow2(k)
  {
    if x == 1 {
      k := 0;
    } else if x % 2 == 0 {
      assert (x - 1) / 2 == x / 2 - 1;
      k := Log2(x / 2);
      k := k + 1;
    } else {
      AndSelf(x / 2);
      assert false;
    }
  }

  // ----- masks and shifts

  /** The low `k` bits of a word, and the word shifted right by `k`. */
  function Low(x: nat, k: nat): (r: nat)
    ensures r < Pow2(k)
  {
    if k == 0 then 0 else 2 * Low(x / 2, k - 1) + x % 2
  }

  function Shr(x: nat, k: nat): nat {
    if k == 0 then x else Shr(x / 2, k - 1)
  }

  lemma {:induction false} SplitBits(x: nat, k: nat)
    ensures x == Shr(x, k) * Pow2(k) + Low(x, k)
    decreases k
  {
    if k > 0 {
      SplitBits(x / 2, k - 1);
      DoubleProduct(Shr(x / 2, k - 1), Pow2(k - 1));
    }
  }

  lemma DoubleProduct(a: nat, b: nat)
    ensures a * (2 * b) == 2 * (a * b)
  {
  }

  lemma {:induction false} MulMonotone(a: int, b: int, d: int)
    requires a < b && 0 < d
    ensures a * d + d <= b * d
    decreases b - a
  {
    if a + 1 < b { MulMonotone(a, b - 1, d); }
    assert (b - 1) * d + d == b * d;
  }

  /** The quotient and remainder of a division are unique. */
  lemma ModUnique(x: int, d: int, q: int, r: int)
    requires 0 <= r < d && x == q * d + r
    ensures x / d == q && x % d == r
  {
    var q' := x / d;
    assert x == q' * d + x % d;
    if q < q' { MulMonotone(q, q', d); }
    if q' < q { MulMonotone(q', q, d); }
  }

  /** Shifting and masking are division by a power of two. */
  lemma ShiftIsDiv(x: nat, k: nat)
    ensures Shr(x, k) == x / Pow2(k) && Low(x, k) == x % Pow2(k)
  {
    SplitBits(x, k);
    ModUnique(x, Pow2(k), Shr(x, k), Low(x, k));
  }

  lemma {:induction false} AndMask(x: nat, k: nat)
    ensures And(x, Pow2(k) - 1) == Low(x, k)
    decreases k
  {
    if x == 0 {
      LowZero(k);
    } else if k > 0 {
      AndMask(x / 2, k - 1);
      AndOdd(x, Pow2(k - 1));
    }
  }

  lemma AndOdd(x: nat, h: nat)
    requires h > 0
    ensures And(x, 2 * h - 1) == 2 * And(x / 2, h - 1) + x % 2
  {
  }

  lemma {:induction false} LowZero(k: nat)
    ensures Low(0, k) == 0
  {
    if k > 0 { LowZero(k - 1); }
  }

  /** Masking by `size - 1` is reduction modulo a power-of-two `size`. */
  lemma MaskIsMod(x: nat, size: nat)
    requires IsPowerOf2(size)
    ensures And(x, size - 1) == x % size
  {
    var k := Log2(size);
    AndMask(x, k);
    ShiftIsDiv(x, k);
  }

  /** Setting a bit below every set bit of `q` is addition. */
  lemma {:induction false} OrFreshBit(q: nat, k: nat)
    requires Low(q, k + 1) == 0
    ensures Or(q, Pow2(k)) == q + Pow2(k)
    decreases k
  {
    if k > 0 { OrFreshBit(q / 2, k - 1); }
  }

  /** OR-ing into the low `m` bits leaves the bits above them. */
  lemma {:induction false} OrLow(x: nat, z: nat, m: nat)
    requires z < Pow2(m)
    ensures Or(x, z) + Low(x, m) >= x + z
    decreases m
  {
    if m > 0 { OrLow(x / 2, z / 2, m - 1); }
  }

  lemma {:induction false} OrBound(x: nat, y: nat, k: nat)
    requires x < Pow2(k) && y < Pow2(k)
    ensures Or(x, y) < Pow2(k)
    decreases k
  {
    if k > 0 { OrBound(x / 2, y / 2, k - 1); }
  }

  lemma {:induction false} ShrShrinks(y: nat, w: nat)
    ensures Shr(y, w) <= y
    decreases w
  {
    if w > 0 { ShrShrinks(y / 2, w - 1); }
  }

  // ----- single bits

  function BitOf(x: nat, i: nat): (r: nat)
    ensures r <= 1
  {
    if i == 0 then x % 2 else BitOf(x / 2, i - 1)
  }

  lemma {:induction false} BitOfZero(i: nat)
    ensures BitOf(0, i) == 0
  {
    if i > 0 { BitOfZero(i - 1); }
  }

  /** `x & (1 << i)` tests bit `i`. */
  lemma {:induction false} AndBit(x: nat, i: nat)
    ensures And(x, Pow2(i)) != 0 <==> BitOf(x, i) == 1
    decreases i
  {
    if x == 0 {
      BitOfZero(i);
    } else if i == 0 {
      assert And(x / 2, 0) == 0;
    } else {
      AndBit(x / 2, i - 1);
    }
  }

  /** `x |= 1 << i` sets bit `i` and no other. */
  lemma {:induction false} OrBit(x: nat, i: nat, j: nat)
    ensures BitOf(Or(x, Pow2(i)), j) == if i == j then 1 else BitOf(x, j)
    decreases i
  {
    if x == 0 {
      PowBit(i, j);
      BitOfZero(j);
    } else if i > 0 {
      if j > 0 { OrBit(x / 2, i - 1, j - 1); }
    } else if j > 0 {
      assert Or(x, 1) / 2 == x / 2;
    }
  }

  lemma {:induction false} PowBit(i: nat, j: nat)
    ensures BitOf(Pow2(i), j) == if i == j then 1 else 0
    decreases i
  {
    if i == 0 {
      if j > 0 { BitOfZero(j - 1); }
    } else if j > 0 {
      PowBit(i - 1, j - 1);
    }
  }

  lemma {:induction false} AndBits(x: nat, y: nat, j: nat)
    ensures BitOf(And(x, y), j) == if BitOf(x, j) == 1 && BitOf(y, j) == 1 then 1 else 0
    decreases j
  {
    if x == 0 || y == 0 {
      BitOfZero(j);
    } else if j > 0 {
      AndBits(x / 2, y / 2, j - 1);
    }
  }

  lemma {:induction false} NotBit(i: nat, j: nat, k: nat)
    requires i < k && j < k
    ensures Pow2(i) < Pow2(k) && BitOf(Pow2(k) - 1 - Pow2(i), j) == if i == j then 0 else 1
    decreases k
  {
    Pow2Monotone(i, k);
    var m := Pow2(k) - 1 - Pow2(i);
    if i > 0 {
      Pow2Monotone(i - 1, k - 1);
      assert m / 2 == Pow2(k - 1) - 1 - Pow2(i - 1) && m % 2 == 1;
      if j > 0 { NotBit(i - 1, j - 1, k - 1); }
    } else {
      assert m % 2 == 0 && m / 2 == Pow2(k - 1) - 1;
      if j > 0 { OnesBit(k - 1, j - 1); }
    }
  }

  lemma {:induction false} OnesBit(k: nat, j: nat)
    requires j < k
    ensures BitOf(Pow2(k) - 1, j) == 1
    decreases k
  {
    var m := Pow2(k) - 1;
    assert m % 2 == 1 && m / 2 == Pow2(k - 1) - 1;
    if j > 0 { OnesBit(k - 1, j - 1); }
  }

  /** `x &= ~(1 << i)` on a `k`-bit word clears bit `i` and no other. */
  lemma ClearBit(x: nat, i: nat, j: nat, k: nat)
    requires i < k && j < k
    ensures Pow2(i) < Pow2(k)
    ensures BitOf(And(x, Pow2(k) - 1 - Pow2(i)), j) == if i == j then 0 else BitOf(x, j)
  {
    Pow2Monotone(i, k);
    NotBit(i, j, k);
    AndBits(x, Pow2(k) - 1 - Pow2(i), j);
  }

  // ----- rounding up to a power of two

  /** The word `y` has highest bit `n` and its top `w` bits are ones. */
  ghost predicate Smeared(y: nat, n: nat, w: nat) {
    Pow2(n + 1) <= y + Pow2(if w <= n + 1 then n + 1 - w else 0) && y < Pow2(n + 1)
  }

  /** With `y == z * a + r` just below `h * a`, the shifted word `z` is just below `h`. */
  lemma ShiftedOnes(y: nat, a: nat, h: nat, l: nat, z: nat, r: nat)
    requires r < a && y == z * a + r && h * a <= y + h && y < h * a
    requires h == l * a || (h <= a && l == 1)
    ensures h <= z + l && z < h
  {
    if h <= z { if h < z { MulMonotone(h, z, a); } }
    assert (z + l) * a == z * a + l * a;
    if z + l < h { MulMonotone(z + l, h, a); }
  }

  lemma OnesAboveLow(y: nat, a: nat, h: nat, z: nat, r: nat)
    requires r < h && y == z * h + r && h * a <= y + h && y < h * a
    ensures y - r == h * a - h
  {
    assert a * h == h * a;
    assert (z + 1) * h == z * h + h;
    if z + 1 < a { MulMonotone(z + 1, a, h); }
    if a <= z { if a < z { MulMonotone(a, z, h); } }
    assert (a - 1) * h == a * h - h;
  }

  /** One line of `nextpowerof2`: `x |= x >> w` doubles the run of ones. */
  lemma SmearStep(y: nat, n: nat, w: nat)
    requires Smeared(y, n, w)
    ensures Smeared(Or(y, Shr(y, w)), n, 2 * w)
  {
    ShrShrinks(y, w);
    OrBound(y, Shr(y, w), n + 1);
    if w <= n { SmearGrows(y, n, w); }
  }

  lemma SmearGrows(y: nat, n: nat, w: nat)
    requires Smeared(y, n, w) && w <= n
    ensures Pow2(n + 1) <= Or(y, Shr(y, w)) + Pow2(if 2 * w <= n + 1 then n + 1 - 2 * w else 0)
  {
    var m := n + 1 - w;
    var z, l := Shr(y, w), if w <= m then m - w else 0;
    Pow2Add(m, w);
    SplitBits(y, w);
    if w <= m { Pow2Add(m - w, w); } else { Pow2Monotone(m, w); }
    ShiftedOnes(y, Pow2(w), Pow2(m), Pow2(l), z, Low(y, w));
    OrLow(y, z, m);
    SplitBits(y, m);
    OnesAboveLow(y, Pow2(w), Pow2(m), Shr(y, m), Low(y, m));
  }

  lemma {:induction false} HighBit(y: nat) returns (n: nat)
    requires y > 0
    ensures Pow2(n) <= y < Pow2(n + 1)
  {
    if y == 1 { n := 0; } else { n := HighBit(y / 2); n := n + 1; }
  }

  /** `CeilPow2` is the least power of two that is not below `x`. */
  lemma {:induction false} CeilPow2IsLeast(x: nat, k: nat)
    requires x <= Pow2(k) && (k > 0 ==> Pow2(k - 1) < x)
    ensures CeilPow2(x) == Pow2(k)
    decreases k
  {
    if k > 0 && x > 1 { CeilPow2IsLeast((x + 1) / 2, k - 1); }
  }

  lemma {:induction false} CeilPow2AtMost(x: nat, k: nat)
    requires x <= Pow2(k)
    ensures CeilPow2(x) <= Pow2(k)
    decreases k
  {
    if k > 0 && x > 1 { CeilPow2AtMost((x + 1) / 2, k - 1); }
  }

  lemma {:induction false} CeilPow2Bounds(x: nat)
    ensures x <= CeilPow2(x) && IsPowerOf2(CeilPow2(x))
    ensures x > 1 ==> CeilPow2(x) < 2 * x
  {
    if x > 1 {
      CeilPow2Bounds((x + 1) / 2);
      var k := Log2(CeilPow2((x + 1) / 2));
      PowerHasOneBit(k + 1);
    } else {
      PowerHasOneBit(0);
    }
  }

  /** `nextpowerof2` on every 32-bit word: the least power of two not below `x`, and 0 for the
      words that have none. */
  method NextPowerOf2(x: nat) returns (r: nat)
    requires x < TWO32
    ensures r == if 1 <= x <= TWO31 then CeilPow2(x) else 0
  {
    r := (x + TWO32 - 1) % TWO32;
    SmearNext(x, r);
    r := Or(r, Shr(r, 1));
    r := Or(r, Shr(r, 2));
    r := Or(r, Shr(r, 4));
    r := Or(r, Shr(r, 8));
    r := Or(r, Shr(r, 16));
    r := (r + 1) % TWO32;
  }

  ghost function Smear(y: nat): nat {
    var a := Or(y, Shr(y, 1));
    var b := Or(a, Shr(a, 2));
    var c := Or(b, Shr(b, 4));
    var d := Or(c, Shr(c, 8));
    Or(d, Shr(d, 16))
  }

  lemma SmearNext(x: nat, y: nat)
    requires x < TWO32 && y == (x + TWO32 - 1) % TWO32
    ensures (Smear(y) + 1) % TWO32 == if 1 <= x <= TWO31 then CeilPow2(x) else 0
  {
    if y > 0 { SmearPositive(x, y); } else { SmearZero(); }
  }

  lemma SmearPositive(x: nat, y: nat)
    requires x < TWO32 && y == (x + TWO32 - 1) % TWO32 && y > 0
    ensures (Smear(y) + 1) % TWO32 == if 1 <= x <= TWO31 then CeilPow2(x) else 0
  {
    hide Smear, Smeared, Pow2, CeilPow2, Or, Shr;
    var n := HighBit(y);
    SmearTop(y, n);
    NextIsCeil(x, y, n, Smear(y));
  }

  lemma SmearZero()
    ensures Smear(0) == 0
  {
  }

  lemma SmearTop(y: nat, n: nat)
    requires Pow2(n) <= y < Pow2(n + 1)
    ensures Smeared(Smear(y), n, 32)
  {
    SmearStep(y, n, 1);
    var a := Or(y, Shr(y, 1));
    SmearStep(a, n, 2);
    var b := Or(a, Shr(a, 2));
    SmearStep(b, n, 4);
    var c := Or(b, Shr(b, 4));
    SmearStep(c, n, 8);
    SmearStep(Or(c, Shr(c, 8)), n, 16);
  }

  lemma Pow2Words()
    ensures Pow2(16) == 65536 && Pow2(31) == TWO31 && Pow2(32) == TWO32
  {
    assert Pow2(16) == 65536;
    Pow2Add(16, 16);
    assert Pow2(15) == 32768;
    Pow2Add(16, 15);
  }

  lemma NextIsCeil(x: nat, y: nat, n: nat, s: nat)
    requires x < TWO32 && y == (x + TWO32 - 1) % TWO32 && Pow2(n) <= y < Pow2(n + 1)
    requires Smeared(s, n, 32)
    ensures (s + 1) % TWO32 == if 1 <= x <= TWO31 then CeilPow2(x) else 0
  {
    TopBit(y, n);
    SmearedAll(s, n);
    hide Pow2, CeilPow2, Smeared;
    if n < 31 { CeilPow2IsLeast(x, n + 1); }
  }

  /** The highest bit of a 32-bit word, and the power above it. */
  lemma TopBit(y: nat, n: nat)
    requires y < TWO32 && Pow2(n) <= y
    ensures n <= 31 && Pow2(31) == TWO31 && Pow2(32) == TWO32 && (n < 31 ==> Pow2(n + 1) <= TWO31)
  {
    Pow2Words();
    hide Pow2;
    if n >= 32 { Pow2Monotone(32, n); }
    if n < 31 { Pow2Monotone(n + 1, 31); }
  }

  lemma SmearedAll(s: nat, n: nat)
    requires Smeared(s, n, 32) && n <= 31
    ensures s + 1 == Pow2(n + 1)
  {
  }
}

/** Software multiplication and division (arch/riscv/muldiv.c). Words are naturals below 2^32 or 2^64. */
module MulDiv {
  import opened Bits

  const TWO63: nat := 0x8000_0000_0000_0000
  const TWO64: nat := 0x1_0000_0000_0000_0000
  const INT32_MIN: int := -0x8000_0000
  const INT64_MIN: int := -0x8000_0000_0000_0000

  // ----- multiplication

  /** The sum of two words, less the carry out. */
  function Wrap(x: nat, m: nat): (r: nat)
    requires x < 2 * m
    ensures r < m
  {
    if x < m then x else x - m
  }

  lemma HalveProduct(a: nat, b: int)
    ensures a * b == a / 2 * (2 * b) + if a % 2 == 1 then b else 0
  {
  }

  lemma SubtractOnce(h: int, b: int, c: int, m: int)
    ensures h * (b - m) + (c + h) * m == h * b + c * m
    ensures (c + 1) * m == c * m + m
  {
  }

  /** One turn of the shift-and-add loop keeps the product modulo `m`; `c` counts the carries lost. */
  lemma ShiftAddStep(m: nat, a: nat, b: nat, sum: nat, c: nat) returns (c': nat)
    requires sum < m && b < m
    ensures sum + a * b + c * m == (if a % 2 == 1 then Wrap(sum + b, m) else sum) + a / 2 * Wrap(2 * b, m) + c' * m
  {
    HalveProduct(a, b);
    var h := a / 2;
    c' := if a % 2 == 1 && sum + b >= m then c + 1 else c;
    SubtractOnce(h, 2 * b, c, m);
    if 2 * b >= m {
      SubtractOnce(h, 2 * b, c', m);
      c' := c' + h;
    }
  }

  /** The loop shared by the multipliers, on words of modulus `m`. */
  method ShiftAdd(x: nat, y: nat, m: nat) returns (sum: nat)
    requires y < m
    ensures sum == x * y % m
  {
    var a: nat, b: nat := x, y;
    sum := 0;
    ghost var c: nat := 0;
    while a != 0
      invariant sum < m && b < m
      invariant sum + a * b + c * m == x * y
    {
      c := ShiftAddStep(m, a, b, sum, c);
      if a % 2 == 1 {
        sum := Wrap(sum + b, m);
      }
      b := Wrap(2 * b, m);
      a := a / 2;
    }
    ModUnique(x * y, m, c, sum);
  }

  /** `__mulsi3`. */
  method Mul32(a: nat, b: nat) returns (r: nat)
    requires a < TWO32 && b < TWO32
    ensures r == a * b % TWO32
  {
    if a == 0 || b == 0 {
      return 0;
    }
    if a == 1 {
      return b;
    }
    if b == 1 {
      return a;
    }
    if a > b {
      r := ShiftAdd(b, a, TWO32);
    } else {
      r := ShiftAdd(a, b, TWO32);
    }
  }

  lemma ProductFits(a: nat, b: nat, w: nat)
    requires a < w && b < w
    ensures a * b < w * w
  {
  }

  /** `__muldsi3`: the full 64-bit product. */
  method MulWide(a: nat, b: nat) returns (r: nat)
    requires a < TWO32 && b < TWO32
    ensures r == a * b
  {
    if a == 0 || b == 0 {
      return 0;
    }
    if a == 1 {
      return b;
    }
    if b == 1 {
      return a;
    }
    r := ShiftAdd(b, a, TWO64);
    ProductFits(b, a, TWO32);
    ModUnique(b * a, TWO64, 0, b * a);
  }

  lemma Schoolbook(al: nat, ah: nat, bl: nat, bh: nat, w: nat)
    ensures (ah * w + al) * (bh * w + bl) == ah * bh * (w * w) + (al * bh + ah * bl) * w + al * bl
  {
  }

  lemma DivideBy(x: nat, m: nat)
    requires m > 0
    ensures x == x / m * m + x % m && 0 <= x % m < m
  {
  }

  lemma Regroup(high: int, e: int, mid: int, w: int, f: int, sh: int, low: int, g: int, r: int, m: int)
    requires mid * w == f * m + sh && low + sh == g * m + r
    ensures high * m + (e * m + mid) * w + low == (high + e * w + f + g) * m + r
  {
  }

  /** Dropping the high product and the carries out of the middle changes only multiples of `m`. */
  lemma LowHalfOfProduct(low: nat, sum: nat, high: nat, w: nat, m: nat)
    requires m > 0
    ensures (low + (sum % m) * w % m) % m == (high * m + sum * w + low) % m
  {
    var e, mid := sum / m, sum % m;
    DivideBy(sum, m);
    DivideBy(mid * w, m);
    var f, sh := mid * w / m, mid * w % m;
    DivideBy(low + sh, m);
    var g, r := (low + sh) / m, (low + sh) % m;
    Regroup(high, e, mid, w, f, sh, low, g, r, m);
    ModUnique(high * m + sum * w + low, m, high + e * w + f + g, r);
  }

  /** Multiplying by halves: the low product plus the shifted middle products. */
  lemma HalvesMultiply(a: nat, b: nat, al: nat, ah: nat, bl: nat, bh: nat, w: nat, m: nat)
    requires a == ah * w + al && b == bh * w + bl && m == w * w > 0
    ensures (al * bl + ((al * bh + ah * bl) % m) * w % m) % m == a * b % m
  {
    Schoolbook(al, ah, bl, bh, w);
    LowHalfOfProduct(al * bl, al * bh + ah * bl, ah * bh, w, m);
  }

  /** `__muldi3`. */
  method Mul64(a: nat, b: nat) returns (r: nat)
    requires a < TWO64 && b < TWO64
    ensures r == a * b % TWO64
  {
    if a == 0 || b == 0 {
      return 0;
    }
    if a == 1 {
      return b;
    }
    if b == 1 {
      return a;
    }
    var al, ah := a % TWO32, a / TWO32;
    var bl, bh := b % TWO32, b / TWO32;
    DivideBy(a, TWO32);
    DivideBy(b, TWO32);
    var low := MulWide(al, bl);
    var m1 := MulWide(al, bh);
    var m2 := MulWide(ah, bl);
    var mid := (m1 + m2) % TWO64;
    r := (low + mid * TWO32 % TWO64) % TWO64;
    HalvesMultiply(a, b, al, ah, bl, bh, TWO32, TWO64);
  }

  // ----- unsigned division

  /** If the bits of `q` up to and including `k` are clear, setting bit `k` leaves those below clear. */
  lemma {:induction false} ClearBelow(q: nat, k: nat)
    requires Low(q, k + 1) == 0
    ensures Low(q, k) == 0 && Low(q + Pow2(k), k) == 0
    decreases k
  {
    if k > 0 { ClearBelow(q / 2, k - 1); }
  }

  lemma DoubleDivisor(d: nat, k: nat)
    ensures d * Pow2(k + 1) == 2 * (d * Pow2(k))
    ensures d > 0 ==> Pow2(k) <= d * Pow2(k)
  {
  }

  /** Before the bit `k` of the quotient is decided. */
  ghost predicate Dividing(num: nat, den: nat, n: nat, quot: nat, k: nat) {
    && num == quot * den + n && n < 2 * (den * Pow2(k)) && Low(quot, k + 1) == 0
  }

  lemma DecideBit(num: nat, den: nat, n: nat, quot: nat, k: nat)
    requires den > 0 && Dividing(num, den, n, quot, k)
    ensures var d := den * Pow2(k);
      var n', quot' := if n >= d then n - d else n, if n >= d then Or(quot, Pow2(k)) else quot;
      num == quot' * den + n' && n' < d && Low(quot', k) == 0 && (k > 0 ==> Dividing(num, den, n', quot', k - 1))
  {
    ClearBelow(quot, k);
    OrFreshBit(quot, k);
    assert (quot + Pow2(k)) * den == quot * den + den * Pow2(k);
    if k > 0 { DoubleDivisor(den, k - 1); }
  }

  /** The normalise-and-subtract loops, on words with sign bit `half`. */
  method LongDivide(num: nat, den: nat, half: nat) returns (quot: nat, n: nat)
    requires 0 < den < 2 * half && num < 2 * half
    ensures num == quot * den + n && n < den
  {
    var d, qbit := den, 1;
    ghost var k := 0;
    while d < half
      invariant d == den * Pow2(k) < 2 * half && qbit == Pow2(k)
      decreases half - d
    {
      DoubleDivisor(den, k);
      d := 2 * d;
      qbit := 2 * qbit;
      k := k + 1;
    }
    quot, n := 0, num;
    LowZero(k + 1);
    ghost var i := k + 1;
    while qbit != 0
      invariant 0 <= i && (i == 0 <==> qbit == 0)
      invariant i > 0 ==> d == den * Pow2(i - 1) && qbit == Pow2(i - 1) && Dividing(num, den, n, quot, i - 1)
      invariant i == 0 ==> num == quot * den + n && n < den
      decreases i
    {
      DecideBit(num, den, n, quot, i - 1);
      if n >= d {
        n := n - d;
        quot := Or(quot, qbit);
      }
      if i > 1 { DoubleDivisor(den, i - 2); }
      d := d / 2;
      qbit := qbit / 2;
      i := i - 1;
    }
  }

  /** `__udivmodsi4`. */
  method UDivMod32(num: nat, den: nat, mod: bool) returns (r: nat)
    requires num < TWO32 && den < TWO32
    ensures den > 0 ==> r == if mod then num % den else num / den
    ensures den == 0 ==> r == if mod then 0 else TWO32 - 1
  {
    if den == 0 {
      return if mod then 0 else TWO32 - 1;
    }
    if num < den {
      ModUnique(num, den, 0, num);
      return if mod then num else 0;
    }
    if num == den {
      ModUnique(num, den, 1, 0);
      return if mod then 0 else 1;
    }
    if den == 1 {
      return if mod then 0 else num;
    }
    if And(den, den - 1) == 0 {
      r := DivPower(num, den, mod);
      return;
    }
    var q, n := LongDivide(num, den, TWO31);
    ModUnique(num, den, q, n);
    r := if mod then n else q;
  }

  /** The power-of-two path: a shift counted by halving the divisor, or a mask. */
  method DivPower(num: nat, den: nat, mod: bool) returns (r: nat)
    requires den > 0 && And(den, den - 1) == 0
    ensures r == if mod then num % den else num / den
  {
    ghost var k := Log2(den);
    var shift, temp := 0, den;
    while temp > 1
      invariant shift <= k && temp == Pow2(k - shift)
    {
      temp := temp / 2;
      shift := shift + 1;
    }
    MaskIsMod(num, den);
    ShiftIsDiv(num, k);
    r := if mod then And(num, den - 1) else Shr(num, shift);
  }

  /** `__udivmoddi4`. */
  method UDivMod64(num: nat, den: nat) returns (q: nat, rem: nat)
    requires num < TWO64 && den < TWO64
    ensures den > 0 ==> q == num / den && rem == num % den
    ensures den == 0 ==> q == TWO64 - 1 && rem == 0
  {
    if den == 0 {
      return TWO64 - 1, 0;
    }
    if num < den {
      ModUnique(num, den, 0, num);
      return 0, num;
    }
    if num == den {
      ModUnique(num, den, 1, 0);
      return 1, 0;
    }
    if den == 1 {
      return num, 0;
    }
    if den < TWO32 && num < TWO32 {
      q := UDivMod32(num, den, false);
      var p := Mul32(q, den);
      DivideBy(num, den);
      ModUnique(q * den, TWO32, 0, q * den);
      rem := Wrap(num + TWO32 - p, TWO32);
      return;
    }
    q, rem := LongDivide(num, den, TWO63);
    ModUnique(num, den, q, rem);
  }

  // ----- signed division

  function Abs(x: int): nat {
    if x < 0 then -x else x
  }

  /** C's `/` and `%` on integers of any size: truncation toward zero, section 6.5.5 of C99. */
  function Quot(n: int, d: int): int
    requires d != 0
  {
    var q := Abs(n) / Abs(d);
    if (n < 0) == (d < 0) then q else -q
  }

  function Rem(n: int, d: int): int
    requires d != 0
  {
    var r := Abs(n) % Abs(d);
    if n < 0 then -r else r
  }

  /** Quotient and remainder fit together, with a remainder smaller than the divisor and never of the other sign. */
  ghost predicate Truncates(n: int, d: int, q: int, r: int) {
    n == q * d + r && Abs(r) < Abs(d) && (n >= 0 ==> r >= 0) && (n < 0 ==> r <= 0)
  }

  lemma Signs(q: int, d: int)
    ensures (-q) * d == -(q * d) && q * (-d) == -(q * d)
  {
  }

  lemma QuotRemTruncate(n: int, d: int)
    requires d != 0
    ensures Truncates(n, d, Quot(n, d), Rem(n, d))
  {
  }

  /** `Quot` and `Rem` are the only such pair. */
  lemma TruncatingDivision(n: int, d: int, q: int, r: int)
    requires d != 0
    ensures Truncates(n, d, q, r) <==> q == Quot(n, d) && r == Rem(n, d)
  {
    QuotRemTruncate(n, d);
    if Truncates(n, d, q, r) {
      Signs(q, Abs(d));
      var q', r' := if (n < 0) == (d < 0) then q else -q, if n < 0 then -r else r;
      Signs(q, d);
      assert Abs(n) == q' * Abs(d) + r';
      ModUnique(Abs(n), Abs(d), q', r');
    }
  }

  /** The value of a word read as a two's-complement integer with sign bit `half`. */
  function Signed(u: int, half: int): (i: int)
    requires 0 <= u < 2 * half
    ensures -half <= i < half
  {
    if u < half then u else u - 2 * half
  }

  /** Negation and conversion of an unsigned magnitude, wrap-around included. */
  function Negated(u: int, half: int): (i: int)
    requires 0 <= u < 2 * half
    ensures -half <= i < half
    ensures u <= half ==> i == -u
  {
    Signed(if u == 0 then 0 else 2 * half - u, half)
  }

  /** The magnitude of a signed word, as an unsigned word. */
  function Magnitude(i: int, half: int): (u: nat)
    requires -half <= i < half
    ensures u == Abs(i) <= half
  {
    if i < 0 then 2 * half - (i + 2 * half) else i
  }

  lemma MagnitudeBounds(n: int, d: int, half: int)
    requires d != 0 && -half <= n < half && -half <= d < half
    ensures 0 <= Abs(n) / Abs(d) <= half && 0 <= Abs(n) % Abs(d) < half
    ensures (n < 0) == (d < 0) && !(n == -half && d == -1) ==> Abs(n) / Abs(d) < half
  {
    var a: int, b: int := Abs(n), Abs(d);
    var q := a / b;
    DivideBy(a, b);
    if q < 0 { MulMonotone(q, 0, b); }
    if b == 1 {
      ModUnique(a, 1, a, 0);
    } else if q > 0 {
      MulMonotone(1, b, q);
      assert b * q == q * b;
    }
  }

  /** `__divmodsi4`. */
  method DivMod32(num: int, den: int, mod: bool) returns (r: int)
    requires INT32_MIN <= num < TWO31 && INT32_MIN <= den < TWO31
    ensures den != 0 ==> r == if mod then Rem(num, den) else if num == INT32_MIN && den == -1 then INT32_MIN else Quot(num, den)
    ensures den == 0 ==> r == if mod then 0 else if num < 0 then INT32_MIN else TWO31 - 1
  {
    if den == 0 {
      return if mod then 0 else if num < 0 then INT32_MIN else TWO31 - 1;
    }
    if num == INT32_MIN && den == -1 {
      return if mod then 0 else INT32_MIN;
    }
    var unum, uden := Magnitude(num, TWO31), Magnitude(den, TWO31);
    var res := UDivMod32(unum, uden, mod);
    MagnitudeBounds(num, den, TWO31);
    if mod {
      return if num < 0 then Negated(res, TWO31) else Signed(res, TWO31);
    } else {
      return if (num < 0) != (den < 0) then Negated(res, TWO31) else Signed(res, TWO31);
    }
  }

  /** `__divmoddi4`. */
  method DivMod64(num: int, den: int) returns (q: int, rem: int)
    requires INT64_MIN <= num < TWO63 && INT64_MIN <= den < TWO63
    ensures den != 0 ==> rem == Rem(num, den) && q == if num == INT64_MIN && den == -1 then INT64_MIN else Quot(num, den)
    ensures den == 0 ==> rem == 0 && q == if num < 0 then INT64_MIN else TWO63 - 1
  {
    if den == 0 {
      return if num < 0 then INT64_MIN else TWO63 - 1, 0;
    }
    if num == INT64_MIN && den == -1 {
      return INT64_MIN, 0;
    }
    var unum, uden := Magnitude(num, TWO63), Magnitude(den, TWO63);
    var ures, urem := UDivMod64(unum, uden);
    MagnitudeBounds(num, den, TWO63);
    rem := if num < 0 then Negated(urem, TWO63) else Signed(urem, TWO63);
    q := if (num < 0) != (den < 0) then Negated(ures, TWO63) else Signed(ures, TWO63);
  }
}

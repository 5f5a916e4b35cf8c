/** Positional numerals: what the conversion routines of lib/ctype.c and lib/stdio.c are to print and read. */
module Numerals {
  import opened Bits

  /** The digits of `v` in base `b`, most significant first; none for 0. */
  function Digits(v: nat, b: nat): (ds: seq<nat>)
    requires b >= 2
    ensures v > 0 ==> ds != []
    ensures forall i :: 0 <= i < |ds| ==> ds[i] < b
  {
    if v == 0 then [] else
      Shrinks(v, b);
      Digits(v / b, b) + [v % b]
  }

  lemma Shrinks(v: nat, b: nat)
    requires v > 0 && b >= 2
    ensures v / b < v && v == v / b * b + v % b && 0 <= v % b < b
  {
  }

  /** The number a digit sequence denotes. */
  function Value(ds: seq<nat>, b: int): int {
    if ds == [] then 0 else Value(ds[..|ds| - 1], b) * b + ds[|ds| - 1]
  }

  lemma {:induction false} DigitsDenote(v: nat, b: nat)
    requires b >= 2
    ensures Value(Digits(v, b), b) == v
  {
    if v > 0 {
      Shrinks(v, b);
      DigitsDenote(v / b, b);
      assert Digits(v, b)[..|Digits(v, b)| - 1] == Digits(v / b, b);
    }
  }

  function Power(b: nat, n: nat): (p: nat)
    requires b > 0
    ensures p > 0
  {
    if n == 0 then 1 else Power(b, n - 1) * b
  }

  lemma QuotientBelow(v: int, b: int, q: int, r: int, p: int)
    requires v == q * b + r && 0 <= r < b
    ensures v < p * b <==> q < p
  {
    if q < p { MulMonotone(q, p, b); }
    if p < q { MulMonotone(p, q, b); }
  }

  /** At most `n` digits exactly when below `b` to the `n`. */
  lemma {:induction false} DigitCount(v: nat, b: nat, n: nat)
    requires b >= 2
    ensures |Digits(v, b)| <= n <==> v < Power(b, n)
    decreases n
  {
    if n > 0 && v > 0 {
      Shrinks(v, b);
      DigitCount(v / b, b, n - 1);
      QuotientBelow(v, b, v / b, v % b, Power(b, n - 1));
    }
  }

  function DigitChar(d: nat): (c: char)
    requires d < 16
    ensures '0' <= c <= '9' <==> d < 10
    ensures 'a' <= c <= 'f' <==> d >= 10
  {
    if d < 10 then (d + 48) as char else (d + 87) as char
  }

  function Spell(ds: seq<nat>): (s: string)
    requires forall i :: 0 <= i < |ds| ==> ds[i] < 16
    ensures |s| == |ds|
  {
    seq(|ds|, i requires 0 <= i < |ds| => DigitChar(ds[i]))
  }

  /** The usual text of a natural number. */
  function Numeral(v: nat, b: nat): (s: string)
    requires 2 <= b <= 16
    ensures s != []
  {
    if v == 0 then "0" else Spell(Digits(v, b))
  }

  /** The value of a digit or letter as `strtol` reads it. */
  function DigitOf(c: char): (d: int)
    ensures -1 <= d < 36
  {
    if '0' <= c <= '9' then c as int - 48
    else if 'A' <= c <= 'Z' then c as int - 55
    else if 'a' <= c <= 'z' then c as int - 87
    else -1
  }

  lemma CharOfDigit(d: nat)
    requires d < 16
    ensures DigitOf(DigitChar(d)) == d
  {
  }
}

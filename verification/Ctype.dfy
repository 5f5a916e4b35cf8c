/** Number and string conversion (lib/ctype.c). A C string is a `string` followed by an implicit NUL. */
module Ctype {
  import opened Bits
  import opened Seqs
  import opened Numerals

  const INT32_MIN: int := -0x8000_0000

  /** The character at `i`, the terminator past the end. */
  function At(s: string, i: nat): char {
    if i < |s| then s[i] else '\0'
  }

  /** Two's-complement reading of an integer modulo 2^32. */
  function Int32(x: int): (r: int)
    ensures INT32_MIN <= r < TWO31
    ensures INT32_MIN <= x < TWO31 ==> r == x
  {
    var u := x % TWO32;
    if u < TWO31 then u else u - TWO32
  }

  // ----- division by ten

  /** The shift-only estimate of `v / 10`. */
  function Estimate(v: nat): nat {
    var q := v / 2 + v / 4;
    var q1 := q + q / 16;
    var q2 := q1 + q1 / 256;
    var q3 := q2 + q2 / 65536;
    q3 / 8
  }

  /** Never too large, and short by so little that the remainder fits in four bits; no sum leaves the word. */
  lemma EstimateBounds(v: nat)
    requires v < TWO32
    ensures 0 <= v - 10 * Estimate(v) <= 15
    ensures var q := v / 2 + v / 4; var q1 := q + q / 16; var q2 := q1 + q1 / 256; q2 + q2 / 65536 < TWO32
  {
  }

  lemma Corrected(v: int, q: int)
    requires 0 <= v - 10 * q <= 15
    ensures var r := v - 10 * q; var t := (r + 6) / 16; q + t == v / 10 && r - 10 * t == v % 10
  {
  }

  /** One correction turns the estimate into the exact quotient and remainder. */
  method DivTen(v: nat) returns (q: nat, r: nat)
    requires v < TWO32
    ensures q == v / 10 && r == v % 10
  {
    EstimateBounds(v);
    q := v / 2 + v / 4;
    q := q + q / 16;
    q := q + q / 256;
    q := q + q / 65536;
    q := q / 8;
    Corrected(v, q);
    r := v - (q * 4 + q) * 2;
    var t := (r + 6) / 16;
    q := q + t;
    r := r - (t * 4 + t) * 2;
  }

  // ----- printing

  /** Moving the last digit of `v` from the number to the emitted characters. */
  lemma EmitDigit(v: nat, b: nat, e: string)
    requires v > 0 && 2 <= b <= 16
    ensures Spell(Digits(v, b)) + Reversed(e) == Spell(Digits(v / b, b)) + Reversed(e + [DigitChar(v % b)])
  {
  }

  /** `__str_base10`: the decimal digits, least significant first, at index `at`. */
  method StrBase10(v: nat, buffer: array<char>, at: nat) returns (length: nat)
    requires v < TWO32 && at + |Numeral(v, 10)| <= buffer.Length
    modifies buffer
    ensures length == |Numeral(v, 10)|
    ensures buffer[..] == Overwrite(old(buffer[..]), at, Reversed(Numeral(v, 10)))
  {
    ghost var b := buffer[..];
    if v == 0 {
      buffer[at] := '0';
      return 1;
    }
    hide Spell, Digits, Overwrite, Reversed, DigitChar;
    length := 0;
    ghost var e := "";
    var value: nat := v;
    OverwriteNothing(b, at);
    StartEmitting(v);
    while value > 0
      invariant value < TWO32 && length == |e|
      invariant Spell(Digits(value, 10)) + Reversed(e) == Numeral(v, 10)
      invariant at + length + |Spell(Digits(value, 10))| <= buffer.Length
      invariant at + |e| <= |b| == buffer.Length && buffer[..] == Overwrite(b, at, e)
    {
      var q, r := DivTen(value);
      EmitDigit(value, 10, e);
      OverwriteOne(b, at, e, DigitChar(r));
      buffer[at + length] := DigitChar(r);
      length := length + 1;
      e := e + [DigitChar(r)];
      value := q;
    }
    FinishEmitting(e, v, 10);
  }

  lemma StartEmitting(v: nat)
    requires v > 0
    ensures Spell(Digits(v, 10)) + Reversed("") == Numeral(v, 10)
  {
  }

  lemma FinishEmitting(e: string, v: nat, b: nat)
    requires 2 <= b <= 16 && Spell(Digits(0, b)) + Reversed(e) == Numeral(v, b)
    ensures e == Reversed(Numeral(v, b))
  {
  }

  function Map(f: char -> char, s: string): (t: string)
    ensures |t| == |s|
  {
    seq(|s|, i requires 0 <= i < |s| => f(s[i]))
  }

  lemma Flipped(s: string, b: string, n: nat, f: char -> char)
    requires n < |s| == |b| && s[n] == '\0' && forall k :: n < k < |s| ==> s[k] == b[k]
    requires forall k :: 0 <= k < n ==> s[k] == f(b[n - 1 - k])
    ensures s == Overwrite(b, 0, Reversed(Map(f, b[..n])) + ['\0'])
  {
  }

  /** The closing loop of `itoa`: terminates the text and reverses it in place, converting each character. */
  method Flip(s: array<char>, n: nat, f: char -> char)
    requires n < s.Length
    modifies s
    ensures s[..] == Overwrite(old(s[..]), 0, Reversed(Map(f, old(s[..n]))) + ['\0'])
  {
    hide Overwrite, Reversed, Map;
    ghost var b := s[..];
    s[n] := '\0';
    var p, q := 0, n - 1;
    while p <= q
      invariant 0 <= p <= n && q == n - 1 - p
      invariant forall k :: 0 <= k < p ==> s[k] == f(b[n - 1 - k])
      invariant forall k :: q < k < n ==> s[k] == f(b[n - 1 - k])
      invariant forall k :: p <= k <= q ==> s[k] == b[k]
      invariant s[n] == '\0' && forall k :: n < k < s.Length ==> s[k] == b[k]
    {
      var c := f(s[p]);
      s[p] := f(s[q]);
      s[q] := c;
      p := p + 1;
      q := q - 1;
    }
    Flipped(s[..], b, n, f);
    assert b[..n] == old(s[..n]);
  }

  /** What `itoa` leaves in the buffer before the terminator, in base 10. */
  function DecimalText(i: int): string {
    if i < 0 then Numeral(-i, 10) + "-" else Numeral(i, 10)
  }

  /** The same in base 16, where a one-digit number gets a leading zero. */
  function HexText(i: int): string {
    (if 0 <= i < 16 then "0" else "") + Numeral(i % TWO32, 16)
  }

  lemma OverwriteAgain(b: string, x: string, y: string)
    requires |x| <= |y| <= |b|
    ensures Overwrite(Overwrite(b, 0, x), 0, y) == Overwrite(b, 0, y)
    ensures Overwrite(b, 0, x)[..|x|] == x
  {
  }

  lemma OverwriteAfter(b: string, c: char, x: string)
    requires |x| < |b|
    ensures Overwrite(b[0 := c], 1, x) == Overwrite(b, 0, [c] + x)
  {
  }

  lemma MapIdentity(x: string)
    ensures Map(Same, x) == x
  {
    assert forall i :: 0 <= i < |x| ==> Map(Same, x)[i] == Same(x[i]);
  }

  function Same(c: char): char {
    c
  }

  /** `itoa` in base 10. */
  method ItoaDecimal(i: int, s: array<char>)
    requires INT32_MIN <= i < TWO31 && |DecimalText(i)| < s.Length
    modifies s
    ensures s[..] == Overwrite(old(s[..]), 0, DecimalText(i) + ['\0'])
  {
    hide Overwrite, Numeral, Map;
    ghost var b := s[..];
    ghost var raw := Reversed(DecimalText(i));
    var len: nat;
    if i < 0 {
      s[0] := '-';
      len := StrBase10(-i, s, 1);
      len := len + 1;
      OverwriteAfter(b, '-', Reversed(Numeral(-i, 10)));
      ReversedConcat(Numeral(-i, 10), "-");
      assert Reversed("-") == "-";
    } else {
      len := StrBase10(i, s, 0);
    }
    assert s[..] == Overwrite(b, 0, raw);
    OverwriteAgain(b, raw, DecimalText(i) + ['\0']);
    assert s[..len] == s[..][..len];
    Flip(s, len, Same);
    MapIdentity(raw);
    ReversedTwice(DecimalText(i));
  }

  /** The digit characters before conversion, and the conversion (the loop never sees others). */
  function Raw(d: nat): char
    requires d < 16
  {
    (d + 48) as char
  }

  function Letter(c: char): char {
    if '9' < c < '@' then (c as int + 39) as char else c
  }

  lemma LetterOfRaw(raw: string, d: nat)
    requires d < 16
    ensures Map(Letter, raw + [Raw(d)]) == Map(Letter, raw) + [DigitChar(d)]
  {
    assert Letter(Raw(d)) == DigitChar(d);
  }

  /** Where the digit loop stands after at least one turn: `h` is left to print. */
  ghost predicate Printing(u: nat, h: nat, raw: string) {
    Spell(Digits(h, 16)) + Reversed(Map(Letter, raw)) == Numeral(u, 16)
  }

  lemma PrintDigit(u: nat, h: nat, raw: string)
    requires h > 0 && Printing(u, h, raw)
    ensures Printing(u, h / 16, raw + [Raw(h % 16)]) && |raw| < |Numeral(u, 16)|
  {
    LetterOfRaw(raw, h % 16);
    EmitDigit(h, 16, Map(Letter, raw));
    hide DigitChar, Reversed, Map;
  }

  /** The loop body runs once even for zero. */
  lemma PrintFirst(u: nat)
    ensures Printing(u, u / 16, [Raw(u % 16)])
  {
    if u > 0 {
      assert Spell(Digits(u, 16)) + Reversed(Map(Letter, "")) == Numeral(u, 16);
      PrintDigit(u, u, "");
      assert "" + [Raw(u % 16)] == [Raw(u % 16)];
    } else {
      assert Letter(Raw(0)) == '0';
      assert Reversed(Map(Letter, [Raw(0)])) == "0";
      assert Spell(Digits(0, 16)) + "0" == "0";
    }
  }

  lemma Printed(u: nat, raw: string)
    requires Printing(u, 0, raw)
    ensures Reversed(Map(Letter, raw)) == Numeral(u, 16)
    ensures Reversed(Map(Letter, raw + "0")) == "0" + Numeral(u, 16)
  {
    assert Spell(Digits(0, 16)) + Reversed(Map(Letter, raw)) == Reversed(Map(Letter, raw));
    assert [Raw(0)] == "0";
    LetterOfRaw(raw, 0);
    ReversedConcat(Map(Letter, raw), "0");
    assert Reversed("0") == "0";
  }

  /** `itoa` in base 16. */
  method ItoaHex(i: int, s: array<char>)
    requires INT32_MIN <= i < TWO31 && |HexText(i)| < s.Length
    modifies s
    ensures s[..] == Overwrite(old(s[..]), 0, HexText(i) + ['\0'])
  {
    hide Overwrite, Numeral, Map, Reversed, Printing, Letter;
    ghost var b := s[..];
    var u := i % TWO32;
    var h, q := u, 0;
    ghost var raw := "";
    var more := true;
    OverwriteNothing(b, 0);
    while more
      invariant 0 <= h <= u && q == |raw| < s.Length == |b| && s[..] == Overwrite(b, 0, raw)
      invariant more == (raw == "" || h > 0)
      invariant if raw == "" then h == u else Printing(u, h, raw)
      invariant raw != "" ==> |raw| <= |Numeral(u, 16)|
      decreases h, more
    {
      if raw == "" {
        PrintFirst(u);
        assert raw + [Raw(u % 16)] == [Raw(u % 16)];
      } else {
        PrintDigit(u, h, raw);
      }
      OverwriteOne(b, 0, raw, Raw(h % 16));
      s[q] := Raw(h % 16);
      raw := raw + [Raw(h % 16)];
      q := q + 1;
      h := h / 16;
      more := h != 0;
    }
    Printed(u, raw);
    if 0 <= i < 16 {
      OverwriteOne(b, 0, raw, '0');
      s[q] := '0';
      raw := raw + "0";
      q := q + 1;
    } else {
      assert HexText(i) == Numeral(u, 16);
    }
    OverwriteAgain(b, raw, HexText(i) + ['\0']);
    assert s[..q] == s[..][..q];
    Flip(s, q, Letter);
  }
}

/** Reading numbers (`atoi` and `strtol` of lib/ctype.c) and the round trips with `itoa`. */
module CtypeParse {
  import opened Bits
  import opened Numerals
  import opened Ctype

  // ----- 32-bit wrap-around

  lemma SameModulo(x: int, y: int, k: int)
    requires x == y + k * TWO32
    ensures x % TWO32 == y % TWO32 && Int32(x) == Int32(y)
  {
  }

  /** Wrapping an intermediate value does not change the wrapped result. */
  lemma WrapStep(x: int, w: int, b: int, c: int)
    requires w % TWO32 == x % TWO32
    ensures (w * b + c) % TWO32 == (x * b + c) % TWO32 && Int32(w * b + c) == Int32(x * b + c) && Int32(-w) == Int32(-x)
  {
    var k := x / TWO32 - w / TWO32;
    assert x == w + k * TWO32;
    assert (w + k * TWO32) * b == w * b + (k * b) * TWO32;
    SameModulo(x * b + c, w * b + c, k * b);
    SameModulo(-x, -w, -k);
  }

  lemma Int32Congruent(x: int)
    ensures Int32(x) % TWO32 == x % TWO32
  {
  }

  lemma NegatedWrap(x: int)
    ensures Int32(-Int32(x)) == Int32(-x)
  {
    Int32Congruent(x);
    WrapStep(x, Int32(x), 1, 0);
  }

  // ----- character runs

  predicate IsBlank(c: char) {
    c == ' ' || c == '\t' || c == '\n' || c == '\r'
  }

  function Blanks(s: string): (n: nat)
    ensures n <= |s|
  {
    if s != "" && IsBlank(s[0]) then 1 + Blanks(s[1..]) else 0
  }

  /** How many leading characters, up to `max`, are digits below `limit`. */
  function Run(s: string, limit: nat, max: nat): (n: nat)
    ensures n <= |s| && n <= max
    ensures forall i :: 0 <= i < n ==> 0 <= DigitOf(s[i]) < limit
  {
    if max > 0 && s != "" && 0 <= DigitOf(s[0]) < limit then 1 + Run(s[1..], limit, max - 1) else 0
  }

  function Read(s: string): (ds: seq<nat>)
    requires forall i :: 0 <= i < |s| ==> DigitOf(s[i]) >= 0
    ensures |ds| == |s|
  {
    seq(|s|, i requires 0 <= i < |s| => DigitOf(s[i]))
  }

  /** The number spelt by the leading digits of `s`. */
  function Leading(s: string, limit: nat, max: nat, b: int): int {
    Value(Read(s[..Run(s, limit, max)]), b)
  }

  lemma ReadStep(s: string, i: nat, b: int)
    requires i < |s| && forall k :: 0 <= k <= i ==> DigitOf(s[k]) >= 0
    ensures Value(Read(s[..i + 1]), b) == Value(Read(s[..i]), b) * b + DigitOf(s[i])
  {
    assert Read(s[..i + 1])[..i] == Read(s[..i]);
  }

  lemma {:induction false} RunExtends(s: string, limit: nat, max: nat, i: nat)
    requires i < Run(s, limit, max) || (i == Run(s, limit, max) && i <= |s|)
    ensures i < Run(s, limit, max) <==> i < max && i < |s| && 0 <= DigitOf(s[i]) < limit
    decreases i
  {
    if i > 0 { RunExtends(s[1..], limit, max - 1, i - 1); }
  }

  // ----- atoi

  function AtoiOf(s: string): int {
    var i := Blanks(s);
    var j := if At(s, i) == '-' || At(s, i) == '+' then i + 1 else i;
    var v := Leading(s[j..], 10, |s|, 10);
    Int32(if At(s, i) == '-' then -v else v)
  }

  lemma {:induction false} BlanksStep(s: string, i: nat)
    requires i <= Blanks(s)
    ensures i < Blanks(s) <==> IsBlank(At(s, i))
    decreases i
  {
    if i > 0 { BlanksStep(s[1..], i - 1); }
  }

  /** `atoi`: blanks, one optional sign, then every digit that follows, wrapping at 32 bits. */
  method Atoi(s: string) returns (r: int)
    ensures r == AtoiOf(s)
  {
    hide Run, Blanks, Value, Read;
    var i, neg := 0, false;
    BlanksStep(s, 0);
    while IsBlank(At(s, i))
      invariant i <= Blanks(s) && (i < Blanks(s) <==> IsBlank(At(s, i)))
      decreases |s| - i
    {
      BlanksStep(s, i + 1);
      i := i + 1;
    }
    if At(s, i) == '-' {
      neg := true;
      i := i + 1;
    } else if At(s, i) == '+' {
      i := i + 1;
    }
    var n, _ := ReadDecimal(s, i);
    WrapStep(Leading(s[i..], 10, |s|, 10), n, 0, 0);
    Int32Congruent(Leading(s[i..], 10, |s|, 10));
    r := if neg then Int32(-n) else n;
  }

  /** The digit loop of `atoi`, from `start`; `i` digits are consumed. */
  method ReadDecimal(s: string, start: nat) returns (n: int, i: nat)
    requires start <= |s|
    ensures n == Int32(Leading(s[start..], 10, |s|, 10)) && n % TWO32 == Leading(s[start..], 10, |s|, 10) % TWO32
    ensures i == Run(s[start..], 10, |s|)
  {
    hide Run, Read;
    var t := s[start..];
    n, i := 0, 0;
    RunExtends(t, 10, |s|, 0);
    while '0' <= At(t, i) <= '9'
      invariant i <= Run(t, 10, |s|) <= |t|
      invariant i < Run(t, 10, |s|) <==> '0' <= At(t, i) <= '9'
      invariant forall k :: 0 <= k < i ==> DigitOf(t[k]) >= 0
      invariant n == Int32(Value(Read(t[..i]), 10))
      decreases |t| - i
    {
      ReadStep(t, i, 10);
      Int32Congruent(Value(Read(t[..i]), 10));
      WrapStep(Value(Read(t[..i]), 10), n, 10, DigitOf(t[i]));
      n := Int32(n * 10 + (t[i] as int - 48));
      i := i + 1;
      RunExtends(t, 10, |s|, i);
    }
    Int32Congruent(Value(Read(t[..i]), 10));
  }

  // ----- strtol

  /** Where the digits start, and the base they are read in. */
  function AfterSign(s: string): (i: nat)
    ensures i <= |s|
  {
    if At(s, 0) == '-' then 1 else 0
  }

  predicate HasPrefix(s: string) {
    At(s, AfterSign(s)) == '0' && At(s, AfterSign(s) + 1) == 'x'
  }

  function DigitsStart(s: string): (j: nat)
    ensures j <= |s|
  {
    if HasPrefix(s) then AfterSign(s) + 2 else AfterSign(s)
  }

  function StrtolOf(s: string, base: int): int {
    var v := Leading(s[DigitsStart(s)..], 36, 9, if HasPrefix(s) then 16 else base);
    Int32(if At(s, 0) == '-' then -v else v)
  }

  /** The end position: past the digits, but on the ninth digit when the loop runs out. */
  function StrtolEnd(s: string): nat {
    var n := Run(s[DigitsStart(s)..], 36, 9);
    DigitsStart(s) + if n == 9 then 8 else n
  }

  /** `strtol`: at most nine letters or digits, any of them accepted in any base, wrapping at 32 bits. */
  method Strtol(s: string, base: int) returns (r: int, end: nat)
    ensures r == StrtolOf(s, base) && end == StrtolEnd(s)
  {
    hide Run, Read, Value;
    var p, b, neg := 0, base, false;
    if At(s, 0) == '-' {
      neg := true;
      p := 1;
    }
    if At(s, p) == '0' && At(s, p + 1) == 'x' {
      b := 16;
      p := p + 2;
    }
    assert p == DigitsStart(s);
    var value, i := ReadAlnum(s[p..], b);
    end := if i == 9 then p + 8 else p + i;
    var v := Leading(s[p..], 36, 9, b);
    WrapStep(v, value, 1, 0);
    r := if neg then Int32(-value) else Int32(value);
  }

  method ReadAlnum(t: string, b: int) returns (value: int, i: nat)
    ensures i == Run(t, 36, 9) && value == Leading(t, 36, 9, b) % TWO32
  {
    hide Run, Read;
    value, i := 0, 0;
    RunExtends(t, 36, 9, 0);
    while i <= 8
      invariant i <= Run(t, 36, 9) <= |t|
      invariant i < Run(t, 36, 9) <==> i < 9 && i < |t| && 0 <= DigitOf(t[i]) < 36
      invariant value == Value(Read(t[..i]), b) % TWO32
    {
      var ch := DigitOf(At(t, i));
      if ch < 0 {
        break;
      }
      ReadStep(t, i, b);
      WrapStep(Value(Read(t[..i]), b), value, b, ch);
      value := (value * b + ch) % TWO32;
      i := i + 1;
      RunExtends(t, 36, 9, i);
    }
  }

  // ----- round trips

  /** The digits `Numeral` spells. */
  function Shown(v: nat, b: nat): (ds: seq<nat>)
    requires 2 <= b <= 16
    ensures ds != [] && forall i :: 0 <= i < |ds| ==> ds[i] < b
  {
    if v == 0 then [0] else Digits(v, b)
  }

  lemma NumeralSpells(v: nat, b: nat)
    requires 2 <= b <= 16
    ensures Numeral(v, b) == Spell(Shown(v, b)) && Value(Shown(v, b), b) == v
  {
    if v > 0 {
      DigitsDenote(v, b);
    } else {
      assert Spell([0]) == "0";
    }
  }

  /** Reading stops at the end of the spelt digits, or after `max` of them, and recovers them. */
  lemma {:induction false} RunOfSpelling(ds: seq<nat>, rest: string, limit: nat, max: nat)
    requires forall i :: 0 <= i < |ds| ==> ds[i] < 16 && ds[i] < limit
    requires rest == "" || !(0 <= DigitOf(rest[0]) < limit)
    ensures Run(Spell(ds) + rest, limit, max) == if |ds| <= max then |ds| else max
    decreases |ds|
  {
    if ds != [] && max > 0 {
      RunOfSpelling(ds[1..], rest, limit, max - 1);
      CharOfDigit(ds[0]);
      assert (Spell(ds) + rest)[1..] == Spell(ds[1..]) + rest;
    } else if ds == [] {
      assert Spell(ds) + rest == rest;
    }
  }

  lemma ReadOfSpelling(ds: seq<nat>, rest: string, n: nat)
    requires n <= |ds| && forall i :: 0 <= i < |ds| ==> ds[i] < 16
    ensures forall i :: 0 <= i < n ==> DigitOf((Spell(ds) + rest)[i]) >= 0
    ensures Read((Spell(ds) + rest)[..n]) == ds[..n]
  {
  }

  lemma LeadingOfSpelling(ds: seq<nat>, rest: string, limit: nat, max: nat, b: int)
    requires forall i :: 0 <= i < |ds| ==> ds[i] < 16 && ds[i] < limit
    requires rest == "" || !(0 <= DigitOf(rest[0]) < limit)
    ensures Leading(Spell(ds) + rest, limit, max, b) == Value(if |ds| <= max then ds else ds[..max], b)
  {
    RunOfSpelling(ds, rest, limit, max);
    var n := if |ds| <= max then |ds| else max;
    ReadOfSpelling(ds, rest, n);
    assert |ds| <= max ==> ds[..n] == ds;
  }

  /** A text that starts with a digit has no blank and no sign to skip. */
  lemma StartsWithDigit(ds: seq<nat>, rest: string)
    requires ds != [] && forall i :: 0 <= i < |ds| ==> ds[i] < 16
    ensures var s := Spell(ds) + rest;
      Blanks(s) == 0 && At(s, 0) == DigitChar(ds[0]) && At(s, 0) != '-' && At(s, 0) != '+' && s[0..] == s
  {
  }

  /** `atoi` of what `itoa` prints is the magnitude. */
  lemma AtoiOfDecimal(i: int)
    ensures AtoiOf(DecimalText(i)) == Int32(if i < 0 then -i else i)
  {
    var v := if i < 0 then -i else i;
    var rest := if i < 0 then "-" else "";
    NumeralSpells(v, 10);
    var ds := Shown(v, 10);
    assert DecimalText(i) == Spell(ds) + rest;
    hide Value, Read, Run, Spell, Shown, Blanks;
    StartsWithDigit(ds, rest);
    LeadingOfSpelling(ds, rest, 10, |DecimalText(i)|, 10);
  }

  /**
   * `atoi` inverts base-10 `itoa` on the numbers whose sign survives: the reversal also moves the minus
   * sign, so it is lost for negative numbers (and INT32_MIN comes back only by wrapping around).
   */
  lemma AtoiInvertsItoa(i: int)
    requires INT32_MIN <= i < TWO31
    ensures AtoiOf(DecimalText(i)) == i <==> i >= 0 || i == INT32_MIN
  {
    AtoiOfDecimal(i);
    if i == INT32_MIN { SameModulo(-i, i, 1); }
  }

  lemma HexSpells(i: int) returns (ds: seq<nat>)
    requires INT32_MIN <= i < TWO31
    ensures ds != [] && |ds| <= 8 && (forall k :: 0 <= k < |ds| ==> ds[k] < 16)
    ensures HexText(i) == Spell(ds) && Value(ds, 16) == i % TWO32
  {
    var u := i % TWO32;
    NumeralSpells(u, 16);
    ShortHex(u);
    hide Value, Spell, Digits, Shown, Numeral;
    if 0 <= i < 16 {
      ModUnique(i, TWO32, 0, i);
      ds := SmallHexSpells(i);
    } else {
      ds := Shown(u, 16);
      assert HexText(i) == Numeral(u, 16);
    }
  }

  /** A one-digit number and its leading zero. */
  lemma SmallHexSpells(u: nat) returns (ds: seq<nat>)
    requires u < 16
    ensures ds == [0, u] && "0" + Numeral(u, 16) == Spell(ds) && Value(ds, 16) == u
  {
    ds := [0, u];
    assert u > 0 ==> Digits(u, 16) == [] + [u];
    assert Spell([0]) == "0" && Spell(ds) == Spell([0]) + Spell([u]);
    assert ds[..1] == [0] && [0][..0] == [];
  }

  lemma ShortHex(u: nat)
    requires u < TWO32
    ensures |Shown(u, 16)| <= 8
  {
    Power16();
    DigitCount(u, 16, 8);
  }

  lemma Power16()
    ensures Power(16, 8) == TWO32
  {
  }

  /** Base-16 `strtol` inverts base-16 `itoa` on every 32-bit integer and stops at the end of the text. */
  lemma StrtolInvertsHex(i: int)
    requires INT32_MIN <= i < TWO31
    ensures StrtolOf(HexText(i), 16) == i && StrtolEnd(HexText(i)) == |HexText(i)|
  {
    var ds := HexSpells(i);
    var s := HexText(i);
    assert Spell(ds) + "" == s;
    NoPrefix(ds, "");
    LeadingOfSpelling(ds, "", 36, 9, 16);
    RunOfSpelling(ds, "", 36, 9);
    hide Value, Read, Run, Spell;
    SameModulo(i % TWO32, i, -(i / TWO32));
  }

  lemma NoPrefix(ds: seq<nat>, rest: string)
    requires ds != [] && (forall k :: 0 <= k < |ds| ==> ds[k] < 16) && (rest != "" ==> rest[0] != 'x')
    ensures var s := Spell(ds) + rest; At(s, 0) != '-' && DigitsStart(s) == 0 && !HasPrefix(s) && s[0..] == s
  {
  }

  lemma Power10()
    ensures Power(10, 9) == 1_000_000_000 && Power(10, 10) == 10_000_000_000
  {
  }

  /**
   * Base-10 `strtol` inverts base-10 `itoa` exactly on the non-negative numbers of at most nine digits:
   * the digit loop gives up after nine, so a longer number loses its last digit. The end position is past the
   * digits when there are fewer than nine, and otherwise on the ninth.
   */
  lemma StrtolInvertsDecimal(i: int)
    requires INT32_MIN <= i < TWO31
    ensures StrtolOf(DecimalText(i), 10) == i <==> 0 <= i < 1_000_000_000
    ensures i >= 1_000_000_000 ==> StrtolOf(DecimalText(i), 10) == i / 10
    ensures StrtolEnd(DecimalText(i)) == if -100_000_000 < i < 0 then |DecimalText(i)| - 1 else if 0 <= i < 100_000_000 then |DecimalText(i)| else 8
  {
    var v := if i < 0 then -i else i;
    var rest := if i < 0 then "-" else "";
    NumeralSpells(v, 10);
    var ds := Shown(v, 10);
    assert DecimalText(i) == Spell(ds) + rest;
    NoPrefix(ds, rest);
    LeadingOfSpelling(ds, rest, 36, 9, 10);
    RunOfSpelling(ds, rest, 36, 9);
    EightDigits(v);
    NineDigits(v);
    hide Value, Read, Run, Spell;
  }

  lemma EightDigits(v: nat)
    ensures |Shown(v, 10)| <= 8 <==> v < 100_000_000
  {
    assert Power(10, 8) == 100_000_000;
    DigitCount(v, 10, 8);
  }

  lemma NineDigits(v: nat)
    requires v <= TWO31
    ensures var ds := Shown(v, 10);
      Value(if |ds| <= 9 then ds else ds[..9], 10) == if v < 1_000_000_000 then v else v / 10
  {
    NumeralSpells(v, 10);
    Power10();
    DigitCount(v, 10, 9);
    DigitCount(v, 10, 10);
    if v >= 1_000_000_000 {
      Shrinks(v, 10);
      DigitsDenote(v / 10, 10);
      assert Digits(v, 10)[..9] == Digits(v / 10, 10);
    }
  }

  /** The text of `itoa` in base 10: the digits, and a minus sign behind those of a negative number. */
  lemma DecimalTextMeans(i: int)
    ensures var t := DecimalText(i);
      var n := if i < 0 then |t| - 1 else |t|;
      && n > 0 && Run(t, 10, |t|) == n && Leading(t, 10, |t|, 10) == (if i < 0 then -i else i)
      && (i < 0 ==> t[n] == '-')
  {
    var v := if i < 0 then -i else i;
    var rest := if i < 0 then "-" else "";
    NumeralSpells(v, 10);
    var ds := Shown(v, 10);
    assert DecimalText(i) == Spell(ds) + rest;
    hide Value, Read, Spell, Shown;
    RunOfSpelling(ds, rest, 10, |DecimalText(i)|);
    LeadingOfSpelling(ds, rest, 10, |DecimalText(i)|, 10);
  }

  /** The text in base 16: at least two digits, all of them digits or lower-case letters. */
  lemma HexTextMeans(i: int)
    requires INT32_MIN <= i < TWO31
    ensures var t := HexText(i);
      && 2 <= |t| <= 8 && Run(t, 16, |t|) == |t| && Leading(t, 16, |t|, 16) == i % TWO32
      && forall k :: 0 <= k < |t| ==> '0' <= t[k] <= '9' || 'a' <= t[k] <= 'f'
  {
    var ds := HexSpells(i);
    assert Spell(ds) + "" == HexText(i);
    HexLength(i);
    RunOfSpelling(ds, "", 16, |ds|);
    LeadingOfSpelling(ds, "", 16, |ds|, 16);
  }

  lemma HexLength(i: int)
    requires INT32_MIN <= i < TWO31
    ensures |HexText(i)| >= 2
  {
    var u := i % TWO32;
    if 0 <= i < 16 {
      var ds := SmallHexSpells(i);
    } else {
      assert u >= 16;
      DigitCount(u, 16, 1);
    }
  }

  // ----- signs, blanks and prefixes

  /** A limit beyond the end of the text does not matter. */
  lemma {:induction false} RunToEnd(s: string, limit: nat, max: nat)
    requires max >= |s|
    ensures Run(s, limit, max) == Run(s, limit, |s|)
    decreases |s|
  {
    if s != "" { RunToEnd(s[1..], limit, max - 1); RunToEnd(s[1..], limit, |s| - 1); }
  }

  /** A text that starts neither with a blank nor with a sign. */
  predicate Bare(t: string) {
    !IsBlank(At(t, 0)) && At(t, 0) != '-' && At(t, 0) != '+'
  }

  lemma AtoiBare(t: string)
    requires Bare(t)
    ensures AtoiOf(t) == Int32(Leading(t, 10, |t|, 10))
  {
    assert t[0..] == t;
  }

  /** A plus sign changes nothing, a minus sign negates, leading blanks are skipped. */
  lemma AtoiSigns(t: string)
    requires Bare(t)
    ensures AtoiOf("+" + t) == AtoiOf(t) && AtoiOf("-" + t) == Int32(-AtoiOf(t))
  {
    AtoiBare(t);
    RunToEnd(t, 10, |t| + 1);
    var v := Leading(t, 10, |t|, 10);
    assert ("+" + t)[1..] == t && ("-" + t)[1..] == t;
    assert Blanks("+" + t) == 0 && Blanks("-" + t) == 0;
    hide Leading, Blanks;
    NegatedWrap(v);
  }

  lemma OneMoreBlank(c: char, t: string)
    requires IsBlank(c)
    ensures Blanks([c] + t) == 1 + Blanks(t) && At([c] + t, Blanks(t) + 1) == At(t, Blanks(t))
  {
    assert ([c] + t)[1..] == t;
  }

  lemma LeadingBehind(c: char, t: string, j: nat)
    requires j <= |t|
    ensures Leading(([c] + t)[j + 1..], 10, |t| + 1, 10) == Leading(t[j..], 10, |t|, 10)
  {
    hide Run, Value, Read;
    assert ([c] + t)[j + 1..] == t[j..];
    RunToEnd(t[j..], 10, |t| + 1);
    RunToEnd(t[j..], 10, |t|);
  }

  lemma AtoiSkipsBlank(c: char, t: string)
    requires c == ' ' || c == '\t' || c == '\n' || c == '\r'
    ensures AtoiOf([c] + t) == AtoiOf(t)
  {
    hide Leading, Blanks, Int32;
    var i := Blanks(t);
    OneMoreBlank(c, t);
    LeadingBehind(c, t, if At(t, i) == '-' || At(t, i) == '+' then i + 1 else i);
  }

  /** `strtol`: a minus sign negates, and the end moves with it. */
  lemma StrtolSign(t: string, base: int)
    requires At(t, 0) != '-'
    ensures StrtolOf("-" + t, base) == Int32(-StrtolOf(t, base)) && StrtolEnd("-" + t) == 1 + StrtolEnd(t)
  {
    var s := "-" + t;
    assert At(s, 1) == At(t, 0) && At(s, 2) == At(t, 1);
    assert s[DigitsStart(s)..] == t[DigitsStart(t)..];
    hide Run, Value, Read;
    var v := Leading(t[DigitsStart(t)..], 36, 9, if HasPrefix(t) then 16 else base);
    NegatedWrap(v);
  }

  /** A prefix `0x` makes the base 16, whatever base was asked for. */
  lemma StrtolPrefix(t: string, base: int)
    requires At(t, 0) != '-' && !HasPrefix(t)
    ensures StrtolOf("0x" + t, base) == StrtolOf(t, 16) && StrtolEnd("0x" + t) == 2 + StrtolEnd(t)
  {
    var s := "0x" + t;
    assert At(s, 0) == '0' && At(s, 1) == 'x' && s[2..] == t && t[0..] == t;
    hide Run, Value, Read;
  }

  lemma StrtolReadsHex(u: nat)
    requires u < TWO32
    ensures var t := Numeral(u, 16); At(t, 0) != '-' && !HasPrefix(t) && StrtolOf(t, 16) == Int32(u)
  {
    NumeralSpells(u, 16);
    ShortHex(u);
    var ds, t := Shown(u, 16), Numeral(u, 16);
    assert Spell(ds) + "" == t;
    hide Value, Read, Run, Spell, Shown, Numeral, Leading;
    NoPrefix(ds, "");
    LeadingOfSpelling(ds, "", 36, 9, 16);
  }

  lemma StrtolSignAndPrefix(t: string, base: int)
    requires At(t, 0) != '-' && !HasPrefix(t)
    ensures StrtolOf("-" + ("0x" + t), base) == Int32(-StrtolOf(t, 16))
  {
    var s := "0x" + t;
    assert At(s, 0) == '0';
    hide StrtolOf, StrtolEnd, HasPrefix, Int32;
    StrtolPrefix(t, base);
    StrtolSign(s, base);
  }

  /** So the usual spelling of every 32-bit pattern is read back, prefix and sign included, in every base. */
  lemma StrtolReadsPrefixed(u: int, base: int)
    requires 0 <= u < TWO32
    ensures StrtolOf("0x" + Numeral(u, 16), base) == Int32(u) && StrtolOf("-" + ("0x" + Numeral(u, 16)), base) == Int32(-u)
  {
    hide Numeral, StrtolOf, StrtolEnd, HasPrefix, Int32, At;
    StrtolReadsHex(u);
    NegatedWrap(u);
    StrtolPrefix(Numeral(u, 16), base);
    StrtolSignAndPrefix(Numeral(u, 16), base);
  }
}

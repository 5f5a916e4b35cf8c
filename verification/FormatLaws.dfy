/** What the formats of `Format` mean: agreement with section 7.19.6.1 of C99, reading back, composition. */
module FormatLaws {
  import opened Bits
  import opened Numerals
  import opened Ctype
  import opened CtypeParse
  import opened Format

  // ----- %d

  function Magnitude(v: int): nat {
    if v < 0 then -v else v
  }

  /** `%d` by the standard: blanks go before the sign, zeros after it. */
  function StandardSigned(v: int, pad: char, width: int): string {
    var sign := if v < 0 then "-" else "";
    var fill := Repeat(pad, width - |sign| - |Numeral(Magnitude(v), 10)|);
    if pad == '0' then sign + fill + Numeral(Magnitude(v), 10) else fill + sign + Numeral(Magnitude(v), 10)
  }

  /** The fields the code gets wrong: a negative number with blanks to add. */
  predicate SignSeparated(v: int, pad: char, width: int) {
    v < 0 && pad == ' ' && width > |Numeral(-v, 10)| + 1
  }

  lemma SignedFieldIsStandard(v: int, pad: char, width: int)
    requires pad == ' ' || pad == '0'
    ensures SignedField(v, pad, width) == StandardSigned(v, pad, width) <==> !SignSeparated(v, pad, width)
  {
    var t := Numeral(Magnitude(v), 10);
    hide Numeral;
    if v >= 0 {
      assert Repeat(pad, width - |t|) + "" + t == Repeat(pad, width - |t|) + t == "" + Repeat(pad, width - |t|) + t;
    } else if SignSeparated(v, pad, width) {
      assert SignedField(v, pad, width)[0] == '-';
      assert StandardSigned(v, pad, width)[0] == ' ';
    } else if pad == '0' {
      assert "-" + Repeat(pad, width - 1 - |t|) + t == "-" + (Repeat(pad, width - 1 - |t|) + t);
    } else {
      assert Repeat(pad, width - 1 - |t|) == "";
      assert "" + "-" + t == "-" + ("" + t);
    }
  }

  lemma {:induction false} LeadingZeros(n: nat, ds: seq<nat>, b: nat)
    ensures Value(seq(n, _ => 0) + ds, b) == Value(ds, b)
    decreases |ds|, n
  {
    var z := seq(n, _ => 0);
    if ds != [] {
      var m := |ds| - 1;
      LeadingZeros(n, ds[..m], b);
      assert (z + ds)[..|z + ds| - 1] == z + ds[..m];
    } else if n > 0 {
      LeadingZeros(n - 1, ds, b);
      assert z + ds == z && seq(n - 1, _ => 0) + ds == z[..n - 1];
    } else {
      assert z + ds == ds;
    }
  }

  /** A numeral behind zeros is still its value. */
  lemma ZerosThenNumeral(v: nat, n: int, max: nat)
    requires max >= |Repeat('0', n) + Numeral(v, 10)|
    ensures Leading(Repeat('0', n) + Numeral(v, 10), 10, max, 10) == v
    ensures '0' <= At(Repeat('0', n) + Numeral(v, 10), 0) <= '9'
  {
    NumeralSpells(v, 10);
    var k: nat := if n > 0 then n else 0;
    var ds := seq(k, _ => 0) + Shown(v, 10);
    var s := Repeat('0', n) + Numeral(v, 10);
    assert Spell(ds) + "" == s;
    LeadingZeros(k, Shown(v, 10), 10);
    LeadingOfSpelling(ds, "", 10, max, 10);
    StartsWithDigit(ds, "");
    assert ds[0] < 10;
  }

  lemma {:induction false} BlanksThen(n: nat, t: string)
    requires t != "" && !IsBlank(t[0])
    ensures Blanks(Repeat(' ', n) + t) == n
  {
    if n > 0 {
      BlanksThen(n - 1, t);
      assert (Repeat(' ', n) + t)[1..] == Repeat(' ', n - 1) + t;
    } else {
      assert Repeat(' ', n) + t == t;
    }
  }

  /** Digits after `i` blanks. */
  lemma AtoiAfterBlanks(s: string, i: nat, t: string)
    requires Blanks(s) == i && i < |s| && s[i..] == t && '0' <= t[0] <= '9'
    ensures AtoiOf(s) == Int32(Leading(t, 10, |s|, 10))
  {
  }

  lemma ReadsUnsigned(v: nat, pad: char, width: int)
    requires v < TWO31 && (pad == ' ' || pad == '0')
    ensures AtoiOf(Padded(Numeral(v, 10), pad, width)) == v
  {
    hide Numeral, AtoiOf, Leading;
    var t := Numeral(v, 10);
    var s := Padded(t, pad, width);
    var n := width - |t|;
    if pad == ' ' {
      var k: nat := if n > 0 then n else 0;
      ZerosThenNumeral(v, 0, |s|);
      assert Repeat('0', 0) + t == t;
      BlanksThen(k, t);
      assert s == Repeat(' ', k) + t && s[k..] == t;
      AtoiAfterBlanks(s, k, t);
    } else {
      ZerosThenNumeral(v, n, |s|);
      assert s[0..] == s;
      AtoiAfterBlanks(s, 0, s);
    }
  }

  lemma ReadsNegative(v: int, pad: char, width: int)
    requires INT32_MIN <= v < 0 && (pad == ' ' || pad == '0')
    ensures AtoiOf(SignedField(v, pad, width)) == if SignSeparated(v, pad, width) then 0 else v
  {
    var t := Numeral(-v, 10);
    var n := width - 1 - |t|;
    var s := SignedField(v, pad, width);
    assert s[0] == '-' && s[1..] == Repeat(pad, n) + t && Blanks(s) == 0;
    if SignSeparated(v, pad, width) {
      assert s[1..][0] == ' ';
      assert Run(s[1..], 10, |s|) == 0;
    } else {
      ZerosThenNumeral(-v, n, |s|);
      assert Repeat(pad, n) == Repeat('0', n);
    }
  }

  /** `atoi` reads back what `%d` prints, for every width and padding, except when blanks follow the sign. */
  lemma AtoiReadsBack(v: int, pad: char, width: int)
    requires INT32_MIN <= v < TWO31 && (pad == ' ' || pad == '0')
    ensures AtoiOf(SignedField(v, pad, width)) == v <==> !SignSeparated(v, pad, width)
  {
    hide Numeral, AtoiOf;
    if v < 0 { ReadsNegative(v, pad, width); } else { ReadsUnsigned(v, pad, width); }
  }

  // ----- %s

  function StandardString(s: string, width: int): string {
    Repeat(' ', width - |s|) + s
  }

  ghost predicate AllBlank(s: string) {
    forall i :: 0 <= i < |s| ==> s[i] == ' '
  }

  lemma {:induction false} ShiftInvariant(s: string, k: nat, i: nat)
    requires k > 0 && i < |s| && s + Repeat(' ', k) == Repeat(' ', k) + s
    ensures s[i] == ' '
    decreases i
  {
    assert (s + Repeat(' ', k))[i] == (Repeat(' ', k) + s)[i];
    if i >= k { ShiftInvariant(s, k, i - k); }
  }

  /** `%s` follows the standard only without a width, with an exact one, or when all is blank. */
  lemma StringFieldIsStandard(s: string, width: int)
    ensures StringField(s, ' ', width) == StandardString(s, width)
      <==> width < 0 || width == |s| || (width > |s| && AllBlank(s))
  {
    if width > |s| {
      var k := width - |s|;
      if AllBlank(s) {
        assert s + Repeat(' ', k) == Repeat(' ', k) + s;
      } else if s + Repeat(' ', k) == Repeat(' ', k) + s {
        forall i | 0 <= i < |s| ensures s[i] == ' ' { ShiftInvariant(s, k, i); }
      }
    } else {
      assert StandardString(s, width) == s;
      if width == |s| { assert s[..width] == s; }
    }
  }

  // ----- %ld

  /** A format that is a single directive renders as that directive. */
  lemma RenderOne(g: string, args: seq<Arg>)
    requires Parse(g).Some? && Parse(g).value.len == |g|
    ensures Render("%" + g, args) == Convert(Parse(g).value, args)
  {
    hide Parse, Convert;
    var f := "%" + g;
    assert f[1..] == g && f[1 + |g|..] == "";
    var d := Parse(g).value;
    if Convert(d, args).Some? { assert Convert(d, args).value + "" == Convert(d, args).value; }
  }

  lemma PlainNumber(t: string)
    ensures Padded(t, ' ', -1) == t && Padded(t, ' ', -2) == t
  {
  }

  lemma SignedDiffers(v: int)
    requires INT32_MIN <= v < TWO31
    ensures SignedField(v, ' ', -1) == Numeral(v % TWO32, 10) <==> v >= 0
  {
    hide Numeral;
    if v >= 0 {
      ModUnique(v, TWO32, 0, v);
      PlainNumber(Numeral(v, 10));
    } else {
      var t := Numeral(v % TWO32, 10);
      ZerosThenNumeral(v % TWO32, 0, |t|);
      assert Repeat('0', 0) + t == t;
      assert SignedField(v, ' ', -1)[0] == '-' && At(t, 0) == t[0];
    }
  }

  lemma LongText(v: int)
    requires INT32_MIN <= v < TWO31
    ensures Render("%ld", [Word(v)]) == Some(Numeral(v % TWO32, 10))
  {
    ParseShort('l', "d");
    assert "l" + "d" == "ld" && "%" + "ld" == "%ld";
    RenderOne("ld", [Word(v)]);
    hide Parse, Render, Numeral, Padded;
    PlainNumber(Numeral(v % TWO32, 10));
  }

  lemma PlainText(v: int)
    requires INT32_MIN <= v < TWO31
    ensures Render("%d", [Word(v)]) == Some(SignedField(v, ' ', -1))
  {
    ParseShort('d', "");
    assert "d" + "" == "d" && "%" + "d" == "%d";
    RenderOne("d", [Word(v)]);
    hide Parse, Render, SignedField;
  }

  /** The `l` modifier drops the conversion after it and prints unsigned decimal. */
  lemma LongPrintsUnsigned(v: int)
    requires INT32_MIN <= v < TWO31
    ensures Render("%ld", [Word(v)]) == Some(Numeral(v % TWO32, 10))
    ensures Render("%ld", [Word(v)]) == Render("%d", [Word(v)]) <==> v >= 0
  {
    hide Render, Numeral, SignedField;
    LongText(v);
    PlainText(v);
    SignedDiffers(v);
  }

  lemma ParseShort(c: char, rest: string)
    requires (c == 'l' && |rest| >= 1) || c == 'd'
    ensures Parse([c] + rest) == Some(Directive(' ', -1, c, if c == 'l' then 2 else 1))
  {
  }

  // ----- directives with flag and width

  /** Flag, width and conversion as they are written in a format. */
  function Written(zero: bool, width: Option<nat>, conv: string): string {
    (if zero then "0" else "") + (if width.Some? then Numeral(width.value, 10) else "") + conv
  }

  /** The width fits in an `int`, and a width of 0 is not taken for the flag; one conversion character, or
      `l` and the one it modifies. */
  predicate Writable(zero: bool, width: Option<nat>, conv: string) {
    && (width.Some? ==> width.value < TWO31 && (zero || width.value > 0))
    && conv != "" && !('0' <= conv[0] <= '9') && |conv| == if conv[0] == 'l' then 2 else 1
  }

  function PadChar(zero: bool): char {
    if zero then '0' else ' '
  }

  function FieldWidth(width: Option<nat>): int {
    if width.Some? then width.value else -1
  }

  lemma {:induction false} FirstDigit(v: nat, b: nat)
    requires v > 0 && b >= 2
    ensures Digits(v, b)[0] > 0
  {
    Shrinks(v, b);
    if v / b > 0 { FirstDigit(v / b, b); }
  }

  /** A numeral does not start with a zero, except that of 0. */
  lemma NumeralStart(v: nat, b: nat)
    requires 2 <= b <= 16
    ensures Numeral(v, b)[0] == '0' <==> v == 0
    ensures v == 0 ==> Numeral(v, b) == "0"
  {
    if v > 0 { FirstDigit(v, b); }
  }

  lemma WidthRead(w: nat, conv: string, max: nat)
    requires conv != "" && !('0' <= conv[0] <= '9') && max >= |Numeral(w, 10)|
    ensures Run(Numeral(w, 10) + conv, 10, max) == |Numeral(w, 10)|
    ensures Leading(Numeral(w, 10) + conv, 10, max, 10) == w
  {
    NumeralSpells(w, 10);
    var ds := Shown(w, 10);
    RunOfSpelling(ds, conv, 10, max);
    LeadingOfSpelling(ds, conv, 10, max, 10);
  }

  lemma NoWidth(conv: string, max: nat)
    requires conv != "" && !('0' <= conv[0] <= '9')
    ensures Run(conv, 10, max) == 0
  {
  }

  lemma FieldsRead(zero: bool, width: Option<nat>, conv: string)
    requires Writable(zero, width, conv)
    ensures var f := Written(zero, width, conv);
      && FlagLength(f) == (if zero then 1 else 0) && Width(f) == FieldWidth(width)
      && FlagLength(f) + WidthLength(f) == |f| - |conv|
  {
    var f := Written(zero, width, conv);
    var flag := if zero then "0" else "";
    var text := if width.Some? then Numeral(width.value, 10) else "";
    assert f[|flag|..] == text + conv;
    if width.Some? {
      NumeralStart(width.value, 10);
      WidthRead(width.value, conv, |f|);
    } else {
      NoWidth(conv, |f|);
      assert text + conv == conv;
    }
    hide Numeral, Run, Leading;
    assert zero ==> f[0] == '0';
    assert !zero ==> f[0] == (text + conv)[0];
  }

  /** Flag, width and conversion are read back as written. */
  lemma ParseWritten(zero: bool, width: Option<nat>, conv: string)
    requires Writable(zero, width, conv)
    ensures var f := Written(zero, width, conv);
      Parse(f) == Some(Directive(PadChar(zero), FieldWidth(width), conv[0], |f|))
  {
    FieldsRead(zero, width, conv);
    var f := Written(zero, width, conv);
    var j := |f| - |conv|;
    assert f[j..] == conv && f[j] == conv[0];
    hide FlagLength, WidthLength, Width, Written;
  }

  /** How many arguments a format consumes. */
  function Uses(fmt: string): nat
    decreases |fmt|
  {
    if fmt == "" then 0
    else if fmt[0] != '%' then Uses(fmt[1..])
    else
      var d := Parse(fmt[1..]);
      if d.None? then 0 else ArgsUsed(d.value.conv) + Uses(fmt[1 + d.value.len..])
  }

  lemma UsesOne(g: string)
    requires Parse(g).Some? && Parse(g).value.len == |g|
    ensures Uses("%" + g) == ArgsUsed(Parse(g).value.conv)
  {
    hide Parse;
    assert ("%" + g)[1..] == g && ("%" + g)[1 + |g|..] == "";
  }

  /** A format of one directive. */
  lemma RenderWritten(zero: bool, width: Option<nat>, conv: string, args: seq<Arg>)
    requires Writable(zero, width, conv)
    ensures var f := Written(zero, width, conv);
      && Render("%" + f, args) == Convert(Directive(PadChar(zero), FieldWidth(width), conv[0], |f|), args)
      && Uses("%" + f) == ArgsUsed(conv[0])
  {
    ParseWritten(zero, width, conv);
    var f := Written(zero, width, conv);
    hide Written, Parse, Convert;
    hide Render, Uses;
    RenderOne(f, args);
    UsesOne(f);
  }

  /** `t` is the text of `v` in base `b`: the digits 0 to 9 and a to f, without needless zeros, behind as
      many `pad` as it takes to fill `width`. */
  ghost predicate ShowsNumber(t: string, v: int, b: nat, pad: char, width: int) {
    exists k: nat :: k <= |t| && ShowsBehind(t, k, v, b, pad, width)
  }

  ghost predicate ShowsBehind(t: string, k: nat, v: int, b: nat, pad: char, width: int)
    requires k <= |t|
  {
    var d := t[k..];
    && (forall i :: 0 <= i < k ==> t[i] == pad) && (k > 0 ==> |t| == width) && |t| >= width
    && d != "" && (d[0] == '0' ==> |d| == 1)
    && (forall i :: 0 <= i < |d| ==> '0' <= d[i] <= '9' || 'a' <= d[i] <= 'f')
    && Run(d, b, |d|) == |d| && Leading(d, b, |d|, b) == v
  }

  lemma NumeralDigits(v: nat, b: nat)
    requires 2 <= b <= 16
    ensures var d := Numeral(v, b);
      && (forall i :: 0 <= i < |d| ==> '0' <= d[i] <= '9' || 'a' <= d[i] <= 'f') && (d[0] == '0' ==> |d| == 1)
      && Run(d, b, |d|) == |d| && Leading(d, b, |d|, b) == v
  {
    NumeralStart(v, b);
    NumeralSpells(v, b);
    var ds := Shown(v, b);
    assert Spell(ds) + "" == Numeral(v, b);
    RunOfSpelling(ds, "", b, |ds|);
    LeadingOfSpelling(ds, "", b, |ds|, b);
  }

  lemma PaddedShows(v: nat, b: nat, pad: char, width: int)
    requires 2 <= b <= 16
    ensures ShowsNumber(Padded(Numeral(v, b), pad, width), v, b, pad, width)
  {
    var d := Numeral(v, b);
    var t := Padded(d, pad, width);
    NumeralDigits(v, b);
    hide Numeral, Run, Leading;
    PaddedParts(d, pad, width);
    hide Padded;
    assert ShowsBehind(t, |t| - |d|, v, b, pad, width);
  }

  lemma PaddedParts(d: string, pad: char, width: int)
    ensures var t := Padded(d, pad, width);
      var k := |t| - |d|;
      && k >= 0 && t[k..] == d && (forall i :: 0 <= i < k ==> t[i] == pad) && (k > 0 ==> |t| == width) && |t| >= width
  {
  }

  /** The base of an unsigned conversion. */
  function BaseOf(c: char): nat {
    if c == 'u' || c == 'l' then 10 else 16
  }

  lemma UnsignedIsPadded(d: Directive, v: int)
    requires d.conv in "uxXpl" && INT32_MIN <= v < TWO32
    ensures Convert(d, [Word(v)]) ==
      Some(Padded(Numeral(v % TWO32, BaseOf(d.conv)), d.pad, if d.conv == 'p' then 8 else d.width))
  {
    hide Padded, Numeral;
    assert d.conv == 'u' || d.conv == 'x' || d.conv == 'X' || d.conv == 'p' || d.conv == 'l';
  }

  lemma UnsignedDirective(d: Directive, v: int)
    requires d.conv in "uxXpl" && INT32_MIN <= v < TWO32
    ensures var r := Convert(d, [Word(v)]);
      r.Some? && ShowsNumber(r.value, v % TWO32, BaseOf(d.conv), d.pad, if d.conv == 'p' then 8 else d.width)
  {
    var u, w := v % TWO32, if d.conv == 'p' then 8 else d.width;
    UnsignedIsPadded(d, v);
    hide Padded, Numeral, ShowsNumber, Convert;
    PaddedShows(u, BaseOf(d.conv), d.pad, w);
  }

  lemma SignedDirective(d: Directive, v: int)
    requires d.conv == 'd' && INT32_MIN <= v < TWO31
    ensures var r := Convert(d, [Word(v)]);
      && r == Some(SignedField(v, d.pad, d.width))
      && if v >= 0 then ShowsNumber(r.value, v, 10, d.pad, d.width)
         else r.value != "" && r.value[0] == '-' && ShowsNumber(r.value[1..], -v, 10, d.pad, d.width - 1)
  {
    var w := if v < 0 then d.width - 1 else d.width;
    PaddedShows(Magnitude(v), 10, d.pad, w);
    hide Padded, Numeral, ShowsNumber;
    assert v < 0 ==> SignedField(v, d.pad, d.width)[1..] == Padded(Numeral(-v, 10), d.pad, w);
  }

  lemma CharacterDirective(d: Directive, v: int)
    requires INT32_MIN <= v < TWO32
    ensures d.conv == 'c' ==> var r := Convert(d, [Word(v)]); r.Some? && |r.value| == 1 && r.value[0] as int == v % 256
    ensures d.conv == '%' ==> Convert(d, []) == Some("%") && ArgsUsed(d.conv) == 0
    ensures d.conv !in "cslXxdup%" ==> Convert(d, []) == Some("") && ArgsUsed(d.conv) == 0
  {
  }

  /** `%u`, `%x`, `%X`, `%p` and `%l.`, with any flag and width: the 32-bit pattern of the argument, in decimal
      or hexadecimal.  `%p` is always 8 wide. */
  lemma UnsignedText(zero: bool, width: Option<nat>, conv: string, v: int)
    requires Writable(zero, width, conv) && conv[0] in "uxXpl" && INT32_MIN <= v < TWO32
    ensures var r := Render("%" + Written(zero, width, conv), [Word(v)]);
      r.Some? && ShowsNumber(r.value, v % TWO32, BaseOf(conv[0]), PadChar(zero), if conv[0] == 'p' then 8 else FieldWidth(width))
  {
    RenderWritten(zero, width, conv, [Word(v)]);
    hide Render, Written, Convert, ShowsNumber;
    UnsignedDirective(Directive(PadChar(zero), FieldWidth(width), conv[0], |Written(zero, width, conv)|), v);
  }

  /** `%d` with any flag and width: a minus sign for negative numbers, then the magnitude in what is left of
      the field. */
  lemma SignedText(zero: bool, width: Option<nat>, v: int)
    requires Writable(zero, width, "d") && INT32_MIN <= v < TWO31
    ensures var r := Render("%" + Written(zero, width, "d"), [Word(v)]);
      && r == Some(SignedField(v, PadChar(zero), FieldWidth(width)))
      && if v >= 0 then ShowsNumber(r.value, v, 10, PadChar(zero), FieldWidth(width))
         else r.value != "" && r.value[0] == '-' && ShowsNumber(r.value[1..], -v, 10, PadChar(zero), FieldWidth(width) - 1)
  {
    RenderWritten(zero, width, "d", [Word(v)]);
    hide Render, Written, Convert, ShowsNumber, SignedField;
    SignedDirective(Directive(PadChar(zero), FieldWidth(width), 'd', |Written(zero, width, "d")|), v);
  }

  /** So what the laws of `%d` say holds of every format of one `%d`. */
  lemma PrintedReadsBack(zero: bool, width: Option<nat>, v: int)
    requires Writable(zero, width, "d") && INT32_MIN <= v < TWO31
    ensures var r := Render("%" + Written(zero, width, "d"), [Word(v)]);
      r.Some? && (AtoiOf(r.value) == v <==> !SignSeparated(v, PadChar(zero), FieldWidth(width)))
  {
    SignedText(zero, width, v);
    hide Render, Written, SignedField, SignSeparated, AtoiOf;
    AtoiReadsBack(v, PadChar(zero), FieldWidth(width));
  }

  /** `%s`: the string, or `<NULL>`, cut to the width or filled up behind to it. */
  lemma StringText(zero: bool, width: Option<nat>, a: Arg)
    requires Writable(zero, width, "s") && !a.Word?
    ensures var r := Render("%" + Written(zero, width, "s"), [a]);
      var s := if a.Chars? then a.s else "<NULL>";
      && r.Some? && (width.None? ==> r.value == s)
      && (width.Some? ==>
        && |r.value| == width.value
        && forall i :: 0 <= i < width.value ==> r.value[i] == if i < |s| then s[i] else PadChar(zero))
  {
    RenderWritten(zero, width, "s", [a]);
    hide Render, Written;
  }

  /** `%c` is the character with the code of the low byte, `%%` is a percent sign, and an unknown conversion
      prints nothing; the last two take no argument. */
  lemma CharacterText(zero: bool, width: Option<nat>, c: char, v: int)
    requires Writable(zero, width, [c]) && INT32_MIN <= v < TWO32
    ensures var f := "%" + Written(zero, width, [c]);
      && (c == 'c' ==> var r := Render(f, [Word(v)]); r.Some? && |r.value| == 1 && r.value[0] as int == v % 256)
      && (c == '%' ==> Render(f, []) == Some("%") && Uses(f) == 0)
      && (c !in "cslXxdup%" ==> Render(f, []) == Some("") && Uses(f) == 0)
  {
    RenderWritten(zero, width, [c], [Word(v)]);
    RenderWritten(zero, width, [c], []);
    hide Render, Written, Uses, Convert, ArgsUsed;
    CharacterDirective(Directive(PadChar(zero), FieldWidth(width), c, |Written(zero, width, [c])|), v);
  }

  /** A format without directives is its own text. */
  lemma {:induction false} LiteralText(f: string)
    requires '%' !in f
    ensures Render(f, []) == Some(f) && Uses(f) == 0
    decreases |f|
  {
    if f != "" {
      LiteralText(f[1..]);
      assert [f[0]] + f[1..] == f;
    }
  }

  // ----- composition

  lemma {:induction false} RunOfPrefix(s: string, g: string, limit: nat, max: nat, more: nat)
    requires Run(s, limit, max) < |s| <= max <= more
    ensures Run(s + g, limit, more) == Run(s, limit, max)
    decreases |s|
  {
    assert (s + g)[0] == s[0];
    if 0 <= DigitOf(s[0]) < limit {
      RunOfPrefix(s[1..], g, limit, max - 1, more - 1);
      assert (s + g)[1..] == s[1..] + g;
    }
  }

  lemma WidthOfPrefix(f: string, g: string)
    requires FlagLength(f) + WidthLength(f) < |f|
    ensures FlagLength(f + g) == FlagLength(f) && WidthLength(f + g) == WidthLength(f) && Width(f + g) == Width(f)
  {
    hide Run, Value, Read;
    var i := FlagLength(f);
    assert At(f, 0) == At(f + g, 0);
    RunOfPrefix(f[i..], g, 10, |f|, |f + g|);
    assert (f + g)[i..] == f[i..] + g;
    assert (f + g)[i..][..WidthLength(f)] == f[i..][..WidthLength(f)];
  }

  /** A complete directive does not depend on what follows it. */
  lemma ParseOfPrefix(f: string, g: string)
    requires Parse(f).Some?
    ensures Parse(f + g) == Parse(f)
  {
    hide FlagLength, WidthLength, Width;
    WidthOfPrefix(f, g);
    assert At(f + g, FlagLength(f) + WidthLength(f)) == f[FlagLength(f) + WidthLength(f)];
  }

  lemma ConvertIgnoresRest(d: Directive, a: seq<Arg>, b: seq<Arg>)
    requires ArgsUsed(d.conv) <= |a|
    ensures Convert(d, a + b) == Convert(d, a)
  {
  }

  /** Formats compose: printing `f` and `g` together prints the text of `f` and then that of `g`. */
  lemma {:induction false} RenderConcat(f: string, g: string, a: seq<Arg>, b: seq<Arg>)
    requires Render(f, a).Some? && Uses(f) == |a|
    ensures Render(f + g, a + b) == Concat(Render(f, a).value, Render(g, b))
    decreases |f|
  {
    hide Parse, Convert;
    if f == "" {
      assert f + g == g && a + b == b;
      if Render(g, b).Some? { assert "" + Render(g, b).value == Render(g, b).value; }
    } else if f[0] != '%' {
      RenderConcat(f[1..], g, a, b);
      assert (f + g)[0] == f[0] && (f + g)[1..] == f[1..] + g;
      ConcatAssoc([f[0]], Render(f[1..], a).value, Render(g, b));
    } else {
      RenderConcatDirective(f, g, a, b);
    }
  }

  lemma ConcatAssoc(t: string, u: string, r: Option<string>)
    ensures Concat(t, Concat(u, r)) == Concat(t + u, r)
  {
    if r.Some? { assert t + (u + r.value) == t + u + r.value; }
  }

  lemma {:induction false} RenderConcatDirective(f: string, g: string, a: seq<Arg>, b: seq<Arg>)
    requires f != "" && f[0] == '%' && Render(f, a).Some? && Uses(f) == |a|
    ensures Render(f + g, a + b) == Concat(Render(f, a).value, Render(g, b))
    decreases |f|, 0
  {
    hide Parse, Convert;
    var d := Parse(f[1..]).value;
    ParseOfPrefix(f[1..], g);
    assert (f + g)[0] == '%' && (f + g)[1..] == f[1..] + g;
    var k := ArgsUsed(d.conv);
    ConvertIgnoresRest(d, a, b);
    var f' := f[1 + d.len..];
    assert (f + g)[1 + d.len..] == f' + g && (a + b)[k..] == a[k..] + b;
    RenderConcat(f', g, a[k..], b);
    ConcatAssoc(Convert(d, a).value, Render(f', a[k..]).value, Render(g, b));
  }
}

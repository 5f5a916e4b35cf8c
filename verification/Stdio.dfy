/** Bounded formatted output (`vsnprintf` of lib/stdio.c) proved against the text of `Format`. */
module Stdio {
  import opened Bits
  import opened Seqs
  import opened Numerals
  import opened Ctype
  import opened CtypeParse
  import opened Format

  /** What a buffer that held `was` shows after `out` has been printed into its first `end` places. */
  ghost function Shows(was: string, out: string, end: nat): string
    requires end <= |was|
  {
    Overwrite(was, 0, if |out| < end then out else out[..end])
  }

  lemma ShowsMore(was: string, out: string, end: nat, c: char)
    requires end <= |was|
    ensures Shows(was, out + [c], end) == if |out| < end then Shows(was, out, end)[|out| := c] else Shows(was, out, end)
  {
  }

  lemma ShowsNothing(was: string, end: nat)
    requires end <= |was|
    ensures Shows(was, "", end) == was
  {
  }

  /** The output state of `vsnprintf`: its locals `str`, `end` and `len`; `out` is all that was printed. */
  class Sink {
    const str: array?<char>
    const end: nat
    var at: nat
    var len: nat
    ghost const was: string
    ghost var out: string

    ghost predicate Valid()
      reads this, str
    {
      && at == len == |out|
      && (if str == null then end == 0 else end <= str.Length == |was| && str[..] == Shows(was, out, end))
    }

    constructor (str: array?<char>, end: nat)
      requires if str == null then end == 0 else end <= str.Length
      ensures Valid() && this.str == str && this.end == end && out == "" && (str != null ==> was == str[..])
    {
      this.str, this.end := str, end;
      at, len := 0, 0;
      out := "";
      was := if str == null then "" else str[..];
      new;
      if str != null { ShowsNothing(was, end); }
    }

    /** `printchar_bounded`. */
    method Put(c: char)
      requires Valid()
      modifies this`at, this`len, this`out, str
      ensures Valid() && out == old(out) + [c]
    {
      hide Shows;
      if str != null { ShowsMore(was, out, end, c); }
      if at < end {
        str[at] := c;
      }
      at := at + 1;
      len := len + 1;
      out := out + [c];
    }

    /** The padding loops. */
    method PutPad(c: char, n: int)
      requires Valid()
      modifies this`at, this`len, this`out, str
      ensures Valid() && out == old(out) + Repeat(c, n)
    {
      hide Shows;
      var width := n;
      ghost var o := out;
      assert o == o + Repeat(c, 0);
      while width > 0
        invariant Valid() && 0 <= n - width && (n >= 0 ==> width >= 0)
        invariant n >= 0 ==> out == o + Repeat(c, n - width)
        invariant n < 0 ==> width == n && out == o
      {
        Put(c);
        RepeatMore(c, n - width);
        assert out == o + (Repeat(c, n - width) + [c]);
        width := width - 1;
      }
    }

    /** The loop that prints collected digits back to front. */
    method PutReversed(tmp: array<char>, n: nat)
      requires Valid() && n <= tmp.Length && tmp != str
      modifies this`at, this`len, this`out, str
      ensures Valid() && out == old(out) + Reversed(tmp[..n])
    {
      hide Shows;
      var i: nat := n;
      ghost var o, t := out, tmp[..n];
      assert t == t[..n];
      assert out + Reversed(t[..n]) == o + Reversed(t);
      while i > 0
        invariant Valid() && i <= n == |t| && tmp[..n] == t
        invariant out + Reversed(t[..i]) == o + Reversed(t)
      {
        i := i - 1;
        ReversedLast(t, i);
        assert tmp[i] == t[i];
        ghost var before := out;
        Put(tmp[i]);
        assert out + Reversed(t[..i]) == before + ([t[i]] + Reversed(t[..i]));
      }
      assert out + Reversed(t[..0]) == out;
    }

    /** The two loops of `%s`. */
    method PutString(s: CString, pad: char, w: int)
      requires Valid() && w >= -1
      modifies this`at, this`len, this`out, str
      ensures Valid() && out == old(out) + StringField(s, pad, w)
    {
      hide Shows;
      var i, width := 0, w;
      ghost var o := out;
      assert o == o + s[..0];
      while At(s, i) != '\0' && width != 0
        invariant Valid() && i <= |s| && width == w - i && (w >= 0 ==> width >= 0)
        invariant out == o + s[..i]
        decreases |s| - i
      {
        Put(s[i]);
        assert s[..i + 1] == s[..i] + [s[i]];
        i, width := i + 1, width - 1;
      }
      PutPad(pad, width);
      StringFieldSplit(s, pad, w, i);
      assert out == o + (s[..i] + Repeat(pad, width));
    }
  }

  lemma RepeatMore(c: char, n: nat)
    ensures Repeat(c, n + 1) == Repeat(c, n) + [c]
  {
  }

  lemma ReversedLast(t: string, i: nat)
    requires i < |t|
    ensures Reversed(t[..i + 1]) == [t[i]] + Reversed(t[..i])
  {
  }

  lemma StringFieldSplit(s: string, pad: char, w: int, i: nat)
    requires i <= |s| && (i == |s| || i == w) && (w >= 0 ==> i <= w)
    ensures StringField(s, pad, w) == s[..i] + Repeat(pad, w - i)
  {
  }

  /** The loop over `divide` that collects hexadecimal digits, least significant first. */
  method HexDigits(u: nat, tmp: array<char>) returns (i: nat)
    requires 0 < u < TWO32 && tmp.Length == 32
    modifies tmp
    ensures i <= 32 && tmp[..i] == Reversed(Numeral(u, 16))
  {
    hide Spell, Digits, Reversed, DigitChar;
    var num := u;
    i := 0;
    ghost var e := "";
    ShortNumeral(u, 16);
    StartDigits(u, 16);
    while num != 0
      invariant 0 <= num < TWO32 && i == |e| && i + |Spell(Digits(num, 16))| <= 32 && tmp[..i] == e
      invariant Spell(Digits(num, 16)) + Reversed(e) == Numeral(u, 16)
      decreases num
    {
      EmitDigit(num, 16, e);
      tmp[i] := DigitChar(num % 16);
      e := e + [DigitChar(num % 16)];
      num := num / 16;
      i := i + 1;
    }
    FinishEmitting(e, u, 16);
  }

  lemma StartDigits(v: nat, b: nat)
    requires v > 0 && 2 <= b <= 16
    ensures Spell(Digits(v, b)) + Reversed("") == Numeral(v, b) && Numeral(v, b) == Spell(Digits(v, b))
  {
  }

  /** The digits of a word fit in the 32-character scratch array. */
  lemma ShortNumeral(v: nat, b: nat)
    requires v < TWO32 && (b == 10 || b == 16)
    ensures |Numeral(v, b)| <= 10
  {
    Power10();
    Power16();
    DigitCount(v, 10, 10);
    DigitCount(v, 16, 8);
  }

  /** The digits of a number, least significant first, in a scratch array. */
  method Collect(num: int, base: nat, tmp: array<char>) returns (i: nat)
    requires INT32_MIN <= num < TWO32 && (base == 10 || base == 16) && tmp.Length == 32
    modifies tmp
    ensures i <= 32 && tmp[..i] == Reversed(Numeral(num % TWO32, base))
  {
    var u := num % TWO32;
    ShortNumeral(u, base);
    if num == 0 {
      tmp[0] := '0';
      return 1;
    } else if base == 10 {
      ghost var b := tmp[..];
      i := StrBase10(u, tmp, 0);
      assert tmp[..i] == tmp[..][..i];
    } else {
      i := HexDigits(u, tmp);
    }
  }

  /** Padding, then the digits. */
  method PutDigits(sink: Sink, num: int, base: nat, pad: char, width: int)
    requires sink.Valid() && (base == 10 || base == 16) && INT32_MIN <= num < TWO32
    modifies sink`at, sink`len, sink`out, sink.str
    ensures sink.Valid() && sink.out == old(sink.out) + UnsignedField(num, base, pad, width)
  {
    hide Shows, Numeral, Repeat, Reversed;
    var tmp := new char[32];
    ghost var t := Numeral(num % TWO32, base);
    var i := Collect(num, base, tmp);
    ghost var o := sink.out;
    ReversedTwice(t);
    sink.PutPad(pad, width - i);
    sink.PutReversed(tmp, i);
    assert sink.out == o + (Repeat(pad, width - |t|) + t);
  }

  /** The common tail of the number conversions. */
  method PutNumber(sink: Sink, value: int, base: nat, sign: bool, pad: char, w: int)
    requires sink.Valid() && (base == 10 || (base == 16 && !sign))
    requires INT32_MIN <= value < (if sign then TWO31 else TWO32)
    modifies sink`at, sink`len, sink`out, sink.str
    ensures sink.Valid()
    ensures sink.out == old(sink.out) + if sign then SignedField(value, pad, w) else UnsignedField(value, base, pad, w)
  {
    hide Shows, Numeral, Repeat, Padded;
    if sign && value < 0 {
      sink.Put('-');
      Negative(value);
      PutDigits(sink, Int32(-value), base, pad, w - 1);
    } else {
      PutDigits(sink, value, base, pad, w);
    }
  }

  lemma Negative(v: int)
    requires INT32_MIN <= v < 0
    ensures Int32(-v) % TWO32 == -v == (-v) % TWO32
  {
  }

  /** The flag and width of a directive; `n` characters are consumed. */
  method ParseField(f: string) returns (pad: char, width: int, n: nat)
    requires Parse(f).Some?
    ensures var d := Parse(f).value;
      && pad == d.pad && width == d.width >= -1 && n == FlagLength(f) + WidthLength(f) < |f| && f[n] == d.conv
      && d.len == n + if d.conv == 'l' then 2 else 1
  {
    hide Run, Leading;
    pad, n, width := ' ', 0, -1;
    if At(f, 0) == '0' {
      pad := '0';
      n := 1;
    }
    WidthShown(f);
    var v, k := ReadDecimal(f, n);
    if '0' <= At(f, n) <= '9' {
      width := v;
    }
    n := n + k;
  }

  /** A width is present exactly when a digit follows the flag, and it is not negative. */
  lemma WidthShown(f: string)
    ensures WidthLength(f) > 0 <==> '0' <= At(f, FlagLength(f)) <= '9'
    ensures Leading(f[FlagLength(f)..], 10, |f|, 10) >= 0
  {
    var t := f[FlagLength(f)..];
    RunExtends(t, 10, |f|, 0);
    ValueNotNegative(Read(t[..Run(t, 10, |f|)]), 10);
  }

  lemma {:induction false} ValueNotNegative(ds: seq<nat>, b: nat)
    ensures Value(ds, b) >= 0
    decreases |ds|
  {
    if ds != [] {
      ValueNotNegative(ds[..|ds| - 1], b);
      assert Value(ds[..|ds| - 1], b) * b >= 0;
    }
  }

  /** One directive: everything between `%` and the next ordinary character. */
  method PutDirective(sink: Sink, f: string, args: seq<Arg>) returns (len: nat, used: nat)
    requires sink.Valid() && Parse(f).Some? && Convert(Parse(f).value, args).Some?
    modifies sink`at, sink`len, sink`out, sink.str
    ensures sink.Valid() && len == Parse(f).value.len && used == ArgsUsed(Parse(f).value.conv)
    ensures sink.out == old(sink.out) + Convert(Parse(f).value, args).value
  {
    hide Parse, Shows, StringField, SignedField, UnsignedField;
    var pad, width, n := ParseField(f);
    var base, sign, conv := 10, false, f[n];
    len, used := n + 1, 1;
    if conv == 'c' {
      sink.Put((args[0].v % 256) as char);
      return;
    } else if conv == 's' {
      if args[0].Null? {
        NullText();
        sink.PutString("<NULL>", pad, width);
      } else {
        sink.PutString(args[0].s, pad, width);
      }
      return;
    } else if conv == 'l' {
      len := len + 1;
    } else if conv == 'X' || conv == 'x' {
      base := 16;
    } else if conv == 'd' {
      sign := true;
    } else if conv == 'u' {
    } else if conv == 'p' {
      base, width := 16, 8;
    } else if conv == '%' {
      sink.Put('%');
      used := 0;
      return;
    } else {
      used := 0;
      return;
    }
    PutNumber(sink, if sign then Int32(args[0].v) else args[0].v, base, sign, pad, width);
  }

  lemma NullText()
    ensures '\0' !in "<NULL>"
  {
  }

  /**
   * `vsnprintf`: the buffer gets the longest prefix of the text that leaves room for the terminator,
   * then the terminator, and nothing else changes; the result is the full length whatever the size.
   */
  method Vsnprintf(str: array?<char>, size: nat, fmt: CString, args: seq<Arg>) returns (r: int)
    requires (str != null ==> size <= str.Length) && Render(fmt, args).Some?
    modifies str
    ensures str == null && size != 0 ==> r == -1
    ensures str != null || size == 0 ==> r == |Render(fmt, args).value|
    ensures str != null && size > 0 ==>
      var text := Render(fmt, args).value;
      str[..] == Overwrite(old(str[..]), 0, (if |text| < size then text else text[..size - 1]) + ['\0'])
    ensures str != null && size == 0 ==> str[..] == old(str[..])
  {
    if str == null && size != 0 {
      return -1;
    }
    var sink := new Sink(str, if size > 0 then size - 1 else 0);
    FormatInto(sink, fmt, args);
    ghost var text := Render(fmt, args).value;
    if size > 0 {
      Terminated(sink.was, text, size);
      if sink.at <= sink.end {
        str[sink.at] := '\0';
      } else {
        str[sink.end] := '\0';
      }
    }
    r := sink.len;
  }

  lemma Terminated(was: string, text: string, size: nat)
    requires 0 < size <= |was|
    ensures Shows(was, text, size - 1)[if |text| <= size - 1 then |text| else size - 1 := '\0'] ==
      Overwrite(was, 0, (if |text| < size then text else text[..size - 1]) + ['\0'])
  {
  }

  /** The loop over the format. */
  method FormatInto(sink: Sink, fmt: CString, args: seq<Arg>)
    requires sink.Valid() && sink.out == "" && Render(fmt, args).Some?
    modifies sink`at, sink`len, sink`out, sink.str
    ensures sink.Valid() && sink.out == Render(fmt, args).value
  {
    hide Shows, Parse, Convert, Render;
    var i: nat, j: nat := 0, 0;
    ghost var text := Render(fmt, args);
    assert fmt[0..] == fmt && args[0..] == args && "" + text.value == text.value;
    while At(fmt, i) != '\0'
      invariant sink.Valid() && i <= |fmt| && j <= |args|
      invariant Concat(sink.out, Render(fmt[i..], args[j..])) == text
      decreases |fmt| - i
    {
      ghost var o := sink.out;
      var f := fmt[i..];
      if f[0] != '%' {
        RenderLiteral(sink.out, f, args[j..]);
        sink.Put(f[0]);
        assert fmt[i + 1..] == f[1..];
        i := i + 1;
      } else {
        RenderDirective(sink.out, f, args[j..]);
        var len, used := PutDirective(sink, f[1..], args[j..]);
        i, j := i + 1 + len, j + used;
        assert fmt[i..] == f[1 + len..] && args[j..] == args[j - used..][used..];
      }
    }
    assert fmt[i..] == "";
    assert Render(fmt[i..], args[j..]) == Some("") && sink.out + "" == sink.out by { RenderEnd(args[j..]); }
  }

  lemma RenderEnd(args: seq<Arg>)
    ensures Render("", args) == Some("")
  {
  }

  lemma RenderLiteral(o: string, f: string, args: seq<Arg>)
    requires f != "" && f[0] != '%' && Render(f, args).Some?
    ensures Concat(o, Render(f, args)) == Concat(o + [f[0]], Render(f[1..], args))
  {
    assert o + [f[0]] + Render(f[1..], args).value == o + ([f[0]] + Render(f[1..], args).value);
  }

  lemma ConvertUses(d: Directive, args: seq<Arg>)
    requires Convert(d, args).Some?
    ensures ArgsUsed(d.conv) <= |args|
  {
  }

  lemma RenderDirective(o: string, f: string, args: seq<Arg>)
    requires f != "" && f[0] == '%' && Render(f, args).Some?
    ensures Parse(f[1..]).Some? && Convert(Parse(f[1..]).value, args).Some?
    ensures var d := Parse(f[1..]).value;
      && ArgsUsed(d.conv) <= |args|
      && Concat(o, Render(f, args)) == Concat(o + Convert(d, args).value, Render(f[1 + d.len..], args[ArgsUsed(d.conv)..]))
  {
    hide Parse, Convert;
    var d := Parse(f[1..]).value;
    ConvertUses(d, args);
    var t, rest := Convert(d, args).value, Render(f[1 + d.len..], args[ArgsUsed(d.conv)..]);
    assert o + t + rest.value == o + (t + rest.value);
  }
}

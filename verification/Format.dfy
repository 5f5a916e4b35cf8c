/** The text a format denotes for `vsnprintf` (lib/stdio.c), with no buffer involved. */
module Format {
  import opened Bits
  import opened Numerals
  import opened Ctype
  import opened CtypeParse

  datatype Option<T> = None | Some(value: T)

  /** A NUL-terminated string, without its terminator. */
  type CString = s: string | '\0' !in s witness ""

  /** A variadic argument: a 32-bit integer of any signedness, a string, or a null string pointer. */
  datatype Arg = Word(v: int) | Chars(s: CString) | Null

  predicate IsWord(a: Arg) {
    a.Word? && INT32_MIN <= a.v < TWO32
  }

  /** What follows a `%`: padding character, field width (-1 for none), conversion, and its length. */
  datatype Directive = Directive(pad: char, width: int, conv: char, len: nat)

  function FlagLength(f: string): (n: nat)
    ensures n <= |f|
  {
    if f != "" && f[0] == '0' then 1 else 0
  }

  function WidthLength(f: string): (n: nat)
    ensures FlagLength(f) + n <= |f|
  {
    Run(f[FlagLength(f)..], 10, |f|)
  }

  function Width(f: string): int {
    if WidthLength(f) == 0 then -1 else Leading(f[FlagLength(f)..], 10, |f|, 10)
  }

  /** None when the format ends inside the directive or the width does not fit in an `int`. */
  function Parse(f: string): (d: Option<Directive>)
    ensures d.Some? ==> 0 < d.value.len <= |f|
  {
    var j := FlagLength(f) + WidthLength(f);
    var n := if At(f, j) == 'l' then j + 2 else j + 1;
    if n <= |f| && Width(f) < TWO31 then
      Some(Directive(if FlagLength(f) == 1 then '0' else ' ', Width(f), f[j], n))
    else None
  }

  function Repeat(c: char, n: int): (s: string)
    ensures |s| == if n > 0 then n else 0
  {
    if n <= 0 then "" else seq(n, _ => c)
  }

  /** A number right-aligned in its field. */
  function Padded(t: string, pad: char, width: int): string {
    Repeat(pad, width - |t|) + t
  }

  /** `%s`: the width cuts long strings and pads short ones on the right. */
  function StringField(s: string, pad: char, width: int): string {
    if width < 0 then s
    else if |s| >= width then s[..width]
    else s + Repeat(pad, width - |s|)
  }

  /** `%d`: the sign comes before the padding. */
  function SignedField(v: int, pad: char, width: int): string {
    if v < 0 then "-" + Padded(Numeral(-v, 10), pad, width - 1) else Padded(Numeral(v, 10), pad, width)
  }

  function UnsignedField(v: int, base: nat, pad: char, width: int): string
    requires 2 <= base <= 16
  {
    Padded(Numeral(v % TWO32, base), pad, width)
  }

  function ArgsUsed(conv: char): nat {
    if conv in "cslXxdup" then 1 else 0
  }

  /** The text of one directive; None when its argument is missing or of the wrong kind. */
  function Convert(d: Directive, args: seq<Arg>): Option<string> {
    if d.conv == '%' then Some("%")
    else if ArgsUsed(d.conv) == 0 then Some("")
    else if args == [] then None
    else if d.conv == 's' then
      match args[0]
      case Chars(s) => Some(StringField(s, d.pad, d.width))
      case Null => Some(StringField("<NULL>", d.pad, d.width))
      case Word(_) => None
    else if !IsWord(args[0]) then None
    else Some(ConvertWord(d, args[0].v))
  }

  function ConvertWord(d: Directive, v: int): string {
    if d.conv == 'c' then [(v % 256) as char]
    else if d.conv == 'd' then SignedField(Int32(v), d.pad, d.width)
    else if d.conv == 'x' || d.conv == 'X' then UnsignedField(v, 16, d.pad, d.width)
    else if d.conv == 'p' then UnsignedField(v, 16, d.pad, 8)
    else UnsignedField(v, 10, d.pad, d.width)
  }

  function Concat(t: string, rest: Option<string>): Option<string> {
    if rest.Some? then Some(t + rest.value) else None
  }

  /** The whole text; None when the format is malformed or does not match its arguments. */
  function Render(fmt: string, args: seq<Arg>): Option<string>
    decreases |fmt|
  {
    if fmt == "" then Some("")
    else if fmt[0] != '%' then Concat([fmt[0]], Render(fmt[1..], args))
    else
      var d := Parse(fmt[1..]);
      if d.None? then None
      else
        var t := Convert(d.value, args);
        if t.None? then None
        else Concat(t.value, Render(fmt[1 + d.value.len..], args[ArgsUsed(d.value.conv)..]))
  }
}

/**
 The meaning of a printf format: the text it stands for, without any bound on
 its length, or nothing when the format is outside the modelled conversions or
 does not fit its arguments.
 */
module FormatSpec {
  import opened Seqs
  import opened DigitStrings

  /** A variadic argument: an integer, character or pointer value, or the characters of a string. */
  datatype Arg = Int(v: int) | Str(s: string)

  /** The variables one conversion specification sets. */
  datatype Spec = Spec(alt: bool, ljust: bool, point: bool, zeropad: bool, lflags: int, prefix: nat, prefixlen: nat,
      width: int, prec: nat)

  const Init := Spec(false, false, false, false, 0, 0, 0, 0, 1)

  /** base and u, which keep the values an earlier conversion gave them. */
  datatype Carry = Carry(base: nat, u: nat)

  /** The arguments of fprintf1. */
  datatype Field = Field(s: string, prefix: nat, prefixlen: nat, width: int, prec: nat)

  // ------------------------------------------------------------------ fields

  function Fill(c: char, n: int): (r: string)
    ensures |r| == if n > 0 then n else 0
    ensures forall i :: 0 <= i < |r| ==> r[i] == c
  {
    if n <= 0 then [] else seq(n, _ => c)
  }

  /** The characters of a packed prefix, lowest byte first. */
  function Unpack(prefix: nat): string {
    if prefix == 0 then [] else [(prefix % 256) as char] + Unpack(prefix / 256)
  }

  /** Prefix, zeros and text, padded on the left to a positive width and on the right to a negative one. */
  function Text(f: Field): string {
    Fill(' ', f.width - f.prec - f.prefixlen) + Unpack(f.prefix) + Fill('0', f.prec - |f.s|) + f.s
    + Fill(' ', -f.width - f.prefixlen - f.prec)
  }

  predicate Proper(f: Field) {
    f.prec >= |f.s| && |Unpack(f.prefix)| == f.prefixlen
  }

  /** A proper field takes exactly its width, or what it needs when that is more. */
  lemma TextWidth(f: Field)
    requires Proper(f)
    ensures var needs := f.prefixlen + f.prec; var w := if f.width < 0 then -f.width else f.width;
      |Text(f)| == if w > needs then w else needs
  {
  }

  /** A field with a width of zero or more ends with its text, one with a negative width begins with its prefix. */
  lemma TextJustified(f: Field)
    requires Proper(f)
    ensures f.width >= 0 ==> |f.s| <= |Text(f)| && Text(f)[|Text(f)| - |f.s|..] == f.s
    ensures f.width < 0 ==> f.prefixlen <= |Text(f)| && Text(f)[..f.prefixlen] == Unpack(f.prefix)
    ensures var core := Unpack(f.prefix) + Fill('0', f.prec - |f.s|) + f.s;
      f.width - f.prefixlen - f.prec <= 0 && -f.width - f.prefixlen - f.prec <= 0 ==> Text(f) == core
  {
    hide Unpack;
  }

  // --------------------------------------------------------------- conversions

  function Signed(v: int, bits: nat): int
    requires bits == 32 || bits == 64
  {
    var m := if bits == 32 then 0x1_0000_0000 else 0x1_0000_0000_0000_0000;
    if v % m < m / 2 then v % m else v % m - m
  }

  /** The value %d and %i take for each length modifier. */
  function SignedArg(lflags: int, v: int): Option<int> {
    if -2 <= lflags <= 1 then Some(Signed(v, 32)) else if lflags == 2 then Some(Signed(v, 64)) else None
  }

  /** The value %o, %u, %x and %X take: short lengths read an int and extend its sign. */
  function UnsignedArg(lflags: int, v: int): (r: Option<nat>)
    ensures r.Some? ==> r.value <= UINTMAX_MAX
  {
    if lflags == -2 || lflags == -1 then Some(Signed(v, 32) % (UINTMAX_MAX + 1))
    else if lflags == 0 || lflags == 1 then Some(v % (ULONG_MAX + 1))
    else if lflags == 2 then Some(v % (UINTMAX_MAX + 1))
    else None
  }

  function Max(a: nat, b: nat): nat { if a < b then b else a }

  /** The precision fprintf1 gets: zero padding fills the width, and an alternate octal gets one more digit. */
  function FinalPrec(sp: Spec, prec: nat, k: Carry): nat {
    if sp.zeropad && prec < sp.width - sp.prefixlen then sp.width - sp.prefixlen
    else if sp.alt && k.base == 8 && k.u != 0 then prec + 1
    else prec
  }

  /** A field for text: the precision is its length. */
  function TextField(sp: Spec, s: string, k: Carry): Field {
    Field(s, sp.prefix, sp.prefixlen, sp.width, FinalPrec(sp, |s|, k))
  }

  /** A field for the digits of a number: the precision is a minimum. */
  function NumberField(sp: Spec, u: nat, base: nat, upper: bool): Field
    requires 2 <= base <= 16
  {
    var s := Digits(u, base, upper);
    Field(s, sp.prefix, sp.prefixlen, sp.width, FinalPrec(sp, Max(sp.prec, |s|), Carry(base, u)))
  }

  /** A negative value replaces the prefix by a minus sign. */
  function SignedSpec(sp: Spec, d: int): Spec {
    if d < 0 then sp.(prefix := 45, prefixlen := 1) else sp
  }

  function Magnitude(d: int): nat { if d < 0 then -d else d }

  /** The alternate form of %x and %X, and every pointer, has the prefix 0x or 0X. */
  function HexSpec(sp: Spec, c: char): Spec
    requires c as int < 256
  {
    sp.(prefix := 48 + 256 * c as int, prefixlen := 2)
  }

  function Chars(sp: Spec, s: string): string {
    if sp.point && sp.prec < |s| then s[..sp.prec] else s
  }

  datatype Outcome = Outcome(field: Field, carry: Carry)

  /** The field that conversion `c` prints for its argument. */
  function Convert(sp: Spec, c: char, arg: Arg, k: Carry): Option<Outcome> {
    if c == 's' then
      if arg.Str? then Some(Outcome(TextField(sp, Chars(sp, arg.s), k), k)) else None
    else if arg.Str? then None
    else if c == 'c' then
      if sp.lflags <= 0 then Some(Outcome(TextField(sp, [(arg.v % 256) as char], k), k)) else None
    else if c == 'd' || c == 'i' then
      var d := SignedArg(sp.lflags, arg.v);
      if d.None? then None
      else Some(Outcome(NumberField(SignedSpec(sp, d.value), Magnitude(d.value), 10, false),
        Carry(10, Magnitude(d.value))))
    else if c == 'p' then
      var u := arg.v % (ULONG_MAX + 1);
      if u == 0 then Some(Outcome(TextField(sp, "(nil)", Carry(k.base, 0)), Carry(k.base, 0)))
      else Some(Outcome(NumberField(HexSpec(sp, 'x').(prec := 8), u, 16, false), Carry(16, u)))
    else if c == 'o' || c == 'u' || c == 'x' || c == 'X' then
      var u := UnsignedArg(sp.lflags, arg.v);
      var base := if c == 'o' then 8 else if c == 'u' then 10 else 16;
      if u.None? then None
      else Some(Outcome(NumberField(if sp.alt && base == 16 then HexSpec(sp, c) else sp, u.value, base, c == 'X'),
        Carry(base, u.value)))
    else None
  }

  // ------------------------------------------------------------ specifications

  /** The position, the variables and the arguments left while a specification is read. */
  datatype Scan = Scan(p: nat, sp: Spec, args: seq<Arg>)

  predicate IsDigit(c: char) { '0' <= c <= '9' }

  predicate IsModifier(c: char) {
    c in "#-0+ *.hLltzj" || '1' <= c <= '9'
  }

  datatype Run = Run(end: nat, value: nat)

  /** The digits from position `p` on, continuing the number `acc`. */
  function Number(fmt: string, p: nat, acc: nat): (r: Run)
    requires p <= |fmt|
    ensures p <= r.end <= |fmt|
    decreases |fmt| - p
  {
    if p < |fmt| && IsDigit(fmt[p]) then Number(fmt, p + 1, acc * 10 + (fmt[p] - '0') as nat) else Run(p, acc)
  }

  function Justify(sp: Spec, width: int): Spec {
    sp.(width := if sp.ljust then -width else width)
  }

  /** One modifier is read; star arguments must be integers, a star precision not negative. */
  function Modify(fmt: string, t: Scan): (r: Option<Scan>)
    requires t.p < |fmt| && IsModifier(fmt[t.p])
    ensures r.Some? ==> t.p < r.value.p <= |fmt|
  {
    var c, sp, p := fmt[t.p], t.sp, t.p + 1;
    if c == '#' then Some(Scan(p, sp.(alt := true), t.args))
    else if c == '-' then Some(Scan(p, sp.(ljust := true), t.args))
    else if c == '0' then Some(Scan(p, sp.(zeropad := true), t.args))
    else if c == '+' || c == ' ' then Some(Scan(p, sp.(prefix := c as nat, prefixlen := 1), t.args))
    else if c == '*' then
      if t.args != [] && t.args[0].Int? then Some(Scan(p, Justify(sp, Signed(t.args[0].v, 32)), t.args[1..])) else None
    else if c == '.' then
      if p < |fmt| && fmt[p] == '*' then
        if t.args != [] && t.args[0].Int? && Signed(t.args[0].v, 32) >= 0
        then Some(Scan(p + 1, sp.(point := true, prec := Signed(t.args[0].v, 32)), t.args[1..])) else None
      else
        var n := Number(fmt, p, 0);
        Some(Scan(n.end, sp.(point := true, prec := n.value), t.args))
    else if c == 'h' then Some(Scan(p, sp.(lflags := sp.lflags - 1), t.args))
    else if c == 'L' || c == 'l' then Some(Scan(p, sp.(lflags := sp.lflags + 1), t.args))
    else if c == 't' || c == 'z' then Some(Scan(p, sp.(lflags := 1), t.args))
    else if c == 'j' then Some(Scan(p, sp.(lflags := 2), t.args))
    else
      var n := Number(fmt, p, (c - '0') as nat);
      Some(Scan(n.end, Justify(sp, n.value), t.args))
  }

  /** All modifiers are read; the result stands at the conversion character. */
  function Modifiers(fmt: string, t: Scan): (r: Option<Scan>)
    requires t.p <= |fmt|
    ensures r.Some? ==> t.p <= r.value.p < |fmt|
    decreases |fmt| - t.p
  {
    if t.p == |fmt| then None
    else if !IsModifier(fmt[t.p]) then Some(t)
    else match Modify(fmt, t)
      case None => None
      case Some(t') => Modifiers(fmt, t')
  }

  /** The text of the format from position `p` on. */
  function Render(fmt: string, p: nat, args: seq<Arg>, k: Carry): (r: Option<string>)
    requires p <= |fmt|
    decreases |fmt| - p
  {
    if p == |fmt| then Some([])
    else if fmt[p] != '%' then
      match Render(fmt, p + 1, args, k)
      case None => None
      case Some(rest) => Some([fmt[p]] + rest)
    else match Modifiers(fmt, Scan(p + 1, Init, args))
      case None => None
      case Some(t) =>
        if fmt[t.p] == '%' then
          match Render(fmt, t.p + 1, t.args, k)
          case None => None
          case Some(rest) => Some(['%'] + rest)
        else if t.args == [] then None
        else match Convert(t.sp, fmt[t.p], t.args[0], k)
          case None => None
          case Some(o) =>
            match Render(fmt, t.p + 1, t.args[1..], o.carry)
            case None => None
            case Some(rest) => Some(Text(o.field) + rest)
  }

  // ------------------------------------------------ what scanning guarantees

  predicate SpecOk(sp: Spec) {
    (sp.prefix == 0 && sp.prefixlen == 0) || ((sp.prefix == '+' as nat || sp.prefix == ' ' as nat) && sp.prefixlen == 1)
  }

  lemma ModifyOk(fmt: string, t: Scan)
    requires t.p < |fmt| && IsModifier(fmt[t.p]) && SpecOk(t.sp)
    ensures Modify(fmt, t).Some? ==> SpecOk(Modify(fmt, t).value.sp)
  {
    hide Modify, IsModifier;
    PrefixAfter(fmt, t);
  }

  /** Only a plus sign or a space sets the prefix. */
  lemma PrefixAfter(fmt: string, t: Scan)
    requires t.p < |fmt| && IsModifier(fmt[t.p])
    ensures Modify(fmt, t).Some? ==> var c, sp := fmt[t.p], Modify(fmt, t).value.sp;
      if c == '+' || c == ' ' then sp.prefix == c as nat && sp.prefixlen == 1
      else sp.prefix == t.sp.prefix && sp.prefixlen == t.sp.prefixlen
  {
    hide Number, IsModifier, Signed;
  }

  lemma {:induction false} ModifiersOk(fmt: string, t: Scan)
    requires t.p <= |fmt| && SpecOk(t.sp)
    ensures Modifiers(fmt, t).Some? ==> SpecOk(Modifiers(fmt, t).value.sp)
    decreases |fmt| - t.p
  {
    if t.p < |fmt| && IsModifier(fmt[t.p]) && Modify(fmt, t).Some? {
      ModifyOk(fmt, t);
      hide Modify, IsModifier, SpecOk;
      ModifiersOk(fmt, Modify(fmt, t).value);
    }
  }

  lemma UnpackOne(c: nat)
    requires 0 < c < 256
    ensures Unpack(c) == [c as char]
  {
    assert c / 256 == 0 && Unpack(0) == [];
  }

  lemma UnpackTwo(c: nat)
    requires 0 < c < 256
    ensures Unpack(48 + 256 * c) == ['0', c as char]
  {
    UnpackOne(c);
    assert (48 + 256 * c) / 256 == c && (48 + 256 * c) % 256 == 48;
  }

  /** Every field printed is proper, so no padding count is negative. */
  lemma ConvertProper(sp: Spec, c: char, arg: Arg, k: Carry)
    requires SpecOk(sp)
    ensures Convert(sp, c, arg, k).Some? ==> Proper(Convert(sp, c, arg, k).value.field)
  {
    UnpackOne('+' as nat);
    UnpackOne(' ' as nat);
    UnpackOne(45);
    UnpackTwo('x' as nat);
    UnpackTwo('X' as nat);
    assert |Unpack(sp.prefix)| == sp.prefixlen;
    hide Unpack, Digits, SpecOk, Proper, NumberField, TextField, SignedArg, UnsignedArg;
    if Convert(sp, c, arg, k).Some? {
      if c == 's' {
        TextProper(sp, Chars(sp, arg.s), k);
      } else if c == 'c' {
        TextProper(sp, [(arg.v % 256) as char], k);
      } else if c == 'd' || c == 'i' {
        var d := SignedArg(sp.lflags, arg.v).value;
        NumberProper(SignedSpec(sp, d), Magnitude(d), 10, false);
      } else if c == 'p' {
        var u := arg.v % (ULONG_MAX + 1);
        if u == 0 {
          TextProper(sp, "(nil)", Carry(k.base, 0));
        } else {
          NumberProper(HexSpec(sp, 'x').(prec := 8), u, 16, false);
        }
      } else {
        var base := if c == 'o' then 8 else if c == 'u' then 10 else 16;
        var shown := if sp.alt && base == 16 then HexSpec(sp, c) else sp;
        NumberProper(shown, UnsignedArg(sp.lflags, arg.v).value, base, c == 'X');
      }
    }
  }

  lemma TextProper(sp: Spec, s: string, k: Carry)
    requires |Unpack(sp.prefix)| == sp.prefixlen
    ensures Proper(TextField(sp, s, k))
  {
  }

  lemma NumberProper(sp: Spec, u: nat, base: nat, upper: bool)
    requires |Unpack(sp.prefix)| == sp.prefixlen && 2 <= base <= 16
    ensures Proper(NumberField(sp, u, base, upper))
  {
    hide Unpack, Digits;
  }

  // --------------------------------------------------------- plain conversions

  /** %s alone prints its argument. */
  lemma PlainString(s: string, k: Carry)
    ensures Render("%s", 0, [Str(s)], k) == Some(s)
  {
    var fmt := "%s";
    assert !IsModifier('s');
    assert Modifiers(fmt, Scan(1, Init, [Str(s)])) == Some(Scan(1, Init, [Str(s)]));
    var f := TextField(Init, s, k);
    assert Convert(Init, 's', Str(s), k) == Some(Outcome(f, k));
    assert Unpack(0) == [];
    assert Text(f) == s;
    assert Render(fmt, 2, [], k) == Some([]);
    assert [Str(s)][1..] == [] && s + [] == s;
    hide Text, Convert, Modifiers, TextField;
  }

  /** %p prints a null pointer by name, any other as 0x and eight hexadecimal digits. */
  lemma PlainPointer(v: nat, k: Carry)
    requires v <= ULONG_MAX
    ensures Convert(Init, 'p', Int(v), k).Some? && |Digits(v, 16, false)| <= 8
    ensures Text(Convert(Init, 'p', Int(v), k).value.field)
      == if v == 0 then "(nil)" else "0x" + Fill('0', 8 - |Digits(v, 16, false)|) + Digits(v, 16, false)
  {
    EightDigits(v);
    hide Digits;
    if v == 0 {
      NilText(k);
    } else {
      PointerField(v, k);
      hide Convert;
      PointerText(Digits(v, 16, false));
    }
  }

  lemma EightDigits(v: nat)
    requires v <= ULONG_MAX
    ensures |Digits(v, 16, false)| <= 8
  {
    assert Power(16, 4) == 65536;
    assert Power(16, 8) == 65536 * Power(16, 4);
    HexShort(v, 8);
  }

  lemma PointerField(v: nat, k: Carry)
    requires 0 < v <= ULONG_MAX && |Digits(v, 16, false)| <= 8
    ensures Convert(Init, 'p', Int(v), k) ==
      Some(Outcome(Field(Digits(v, 16, false), 48 + 256 * 'x' as int, 2, 0, 8), Carry(16, v)))
  {
    hide Digits;
    assert v % (ULONG_MAX + 1) == v;
  }

  lemma PointerText(s: string)
    requires |s| <= 8
    ensures Text(Field(s, 48 + 256 * 'x' as int, 2, 0, 8)) == "0x" + Fill('0', 8 - |s|) + s
  {
    var f := Field(s, 48 + 256 * 'x' as int, 2, 0, 8);
    UnpackTwo('x' as nat);
    hide Unpack;
    TextJustified(f);
  }

  lemma NilText(k: Carry)
    ensures Convert(Init, 'p', Int(0), k).Some? && Text(Convert(Init, 'p', Int(0), k).value.field) == "(nil)"
  {
    var f := TextField(Init, "(nil)", Carry(k.base, 0));
    assert Unpack(0) == [];
    assert Text(f) == "(nil)";
  }

  lemma {:induction false} HexShort(v: nat, k: nat)
    requires v < Power(16, k)
    ensures |Digits(v, 16, false)| <= k
  {
    if v != 0 {
      assert v < 16 * Power(16, k - 1);
      HexShort(v / 16, k - 1);
      hide Power;
    }
  }
}

/**
 The characters each conversion prints for its flags, width and precision, given
 without the variables of the formatter.
 */
module FormatVisible {
  import opened Seqs
  import opened DigitStrings
  import opened FormatSpec
  import opened FormatText
  import opened FormatDirectives

  /** Sign and body in their field: blanks behind for a minus sign, zeros between for a zero, else blanks in front. */
  function Padded(flags: string, width: nat, sign: string, body: string): string {
    var n := width - |sign| - |body|;
    if '-' in flags then sign + body + Fill(' ', n)
    else if '0' in flags then sign + Fill('0', n) + body
    else Fill(' ', n) + sign + body
  }

  /** The digits, with zeros in front up to the precision. */
  function AtLeast(prec: nat, digits: string): string { Fill('0', prec - |digits|) + digits }

  /** Without a precision a number has at least one digit. */
  function MinDigits(d: Directive): nat { match d.prec case None => 1 case Some(n) => n }

  /** What a signed conversion makes of its argument: 64 bits for ll and j, else 32. */
  function SignedValue(len: string, v: int): int { if len == "ll" || len == "j" then Signed(v, 64) else Signed(v, 32) }

  /** The same for an unsigned one; the short forms extend the sign of an int. */
  function UnsignedValue(len: string, v: int): nat {
    if len == "ll" || len == "j" then v % (UINTMAX_MAX + 1)
    else if len == "h" || len == "hh" then Signed(v, 32) % (UINTMAX_MAX + 1)
    else v % (ULONG_MAX + 1)
  }

  /** The argument is of the kind the conversion takes; the alternate form is for numbers. */
  predicate Fits(d: Directive, arg: Arg) {
    && Sound(d) && (d.conv == 's' <==> arg.Str?)
    && (d.conv == 'c' ==> d.len in ["", "h", "hh"]) && (d.conv in "cs" ==> '#' !in d.flags)
  }

  function Shown(d: Directive, arg: Arg): string
    requires Fits(d, arg)
  {
    var plus := PlusOrBlank(d.flags);
    if d.conv == 's' then
      Padded(d.flags, d.width, plus, if d.prec.Some? && d.prec.value < |arg.s| then arg.s[..d.prec.value] else arg.s)
    else if d.conv == 'c' then Padded(d.flags, d.width, plus, [(arg.v % 256) as char])
    else if d.conv == 'd' || d.conv == 'i' then
      var n := SignedValue(d.len, arg.v);
      Padded(d.flags, d.width, if n < 0 then "-" else plus,
             AtLeast(MinDigits(d), Digits(if n < 0 then -n else n, 10, false)))
    else if d.conv == 'p' then
      var u := arg.v % (ULONG_MAX + 1);
      if u == 0 then Padded(d.flags, d.width, plus, "(nil)")
      else Padded(d.flags, d.width, "0x", AtLeast(8, Digits(u, 16, false)))
    else
      var u := UnsignedValue(d.len, arg.v);
      if d.conv == 'u' then Padded(d.flags, d.width, plus, AtLeast(MinDigits(d), Digits(u, 10, false)))
      else if d.conv == 'o' then
        var digits := AtLeast(MinDigits(d), Digits(u, 8, false));
        Padded(d.flags, d.width, plus, if '#' in d.flags && u != 0 then "0" + digits else digits)
      else
        Padded(d.flags, d.width, if '#' in d.flags then ['0', d.conv] else plus,
               AtLeast(MinDigits(d), Digits(u, 16, d.conv == 'X')))
  }

  // --------------------------------------------------------------- one field

  lemma FillSum(c: char, a: int, b: int)
    requires a >= 0 && b >= 0
    ensures Fill(c, a) + Fill(c, b) == Fill(c, a + b)
  {
  }

  lemma NoFill(c: char, n: int)
    requires n <= 0
    ensures Fill(c, n) == []
  {
  }

  lemma Regroup(a: string, b: string, c: string, d: string)
    ensures [] + a + b + c + d == a + (b + c) + d
    ensures d + a + b + c + [] == d + a + (b + c)
  {
  }

  /** The width comes negated: sign, zeros and text, then blanks. */
  lemma LeftField(width: nat, sign: string, prefix: nat, s: string, b: nat)
    requires Unpack(prefix) == sign && |s| <= b
    ensures Text(Field(s, prefix, |sign|, -(width as int), b)) ==
      sign + AtLeast(b, s) + Fill(' ', width - |sign| - |AtLeast(b, s)|)
  {
    hide Unpack, Fill;
    NoFill(' ', -(width as int) - b - |sign|);
    Regroup(sign, Fill('0', b - |s|), s, Fill(' ', width - |sign| - b));
  }

  /** The precision fills the width: sign, then zeros. */
  lemma ZeroField(width: nat, sign: string, prefix: nat, s: string, b: nat)
    requires Unpack(prefix) == sign && |s| <= b <= width - |sign|
    ensures Text(Field(s, prefix, |sign|, width, width - |sign|)) ==
      sign + Fill('0', width - |sign| - |AtLeast(b, s)|) + AtLeast(b, s)
  {
    hide Unpack, Fill;
    var n, m := width - |sign| - b, b - |s|;
    NoFill(' ', width - (width - |sign|) - |sign|);
    NoFill(' ', -(width as int) - |sign| - (width - |sign|));
    FillSum('0', n, m);
    Regroup(sign, Fill('0', n + m), s, []);
    assert sign + ((Fill('0', n) + Fill('0', m)) + s) + [] == sign + Fill('0', n) + (Fill('0', m) + s);
  }

  /** Blanks, sign, zeros and text. */
  lemma RightField(width: nat, sign: string, prefix: nat, s: string, b: nat)
    requires Unpack(prefix) == sign && |s| <= b
    ensures Text(Field(s, prefix, |sign|, width, b)) ==
      Fill(' ', width - |sign| - |AtLeast(b, s)|) + sign + AtLeast(b, s)
  {
    hide Unpack, Fill;
    NoFill(' ', -(width as int) - |sign| - b);
    Regroup(sign, Fill('0', b - |s|), s, Fill(' ', width - |sign| - b));
  }

  /** The field fprintf1 lays out, for a sign, a body of at least `b` characters and the final precision. */
  lemma FieldPadded(flags: string, width: nat, sign: string, prefix: nat, s: string, b0: nat, b: nat)
    requires Unpack(prefix) == sign && |s| <= b0 <= b <= b0 + 1
    ensures var w: int := if '-' in flags then -(width as int) else width;
      var prec: nat := if '0' in flags && b0 < w - |sign| then w - |sign| else b;
      Text(Field(s, prefix, |sign|, w, prec)) == Padded(flags, width, sign, AtLeast(b, s))
  {
    hide Unpack, Fill, Text;
    if '-' in flags {
      LeftField(width, sign, prefix, s, b);
    } else if '0' in flags && b0 < width - |sign| {
      ZeroField(width, sign, prefix, s, b);
    } else {
      RightField(width, sign, prefix, s, b);
      if '0' in flags {
        NoFill('0', width - |sign| - b);
        NoFill(' ', width - |sign| - b);
        var none: string := [];
        assert none + sign + AtLeast(b, s) == sign + none + AtLeast(b, s);
      }
    }
  }

  /** The prefix packed for a sign is unpacked to it. */
  lemma SignPacked(flags: string)
    ensures var sign := PlusOrBlank(flags); |sign| <= 1 && Unpack(if sign == "" then 0 else sign[0] as nat) == sign
    decreases |flags|
  {
    if flags != [] {
      var c := flags[|flags| - 1];
      if c == '+' || c == ' ' {
        UnpackOne(c as nat);
      } else {
        SignPacked(flags[..|flags| - 1]);
      }
    }
  }

  /** The final precision for a field of `b0` digits at least, or `b` in the alternate form. */
  function Final(flags: string, width: nat, sign: string, b0: nat, b: nat): nat {
    var w: int := if '-' in flags then -(width as int) else width;
    if '0' in flags && b0 < w - |sign| then w - |sign| else b
  }

  lemma TextFieldIs(d: Directive, s: string, k: Carry)
    requires Sound(d) && ('#' in d.flags ==> k.base != 8 || k.u == 0)
    ensures var sign := PlusOrBlank(d.flags);
      TextField(SpecOf(d), s, k) ==
        Field(s, if sign == "" then 0 else sign[0] as nat, |sign|, SpecOf(d).width,
              Final(d.flags, d.width, sign, |s|, |s|))
  {
    hide Sound, PlusOrBlank, LengthFlags;
  }

  /** Text is laid out with its own length as precision. */
  lemma TextShown(d: Directive, s: string, k: Carry)
    requires Sound(d) && ('#' in d.flags ==> k.base != 8 || k.u == 0)
    ensures Text(TextField(SpecOf(d), s, k)) == Padded(d.flags, d.width, PlusOrBlank(d.flags), s)
  {
    hide Sound, LengthFlags, TextField, Text, Unpack, PlusOrBlank, Padded, Fill;
    SignPacked(d.flags);
    var sign := PlusOrBlank(d.flags);
    NoFill('0', |s| - |s|);
    assert AtLeast(|s|, s) == s;
    TextFieldIs(d, s, k);
    FieldPadded(d.flags, d.width, sign, if sign == "" then 0 else sign[0] as nat, s, |s|, |s|);
  }

  /** The specification of `d` with another prefix and precision. */
  function Adjusted(d: Directive, prefix: nat, prefixlen: nat, prec: nat): Spec
    requires Sound(d)
  {
    SpecOf(d).(prefix := prefix, prefixlen := prefixlen, prec := prec)
  }

  lemma NumberFieldIs(d: Directive, sign: string, prefix: nat, prec: nat, u: nat, base: nat, upper: bool)
    requires Sound(d) && 2 <= base <= 16
    ensures var s := Digits(u, base, upper); var b0 := Max(prec, |s|);
      NumberField(Adjusted(d, prefix, |sign|, prec), u, base, upper) ==
        Field(s, prefix, |sign|, SpecOf(d).width,
              Final(d.flags, d.width, sign, b0, if '#' in d.flags && base == 8 && u != 0 then b0 + 1 else b0))
  {
    hide Sound, PlusOrBlank, LengthFlags, Digits;
  }

  lemma AtLeastMore(prec: nat, s: string)
    ensures AtLeast(Max(prec, |s|), s) == AtLeast(prec, s)
    ensures AtLeast(Max(prec, |s|) + 1, s) == "0" + AtLeast(prec, s)
  {
    var n := Max(prec, |s|) - |s|;
    assert Fill('0', prec - |s|) == Fill('0', n);
    assert Fill('0', n + 1) == "0" + Fill('0', n);
    hide Fill;
  }

  /** Digits are laid out with at least the precision, and one more in the alternate octal form. */
  lemma NumberShown(d: Directive, sign: string, prefix: nat, prec: nat, u: nat, base: nat, upper: bool)
    requires Sound(d) && 2 <= base <= 16 && Unpack(prefix) == sign
    ensures var digits := AtLeast(prec, Digits(u, base, upper));
      Text(NumberField(Adjusted(d, prefix, |sign|, prec), u, base, upper)) == Padded(d.flags, d.width, sign,
        if '#' in d.flags && base == 8 && u != 0 then "0" + digits else digits)
  {
    hide Sound, NumberField, Adjusted, Text, Unpack, Padded, Digits, AtLeast;
    var s := Digits(u, base, upper);
    var b0 := Max(prec, |s|);
    AtLeastMore(prec, s);
    NumberFieldIs(d, sign, prefix, prec, u, base, upper);
    FieldPadded(d.flags, d.width, sign, prefix, s, b0, if '#' in d.flags && base == 8 && u != 0 then b0 + 1 else b0);
  }

  // ----------------------------------------------------------- each conversion

  lemma ValuesAre(d: Directive, v: int)
    requires Sound(d)
    ensures SignedArg(SpecOf(d).lflags, v) == Some(SignedValue(d.len, v))
    ensures UnsignedArg(SpecOf(d).lflags, v) == Some(UnsignedValue(d.len, v))
  {
    hide Signed;
  }

  /** %d and %i. */
  lemma SignedShown(d: Directive, v: int, k: Carry)
    requires Sound(d) && (d.conv == 'd' || d.conv == 'i')
    ensures var r := Convert(SpecOf(d), d.conv, Int(v), k);
      r.Some? && Text(r.value.field) == Shown(d, Int(v))
  {
    hide Sound, Text, Unpack, PlusOrBlank, Padded, Digits, SignedValue, SignedArg, NumberField, AtLeast, Flags,
      LengthFlags;
    ValuesAre(d, v);
    SignPacked(d.flags);
    UnpackOne(45);
    var n, plus := SignedValue(d.len, v), PlusOrBlank(d.flags);
    if n < 0 {
      NumberShown(d, "-", 45, MinDigits(d), -n, 10, false);
    } else {
      NumberShown(d, plus, if plus == "" then 0 else plus[0] as nat, MinDigits(d), n, 10, false);
    }
  }

  /** %u, %o, %x and %X. */
  lemma UnsignedShown(d: Directive, v: int, k: Carry)
    requires Sound(d) && d.conv in "uoxX"
    ensures var r := Convert(SpecOf(d), d.conv, Int(v), k);
      r.Some? && Text(r.value.field) == Shown(d, Int(v))
  {
    hide Sound, Text, Unpack, PlusOrBlank, Padded, Digits, UnsignedValue, UnsignedArg, NumberField, AtLeast, Flags,
      LengthFlags;
    ValuesAre(d, v);
    SignPacked(d.flags);
    var u, plus := UnsignedValue(d.len, v), PlusOrBlank(d.flags);
    var packed := if plus == "" then 0 else plus[0] as nat;
    if d.conv == 'u' {
      NumberShown(d, plus, packed, MinDigits(d), u, 10, false);
    } else if d.conv == 'o' {
      NumberShown(d, plus, packed, MinDigits(d), u, 8, false);
    } else if '#' in d.flags {
      UnpackTwo(d.conv as nat);
      NumberShown(d, ['0', d.conv], 48 + 256 * d.conv as nat, MinDigits(d), u, 16, d.conv == 'X');
    } else {
      NumberShown(d, plus, packed, MinDigits(d), u, 16, d.conv == 'X');
    }
  }

  /** %p. */
  lemma PointerShown(d: Directive, v: int, k: Carry)
    requires Sound(d) && d.conv == 'p'
    ensures var r := Convert(SpecOf(d), d.conv, Int(v), k);
      r.Some? && Text(r.value.field) == Shown(d, Int(v))
  {
    UnpackTwo('x' as nat);
    var u, sp := v % (ULONG_MAX + 1), SpecOf(d);
    hide Sound, Text, Unpack, PlusOrBlank, Padded, Digits, NumberField, TextField, AtLeast;
    if u == 0 {
      TextShown(d, "(nil)", Carry(k.base, 0));
    } else {
      NumberShown(d, "0x", 48 + 256 * 'x' as nat, 8, u, 16, false);
    }
  }

  /** %c and %s. */
  lemma CharactersShown(d: Directive, arg: Arg, k: Carry)
    requires Fits(d, arg) && d.conv in "cs"
    ensures var r := Convert(SpecOf(d), d.conv, arg, k);
      r.Some? && Text(r.value.field) == Shown(d, arg)
  {
    ShortLength(d);
    hide Text, PlusOrBlank, Padded, TextField, LengthFlags;
    var sp := SpecOf(d);
    if d.conv == 's' {
      TextShown(d, Chars(sp, arg.s), k);
    } else {
      TextShown(d, [(arg.v % 256) as char], k);
    }
  }

  lemma ShortLength(d: Directive)
    requires Sound(d)
    ensures d.len in ["", "h", "hh"] ==> SpecOf(d).lflags <= 0
  {
  }

  /** A directive prints exactly the characters shown for its argument, which it uses up. */
  lemma DirectivePrints(d: Directive, arg: Arg, more: seq<Arg>, k: Carry)
    requires Fits(d, arg)
    ensures Render(Spelled(d), 0, [arg] + more, k) == Some(Shown(d, arg))
    ensures Leaves(Spelled(d), 0, [arg] + more, k).Some? && Leaves(Spelled(d), 0, [arg] + more, k).value.args == more
  {
    var fmt, args := Spelled(d), [arg] + more;
    Scanned(d, args);
    ConversionShown(d, arg, k);
    ConversionIsNone(d);
    hide Modifiers, Convert, Text, Shown, SpecOf, Fits, Sound;
    assert fmt[0] == '%' && fmt[|fmt| - 1] == d.conv;
    assert args[1..] == more;
    var o := Convert(SpecOf(d), d.conv, arg, k).value;
    assert Render(fmt, |fmt|, more, o.carry) == Some([]);
    assert Leaves(fmt, |fmt|, more, o.carry) == Some(Left(more, o.carry));
    assert Shown(d, arg) + [] == Shown(d, arg);
  }

  lemma ConversionIsNone(d: Directive)
    requires Sound(d)
    ensures d.conv != '%'
  {
  }

  lemma ConversionShown(d: Directive, arg: Arg, k: Carry)
    requires Fits(d, arg)
    ensures var r := Convert(SpecOf(d), d.conv, arg, k);
      r.Some? && Text(r.value.field) == Shown(d, arg)
  {
    hide Convert, Text, Shown, SpecOf, Flags, LengthFlags;
    if d.conv in "cs" {
      CharactersShown(d, arg, k);
    } else if d.conv in "uoxX" {
      UnsignedShown(d, arg.v, k);
    } else if d.conv == 'p' {
      PointerShown(d, arg.v, k);
    } else {
      SignedShown(d, arg.v, k);
    }
  }

  /** A directive in front of another format: its characters, then what the rest prints for the other arguments. */
  lemma DirectiveAhead(d: Directive, arg: Arg, fmt: string, more: seq<Arg>, k: Carry)
    requires Fits(d, arg)
    ensures exists k' :: Render(Spelled(d) + fmt, 0, [arg] + more, k) == Ahead(Shown(d, arg), Render(fmt, 0, more, k'))
  {
    hide Fits, Shown, Spelled, Render, Leaves;
    DirectivePrints(d, arg, more, k);
    InARow(Spelled(d), fmt, 0, [arg] + more, k);
  }

  // --------------------------------------------------------- what this shows

  /** Hexadecimal digits come from the table of the conversion's case. */
  lemma {:induction false} HexCase(u: nat, upper: bool, i: nat)
    requires i < |Digits(u, 16, upper)|
    ensures Digits(u, 16, upper)[i] in (if upper then "0123456789ABCDEF" else "0123456789abcdef")
  {
    DigitsStep(u, 16, upper);
    var q := Digits(u / 16, 16, upper);
    if i < |q| {
      HexCase(u / 16, upper, i);
    }
    hide Digits;
  }

  /** A left-justified field begins with sign and text; any other ends with its text. */
  lemma FieldEnds(flags: string, width: nat, sign: string, body: string)
    ensures var t := Padded(flags, width, sign, body);
      && |t| == Max(width, |sign| + |body|)
      && ('-' in flags ==> t[..|sign| + |body|] == sign + body)
      && ('-' !in flags ==> t[|t| - |body|..] == body)
      && ('-' !in flags && '0' in flags ==> t[..|sign|] == sign)
  {
  }
}

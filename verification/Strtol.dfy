/**
 strtol, and its round trip with the integer conversions of printf.
 */
module Strtol {
  import opened Seqs
  import opened DigitStrings
  import opened FormatSpec

  predicate IsSpace(c: char) {
    c == ' ' || 9 <= c as int <= 13
  }

  /** The value and the number of characters used, none of them after a failure. */
  datatype Parsed = Parsed(value: int, end: nat)

  /** long is 32 bits wide; arithmetic wraps. */
  function Wrap(x: int): int { Signed(x, 32) }

  function SkipSpaces(s: string): (r: string)
    ensures |r| <= |s|
  {
    if s != [] && IsSpace(s[0]) then SkipSpaces(s[1..]) else s
  }

  datatype Radix = Radix(base: nat, rest: string)

  predicate IsX(s: string) { s != [] && (s[0] == 'x' || s[0] == 'X') }

  /** The base after the prefix: base 16 may have 0x, base 0 is decided by the prefix. */
  function Prefix(s: string, base: nat): (r: Option<Radix>)
    requires s != []
    ensures r.Some? ==> |r.value.rest| <= |s|
  {
    if base == 16 && s[0] == '0' then
      Some(Radix(16, if IsX(s[1..]) then s[2..] else s[1..]))
    else if base != 0 then Some(Radix(base, s))
    else if s[0] != '0' then Some(Radix(10, s))
    else if s[1..] == [] then None
    else if IsX(s[1..]) then Some(Radix(16, s[2..]))
    else Some(Radix(8, s[1..]))
  }

  /** One more digit, in wrapping arithmetic. */
  function Shift(acc: int, base: nat, c: char): int {
    Wrap(acc * base + CharValue(c))
  }

  datatype Sum = Sum(value: int, rest: string)

  /** The digits in front, in wrapping arithmetic. */
  function Accumulate(s: string, base: nat, acc: int): (r: Sum)
    ensures |r.rest| <= |s|
  {
    if s == [] || CharValue(s[0]) >= base then Sum(acc, s)
    else Accumulate(s[1..], base, Shift(acc, base, s[0]))
  }

  /** At least one digit is required. */
  function Body(s: string, base: nat): (r: Option<Sum>)
    ensures r.Some? ==> |r.value.rest| <= |s|
  {
    if s == [] || CharValue(s[0]) >= base then None else Some(Accumulate(s[1..], base, CharValue(s[0])))
  }

  function Parse(s: string, base: nat): Parsed {
    var t := SkipSpaces(s);
    if t == [] then Parsed(0, 0)
    else
      var u := if t[0] == '+' || t[0] == '-' then t[1..] else t;
      if u == [] then Parsed(0, 0)
      else match Prefix(u, base)
        case None => Parsed(0, 0)
        case Some(x) =>
          match Body(x.rest, x.base)
          case None => Parsed(0, 0)
          case Some(b) => Parsed(if t[0] == '-' then Wrap(-b.value) else b.value, |s| - |b.rest|)
  }

  method ParseLong(s: string, radix: nat) returns (value: int, end: nat)
    ensures Parsed(value, end) == Parse(s, radix)
  {
    hide Body, CharValue, Wrap, Prefix, SkipSpaces;
    var p := SkipLeading(s);
    ghost var t := s[p..];
    if p == |s| {
      return 0, 0;
    }
    assert t[0] == s[p] && t[1..] == s[p + 1..];
    var negative := false;
    if s[p] == '+' {
      p := p + 1;
    } else if s[p] == '-' {
      negative := true;
      p := p + 1;
    }
    if p == |s| {
      return 0, 0;
    }
    var base;
    p, base := ReadPrefix(s, p, radix);
    if base == 0 {
      return 0, 0;
    }
    value, end := ParseDigits(s, p, base, negative);
  }

  method SkipLeading(s: string) returns (p: nat)
    ensures p <= |s| && s[p..] == SkipSpaces(s)
  {
    p := 0;
    while p < |s|
      invariant p <= |s| && SkipSpaces(s) == SkipSpaces(s[p..])
    {
      if !IsSpace(s[p]) {
        break;
      }
      assert s[p..][1..] == s[p + 1..];
      p := p + 1;
    }
  }

  /** The base and the position behind its prefix; base 0 stands for the jump to the failure exit. */
  method ReadPrefix(s: string, at: nat, radix: nat) returns (p: nat, base: nat)
    requires at < |s|
    ensures p <= |s| && Prefix(s[at..], radix) == if base == 0 then None else Some(Radix(base, s[p..]))
  {
    ghost var u := s[at..];
    assert u[0] == s[at] && u[1..] == s[at + 1..];
    assert at + 1 < |s| ==> u[1..][0] == s[at + 1] && u[2..] == s[at + 2..];
    p, base := at, radix;
    if base == 16 {
      if s[p] == '0' {
        p := p + 1;
        if p < |s| && (s[p] == 'x' || s[p] == 'X') {
          p := p + 1;
        }
      }
    }
    if base == 0 {
      if s[p] != '0' {
        base := 10;
      } else {
        p := p + 1;
        if p == |s| {
          return p, 0;
        }
        if s[p] == 'x' || s[p] == 'X' {
          base := 16;
          p := p + 1;
        } else {
          base := 8;
        }
      }
    }
  }

  /** The digits from position `at` on, once sign and base are known. */
  method ParseDigits(s: string, at: nat, base: nat, negative: bool) returns (value: int, end: nat)
    requires at <= |s|
    ensures Parsed(value, end) == match Body(s[at..], base)
      case None => Parsed(0, 0)
      case Some(b) => Parsed(if negative then Wrap(-b.value) else b.value, |s| - |b.rest|)
  {
    hide Shift, Wrap, CharValue;
    var p := at;
    if p == |s| || CharValue(s[p]) >= base {
      return 0, 0;
    }
    value := CharValue(s[p]);
    p := p + 1;
    assert s[at..][1..] == s[p..];
    while p < |s| && CharValue(s[p]) < base
      invariant at < p <= |s| && Accumulate(s[p..], base, value) == Body(s[at..], base).value
    {
      assert s[p..][1..] == s[p + 1..];
      value := Shift(value, base, s[p]);
      p := p + 1;
    }
    end := p;
    if negative {
      value := Wrap(-value);
    }
  }

  // --------------------------------------------------------- the round trip

  lemma {:induction false} ValueGrows(s: string, base: nat, acc: nat)
    requires base >= 1
    ensures Value(s, base, acc) >= acc
  {
    if s != [] {
      var next := acc * base + CharValue(s[0]);
      ProductsOrdered(acc, acc, 1, base);
      ValueGrows(s[1..], base, next);
    }
  }

  /** No digit follows. */
  predicate Ends(s: string, base: nat) { s == [] || CharValue(s[0]) >= base }

  /** Digits whose number fits a long are summed up without wrapping. */
  lemma WrapFits(x: int)
    requires -LONG_MAX <= x <= LONG_MAX
    ensures Wrap(x) == x
  {
  }

  /** A digit that keeps the number within a long is added without wrapping. */
  lemma ShiftFits(d: string, base: nat, acc: nat)
    requires base >= 1 && d != [] && Value(d, base, acc) <= LONG_MAX
    ensures Shift(acc, base, d[0]) >= 0
    ensures Value(d, base, acc) == Value(d[1..], base, Shift(acc, base, d[0]))
  {
    var next := acc * base + CharValue(d[0]);
    ValueGrows(d[1..], base, next);
    WrapFits(next);
  }

  lemma {:induction false} AccumulateDigits(d: string, rest: string, base: nat, acc: nat)
    requires 2 <= base && AllDigits(d, base) && Ends(rest, base) && Value(d, base, acc) <= LONG_MAX
    ensures Accumulate(d + rest, base, acc) == Sum(Value(d, base, acc), rest)
  {
    if d == [] {
      assert d + rest == rest;
    } else {
      assert (d + rest)[1..] == d[1..] + rest;
      ShiftFits(d, base, acc);
      hide Shift, Value, CharValue;
      AccumulateDigits(d[1..], rest, base, Shift(acc, base, d[0]));
    }
  }

  lemma {:induction false} LeadingZeros(n: nat, d: string, base: nat)
    ensures Value(Fill('0', n) + d, base, 0) == Value(d, base, 0)
    ensures base >= 1 && AllDigits(d, base) ==> AllDigits(Fill('0', n) + d, base)
  {
    var s := Fill('0', n) + d;
    if n == 0 {
      assert s == d;
    } else {
      assert s[1..] == Fill('0', n - 1) + d;
      LeadingZeros(n - 1, d, base);
    }
  }

  /** The value of the digits in front, zero when there are none. */
  function BodyValue(s: string, base: nat): int {
    match Body(s, base) case None => 0 case Some(b) => b.value
  }

  lemma BodyOf(n: nat, d: string, rest: string, base: nat)
    requires 2 <= base && AllDigits(d, base) && Ends(rest, base) && Value(d, base, 0) <= LONG_MAX
    ensures BodyValue(Fill('0', n) + d + rest, base) == Value(d, base, 0)
  {
    var s := Fill('0', n) + d;
    LeadingZeros(n, d, base);
    hide Value, CharValue, Shift;
    AccumulateDigits(s, rest, base, 0);
    if s == [] {
      assert s + rest == rest;
    } else {
      assert (s + rest)[0] == s[0];
      FirstDigit(base, s[0]);
    }
  }

  lemma FirstDigit(base: nat, c: char)
    ensures Shift(0, base, c) == CharValue(c)
  {
    WrapFits(CharValue(c));
  }

  lemma {:induction false} SkipBlanks(n: int, s: string)
    ensures SkipSpaces(Fill(' ', n) + s) == SkipSpaces(s)
    decreases if n > 0 then n else 0
  {
    var t := Fill(' ', n) + s;
    if n <= 0 {
      assert t == s;
    } else {
      assert t[1..] == Fill(' ', n - 1) + s;
      SkipBlanks(n - 1, s);
    }
  }

  /** What follows the sign: prefix and digits, zero when either fails. */
  function AfterSign(u: string, base: nat): int {
    if u == [] then 0
    else match Prefix(u, base)
      case None => 0
      case Some(x) => BodyValue(x.rest, x.base)
  }

  lemma ParseAs(s: string, base: nat)
    ensures var t := SkipSpaces(s);
      Parse(s, base).value ==
        if t == [] then 0
        else if t[0] == '-' then Wrap(-AfterSign(t[1..], base))
        else if t[0] == '+' then AfterSign(t[1..], base)
        else AfterSign(t, base)
  {
    hide Body, Prefix, SkipSpaces;
    WrapFits(0);
  }

  lemma DigitChar(c: char)
    requires CharValue(c) < 37
    ensures !IsSpace(c) && c != '+' && c != '-'
  {
  }

  lemma NotX(c: char)
    requires CharValue(c) < 16 || c == ' '
    ensures c != 'x' && c != 'X'
  {
  }

  lemma BlankEnds(m: int, base: nat)
    requires base <= 36
    ensures Ends(Fill(' ', m), base)
  {
    assert CharValue(' ') == 37;
  }

  /** Digits with leading zeros and trailing blanks, as one string. */
  function Tail(n: nat, d: string, m: int): string {
    Fill('0', n) + d + Fill(' ', m)
  }

  predicate Printed(d: string, base: nat) {
    && (base == 8 || base == 10 || base == 16) && AllDigits(d, base) && (d != [] ==> d[0] != '0')
    && Value(d, base, 0) <= LONG_MAX
  }

  lemma NoX(n: nat, d: string, m: int)
    requires Printed(d, 16)
    ensures !IsX(Tail(n, d, m))
  {
    var s := Tail(n, d, m);
    assert CharValue('0') == 0;
    if s != [] {
      assert s[0] == '0' || s[0] == ' ' || (d != [] && s[0] == d[0]);
      NotX(s[0]);
    }
  }

  /** A zero in front is a leading zero. */
  lemma TailShift(n: nat, d: string, m: int)
    requires Printed(d, 16) && Tail(n, d, m) != [] && Tail(n, d, m)[0] == '0'
    ensures n > 0 && Tail(n, d, m)[1..] == Tail(n - 1, d, m)
  {
    var blank := d + Fill(' ', m);
    assert blank != [] ==> blank[0] != '0';
    assert n == 0 ==> Tail(n, d, m) == blank;
    assert Fill('0', n)[1..] == Fill('0', n - 1);
  }

  /** The only thing a 0x prefix could be confused with is a leading zero, and dropping that changes nothing. */
  lemma TailAfterSign(n: nat, d: string, m: int, base: nat)
    requires Printed(d, base)
    ensures AfterSign(Tail(n, d, m), base) == Value(d, base, 0)
  {
    BlankEnds(m, base);
    var s := Tail(n, d, m);
    if base == 16 && s != [] && s[0] == '0' {
      TailShift(n, d, m);
      NoX(n - 1, d, m);
      HexBody(n - 1, d, m);
    } else {
      BodyOf(n, d, Fill(' ', m), base);
    }
    hide BodyValue, Value, CharValue;
  }

  lemma TailParse(n: nat, d: string, m: int, base: nat)
    requires Printed(d, base)
    ensures Parse(Tail(n, d, m), base).value == Value(d, base, 0)
  {
    var s := Tail(n, d, m);
    TailAfterSign(n, d, m, base);
    ParseAs(s, base);
    if n == 0 && d == [] {
      assert s == Fill(' ', m) + [];
      SkipBlanks(m, []);
    } else {
      assert CharValue('0') == 0;
      DigitChar(s[0]);
    }
  }

  lemma ParseBlanks(n: int, s: string, base: nat)
    ensures Parse(Fill(' ', n) + s, base).value == Parse(s, base).value
  {
    SkipBlanks(n, s);
    ParseAs(Fill(' ', n) + s, base);
    ParseAs(s, base);
  }

  lemma ParseSigned(c: char, s: string, base: nat)
    requires c == '+' || c == '-'
    ensures Parse([c] + s, base).value == if c == '-' then Wrap(-AfterSign(s, base)) else AfterSign(s, base)
  {
    ParseAs([c] + s, base);
    assert ([c] + s)[1..] == s;
  }

  lemma ParseHex(c: char, s: string)
    requires c == 'x' || c == 'X'
    ensures Parse(['0', c] + s, 16).value == BodyValue(s, 16)
  {
    var t := ['0', c] + s;
    ParseAs(t, 16);
    assert t[1..][0] == c && t[2..] == s;
    hide BodyValue;
  }

  lemma TextParts(f: Field)
    requires f.prec >= |f.s|
    ensures Text(f) == Fill(' ', f.width - f.prec - f.prefixlen)
      + (Unpack(f.prefix) + Tail(f.prec - |f.s|, f.s, -f.width - f.prefixlen - f.prec))
  {
    hide Unpack;
    var a, b, c, d := Fill(' ', f.width - f.prec - f.prefixlen), Unpack(f.prefix), Fill('0', f.prec - |f.s|),
      Fill(' ', -f.width - f.prefixlen - f.prec);
    Associate(a, b, c, f.s, d);
  }

  lemma Associate(a: string, b: string, c: string, s: string, d: string)
    ensures a + b + c + s + d == a + (b + (c + s + d))
  {
  }

  predicate IsPrefix(pre: string, base: nat) {
    pre == [] || pre == ['+'] || pre == [' '] || pre == ['-'] ||
      (base == 16 && (pre == ['0', 'x'] || pre == ['0', 'X']))
  }

  lemma SignParse(c: char, n: nat, d: string, m: int, base: nat)
    requires Printed(d, base) && (c == '+' || c == '-')
    ensures Parse([c] + Tail(n, d, m), base).value ==
      if c == '-' then -(Value(d, base, 0) as int) else Value(d, base, 0)
  {
    hide Parse, Value, Printed, Tail, AfterSign, Wrap;
    ParseSigned(c, Tail(n, d, m), base);
    TailAfterSign(n, d, m, base);
    SmallWraps(d, base);
  }

  lemma BlankParse(n: nat, d: string, m: int, base: nat)
    requires Printed(d, base)
    ensures Parse([' '] + Tail(n, d, m), base).value == Value(d, base, 0)
  {
    hide Parse, Value, Printed, Tail;
    assert [' '] == Fill(' ', 1);
    ParseBlanks(1, Tail(n, d, m), base);
    TailParse(n, d, m, base);
  }

  lemma PrefixParse(pre: string, n: nat, d: string, m: int, base: nat)
    requires Printed(d, base) && IsPrefix(pre, base)
    ensures Parse(pre + Tail(n, d, m), base).value ==
      if pre == ['-'] then -(Value(d, base, 0) as int) else Value(d, base, 0)
  {
    hide Parse, Value, Printed, Tail, BodyValue;
    if pre == [] {
      assert pre + Tail(n, d, m) == Tail(n, d, m);
      TailParse(n, d, m, base);
    } else if pre == [' '] {
      BlankParse(n, d, m, base);
    } else if pre == ['+'] || pre == ['-'] {
      SignParse(pre[0], n, d, m, base);
    } else {
      ParseHex(pre[1], Tail(n, d, m));
      HexBody(n, d, m);
    }
  }

  /** Width, sign, zeros and padding of a number field do not change the number read back. */
  lemma FieldParse(f: Field, base: nat)
    requires f.prec >= |f.s| && Printed(f.s, base) && IsPrefix(Unpack(f.prefix), base)
    ensures Parse(Text(f), base).value == if Unpack(f.prefix) == ['-'] then -(Value(f.s, base, 0) as int)
      else Value(f.s, base, 0)
  {
    hide Parse, Value, Printed, Unpack, Text, Tail, IsPrefix, Fill;
    TextParts(f);
    var n, m := f.prec - |f.s|, -f.width - f.prefixlen - f.prec;
    ParseBlanks(f.width - f.prec - f.prefixlen, Unpack(f.prefix) + Tail(n, f.s, m), base);
    PrefixParse(Unpack(f.prefix), n, f.s, m, base);
  }

  lemma SmallWraps(d: string, base: nat)
    requires Printed(d, base)
    ensures Wrap(-(Value(d, base, 0) as int)) == -(Value(d, base, 0) as int)
  {
    WrapFits(-(Value(d, base, 0) as int));
  }

  lemma HexBody(n: nat, d: string, m: int)
    requires Printed(d, 16)
    ensures BodyValue(Tail(n, d, m), 16) == Value(d, 16, 0)
  {
    BlankEnds(m, 16);
    BodyOf(n, d, Fill(' ', m), 16);
  }

  lemma DigitsPrinted(u: nat, base: nat, upper: bool)
    requires (base == 8 || base == 10 || base == 16) && u <= LONG_MAX
    ensures Printed(Digits(u, base, upper), base) && Value(Digits(u, base, upper), base, 0) == u
  {
    DigitsDenote(u, base, upper);
    if u != 0 {
      NoLeadingZero(u, base, upper);
    }
  }

  /** %d and %i of any value that fits, under any flags, width and precision, are read back in base 10. */
  lemma SignedRoundTrip(sp: Spec, d: int)
    requires SpecOk(sp) && -LONG_MAX <= d <= LONG_MAX
    ensures Parse(Text(NumberField(SignedSpec(sp, d), Magnitude(d), 10, false)), 10).value == d
  {
    DigitsPrinted(Magnitude(d), 10, false);
    UnpackOne('+' as nat);
    UnpackOne(' ' as nat);
    UnpackOne('-' as nat);
    var f := NumberField(SignedSpec(sp, d), Magnitude(d), 10, false);
    assert Unpack(0) == [];
    hide Parse, Value, Printed, Unpack, Digits, Text;
    FieldParse(f, 10);
  }

  /** %o, %u, %x and %X, alternate forms included, are read back in their own base. */
  lemma UnsignedRoundTrip(sp: Spec, c: char, u: nat, base: nat)
    requires SpecOk(sp) && u <= LONG_MAX
    requires (c == 'o' && base == 8) || (c == 'u' && base == 10) || ((c == 'x' || c == 'X') && base == 16)
    ensures var sp' := if sp.alt && base == 16 then HexSpec(sp, c) else sp;
      Parse(Text(NumberField(sp', u, base, c == 'X')), base).value == u
  {
    DigitsPrinted(u, base, c == 'X');
    UnpackOne('+' as nat);
    UnpackOne(' ' as nat);
    UnpackTwo('x' as nat);
    UnpackTwo('X' as nat);
    var f := NumberField(if sp.alt && base == 16 then HexSpec(sp, c) else sp, u, base, c == 'X');
    assert Unpack(0) == [];
    hide Parse, Value, Printed, Unpack, Digits, Text;
    FieldParse(f, base);
  }

  /** A format that is one integer conversion, printed without bound and read back by strtol. */
  lemma PrintParse(fmt: string, args: seq<Arg>, t: Scan)
    requires fmt != [] && fmt[0] == '%' && Modifiers(fmt, Scan(1, Init, args)) == Some(t) && t.p == |fmt| - 1
    requires (fmt[t.p] == 'd' || fmt[t.p] == 'i') && t.args != [] && t.args[0].Int?
    requires SignedArg(t.sp.lflags, t.args[0].v).Some?
    ensures var d := SignedArg(t.sp.lflags, t.args[0].v).value;
      && Render(fmt, 0, args, Carry(0, 0)).Some?
      && (-LONG_MAX <= d <= LONG_MAX ==> Parse(Render(fmt, 0, args, Carry(0, 0)).value, 10).value == d)
  {
    var d := SignedArg(t.sp.lflags, t.args[0].v).value;
    ModifiersOk(fmt, Scan(1, Init, args));
    var f := NumberField(SignedSpec(t.sp, d), Magnitude(d), 10, false);
    assert Render(fmt, |fmt|, t.args[1..], Carry(10, Magnitude(d))) == Some([]);
    assert Convert(t.sp, fmt[t.p], t.args[0], Carry(0, 0)) == Some(Outcome(f, Carry(10, Magnitude(d))));
    hide Modifiers, Convert, Text, SpecOk, SignedArg, Parse, NumberField, SignedSpec;
    assert Render(fmt, 0, args, Carry(0, 0)) == Some(Text(f) + []);
    assert Text(f) + [] == Text(f);
    if -LONG_MAX <= d <= LONG_MAX {
      SignedRoundTrip(t.sp, d);
    }
  }

  // ------------------------------------------------------------ the end position

  /** Exactly the digits in front are used. */
  lemma {:induction false} AccumulateRest(s: string, base: nat, acc: int)
    ensures var r := Accumulate(s, base, acc).rest; var n := |s| - |r|;
      s[n..] == r && Ends(r, base) && AllDigits(s[..n], base)
  {
    if !(s == [] || CharValue(s[0]) >= base) {
      var next := Shift(acc, base, s[0]);
      assert Accumulate(s, base, acc) == Accumulate(s[1..], base, next);
      hide CharValue, Shift, Accumulate;
      AccumulateRest(s[1..], base, next);
      var n := |s| - |Accumulate(s, base, acc).rest|;
      assert s[1..][n - 1..] == s[n..];
      assert s[..n] == [s[0]] + s[1..][..n - 1];
    }
  }

  lemma SpacesRest(s: string)
    ensures var t := SkipSpaces(s); s[|s| - |t|..] == t
  {
  }

  /** What precedes the digits: the whole rest of the string is a tail of the original. */
  lemma PrefixRest(u: string, base: nat)
    requires u != []
    ensures Prefix(u, base).Some? ==> var t := Prefix(u, base).value.rest; u[|u| - |t|..] == t
    ensures base != 0 ==> Prefix(u, base).Some? && Prefix(u, base).value.base == base
  {
  }

  /** The string behind white space, sign and base prefix, where the digits begin. */
  lemma DigitsBegin(s: string, base: nat) returns (x: string)
    requires base > 0 && Parse(s, base).end != 0
    ensures |x| <= |s| && s[|s| - |x|..] == x
    ensures Body(x, base).Some? && Parse(s, base).end == |s| - |Body(x, base).value.rest|
  {
    hide Body, CharValue, Wrap;
    var t := SkipSpaces(s);
    SpacesRest(s);
    hide SkipSpaces;
    var u := if t[0] == '+' || t[0] == '-' then t[1..] else t;
    assert s[|s| - |u|..] == u;
    PrefixRest(u, base);
    hide Prefix;
    x := Prefix(u, base).value.rest;
    TailOfTail(s, u, x);
  }

  lemma TailOfTail(s: string, u: string, x: string)
    requires |x| <= |u| <= |s| && s[|s| - |u|..] == u && u[|u| - |x|..] == x
    ensures s[|s| - |x|..] == x
  {
  }

  /** After a success the end position stands behind a digit and not before another one. */
  lemma ParseEnd(s: string, base: nat)
    requires base > 0 && Parse(s, base).end != 0
    ensures var n := Parse(s, base).end; 0 < n <= |s| && CharValue(s[n - 1]) < base && Ends(s[n..], base)
  {
    hide Parse, CharValue;
    var x := DigitsBegin(s, base);
    BodyRest(x, base);
    hide Body;
    var n := Parse(s, base).end;
    var m := n - (|s| - |x|);
    assert x[m..] == s[n..] && x[m - 1] == s[n - 1];
  }

  lemma BodyRest(x: string, base: nat)
    requires Body(x, base).Some?
    ensures var r := Body(x, base).value.rest; var m := |x| - |r|;
      0 < m <= |x| && x[m..] == r && Ends(r, base) && CharValue(x[m - 1]) < base
  {
    var r := Body(x, base).value.rest;
    var m := |x| - |r|;
    AccumulateRest(x[1..], base, CharValue(x[0]));
    hide CharValue, Accumulate;
    assert x[1..][m - 1..] == x[m..];
    if m > 1 {
      assert x[1..][..m - 1][m - 2] == x[m - 1];
    }
  }

  // ----------------------------------------------------- what may be written

  /** The six characters isspace knows. */
  predicate Blank(c: char) { c in " \t\n\r" || c as int == 11 || c as int == 12 }

  /** The prefix `pre` before the first digit `c` makes base `base` the base `actual`. */
  predicate Chooses(pre: string, base: nat, actual: nat, c: char) {
    || (pre == "" && base == actual && 2 <= base <= 36 && (base == 16 ==> c != '0'))
    || (pre in ["0x", "0X"] && (base == 16 || base == 0) && actual == 16)
    || (pre == "0" && base == 0 && actual == 8)
    || (pre == "" && base == 0 && actual == 10 && c != '0')
  }

  lemma {:induction false} SkipAll(ws: string, t: string)
    requires forall i :: 0 <= i < |ws| ==> Blank(ws[i])
    requires t != [] && !IsSpace(t[0])
    ensures SkipSpaces(ws + t) == t
    decreases |ws|
  {
    if ws == [] {
      assert ws + t == t;
    } else {
      assert Blank(ws[0]) && (ws + t)[1..] == ws[1..] + t;
      SkipAll(ws[1..], t);
    }
  }

  lemma BodyIs(d: string, rest: string, base: nat)
    requires 2 <= base && d != [] && AllDigits(d, base) && Ends(rest, base) && Value(d, base, 0) <= LONG_MAX
    ensures Body(d + rest, base) == Some(Sum(Value(d, base, 0), rest))
  {
    assert (d + rest)[0] == d[0] && (d + rest)[1..] == d[1..] + rest;
    assert Value(d, base, 0) == Value(d[1..], base, CharValue(d[0]));
    hide Value, CharValue, Accumulate;
    AccumulateDigits(d[1..], rest, base, CharValue(d[0]));
  }

  lemma PrefixIs(pre: string, s: string, base: nat, actual: nat)
    requires s != [] && CharValue(s[0]) < actual && Chooses(pre, base, actual, s[0])
    ensures Prefix(pre + s, base) == Some(Radix(actual, s))
  {
    var u := pre + s;
    if pre == "" {
      assert u == s;
    } else if pre == "0" {
      assert u[1..] == s;
      NotX(s[0]);
    } else {
      assert u[1..][0] == pre[1] && u[2..] == s;
    }
  }

  predicate Sign(s: string) { s == "" || s == "+" || s == "-" }

  lemma SignFirst(sign: string, u: string)
    requires Sign(sign) && u != [] && !IsSpace(u[0]) && u[0] != '+' && u[0] != '-'
    ensures var t := sign + u;
      && t != [] && !IsSpace(t[0]) && (t[0] == '-' <==> sign == "-")
      && (if t[0] == '+' || t[0] == '-' then t[1..] else t) == u
  {
    if sign == "" {
      assert sign + u == u;
    } else {
      assert (sign + u)[1..] == u;
    }
  }

  lemma ParseFrom(s: string, t: string, u: string, x: Radix, b: Sum, base: nat)
    requires SkipSpaces(s) == t && t != [] && u == (if t[0] == '+' || t[0] == '-' then t[1..] else t) && u != []
    requires Prefix(u, base) == Some(x) && Body(x.rest, x.base) == Some(b)
    ensures Parse(s, base) == Parsed(if t[0] == '-' then Wrap(-b.value) else b.value, |s| - |b.rest|)
  {
    hide SkipSpaces, Prefix, Body, Wrap;
  }

  lemma PrefixFirst(pre: string, s: string, base: nat, actual: nat)
    requires s != [] && CharValue(s[0]) < actual && Chooses(pre, base, actual, s[0])
    ensures 2 <= actual <= 36
    ensures var u := pre + s; u != [] && !IsSpace(u[0]) && u[0] != '+' && u[0] != '-'
  {
    DigitChar(s[0]);
    DigitChar('0');
    if pre == "" {
      assert pre + s == s;
    }
    hide CharValue, IsSpace;
  }

  /**
   White space, a sign, a prefix and digits, in this order and each as the base allows, are read as
   the number they denote, up to the first character that is not a digit.
   */
  lemma ParseLayout(ws: string, sign: string, pre: string, d: string, rest: string, base: nat, actual: nat)
    requires (forall i :: 0 <= i < |ws| ==> Blank(ws[i])) && Sign(sign)
    requires d != [] && AllDigits(d, actual) && Chooses(pre, base, actual, d[0])
    requires Ends(rest, actual) && Value(d, actual, 0) <= LONG_MAX
    ensures Parse(ws + (sign + (pre + (d + rest))), base) ==
      Parsed(if sign == "-" then -(Value(d, actual, 0) as int) else Value(d, actual, 0), |ws| + |sign| + |pre| + |d|)
  {
    var u := pre + (d + rest);
    assert (d + rest)[0] == d[0] && CharValue(d[0]) < actual;
    hide Body, Prefix, SkipSpaces, Value, CharValue, Chooses, AllDigits, IsSpace, Blank, Parse, Ends, Wrap;
    PrefixFirst(pre, d + rest, base, actual);
    SignFirst(sign, u);
    SkipAll(ws, sign + u);
    PrefixIs(pre, d + rest, base, actual);
    BodyIs(d, rest, actual);
    ParseFrom(ws + (sign + u), sign + u, u, Radix(actual, d + rest), Sum(Value(d, actual, 0), rest), base);
    WrapFits(-(Value(d, actual, 0) as int));
  }
}

/**
 Digit strings of the C library: what umaxtostr writes, the value char_value
 gives back, and the number a digit string denotes.
 */
module DigitStrings {
  const LONG_MAX: int := 0x7FFF_FFFF
  const ULONG_MAX: nat := 0xFFFF_FFFF
  const UINTMAX_MAX: nat := 0xFFFF_FFFF_FFFF_FFFF

  const xdigits: string := "0123456789abcdef"
  const Xdigits: string := "0123456789ABCDEF"

  /** One of the two lookup tables. */
  function Table(upper: bool): (t: string)
    ensures |t| == 16
  {
    if upper then Xdigits else xdigits
  }

  /** Numeric value of a character in bases up to 36; 37 for any other character. */
  function CharValue(c: char): (v: nat)
    ensures v <= 37
  {
    if '0' <= c <= '9' then (c - '0') as nat
    else if 'a' <= c <= 'z' then (c - 'a') as nat + 10
    else if 'A' <= c <= 'Z' then (c - 'A') as nat + 10
    else 37
  }

  /** char_value undoes both lookup tables. */
  lemma TableValue(upper: bool, v: nat)
    requires v < 16
    ensures CharValue(Table(upper)[v]) == v
  {
    assert forall w: nat :: w < 16 ==> CharValue(xdigits[w]) == w && CharValue(Xdigits[w]) == w;
  }

  /** The digits of `u`, most significant first; none for zero. */
  function Digits(u: nat, base: nat, upper: bool): string
    requires 2 <= base <= 16
  {
    if u == 0 then [] else Digits(u / base, base, upper) + [Table(upper)[u % base]]
  }

  /** The number a string of digits denotes, continuing from `acc`. */
  function Value(s: string, base: nat, acc: nat): nat {
    if s == [] then acc else Value(s[1..], base, acc * base + CharValue(s[0]))
  }

  predicate AllDigits(s: string, base: nat) {
    forall i :: 0 <= i < |s| ==> CharValue(s[i]) < base
  }

  lemma {:induction false} ValueAppend(s: string, c: char, base: nat, acc: nat)
    ensures Value(s + [c], base, acc) == Value(s, base, acc) * base + CharValue(c)
  {
    var t := s + [c];
    if s != [] {
      assert t[1..] == s[1..] + [c];
      ValueAppend(s[1..], c, base, acc * base + CharValue(s[0]));
    } else {
      assert t[1..] == [];
    }
  }

  lemma Quotient(u: nat, base: nat)
    requires base >= 2
    ensures u / base * base + u % base == u && 0 <= u % base < base && 0 <= u / base && (u > 0 ==> u / base < u)
  {
  }

  lemma DigitsStep(u: nat, base: nat, upper: bool)
    requires 2 <= base <= 16 && u != 0
    ensures Digits(u, base, upper) == Digits(u / base, base, upper) + [Table(upper)[u % base]]
  {
  }

  lemma DenoteStep(s: string, c: char, base: nat, q: nat, r: nat)
    requires Value(s, base, 0) == q && AllDigits(s, base) && CharValue(c) == r < base
    ensures Value(s + [c], base, 0) == q * base + r && AllDigits(s + [c], base)
  {
    hide CharValue, Value;
    ValueAppend(s, c, base, 0);
  }

  lemma ProductsOrdered(a: nat, b: nat, c: nat, d: nat)
    requires a <= b && c <= d
    ensures a * c <= b * d
  {
    assert b * d - a * c == b * (d - c) + (b - a) * c;
  }

  lemma QuotientBelow(u: nat, base: nat, m: nat)
    requires base >= 8 && u < 8 * m
    ensures u / base < m
  {
    var q := u / base;
    Quotient(u, base);
    if q >= m {
      ProductsOrdered(m, q, 8, base);
      assert false;
    }
  }

  /** The digits generated denote the number, and every one is a digit of the base. */
  lemma {:induction false} DigitsDenote(u: nat, base: nat, upper: bool)
    requires 2 <= base <= 16
    ensures Value(Digits(u, base, upper), base, 0) == u && AllDigits(Digits(u, base, upper), base)
  {
    if u != 0 {
      var q, r := u / base, u % base;
      Quotient(u, base);
      DigitsDenote(q, base, upper);
      TableValue(upper, r);
      DigitsStep(u, base, upper);
      hide CharValue, Value, Digits, AllDigits;
      DenoteStep(Digits(q, base, upper), Table(upper)[r], base, q, r);
    }
  }

  /** There are no leading zeros. */
  lemma {:induction false} NoLeadingZero(u: nat, base: nat, upper: bool)
    requires 2 <= base <= 16 && u != 0
    ensures Digits(u, base, upper) != [] && Digits(u, base, upper)[0] != '0'
  {
    DigitsStep(u, base, upper);
    Quotient(u, base);
    var q, r := u / base, u % base;
    if q != 0 {
      NoLeadingZero(q, base, upper);
      hide Digits;
    } else {
      TableValue(upper, r);
      assert CharValue('0') == 0 && r == u;
      assert Digits(0, base, upper) == [];
      hide Digits, CharValue, Table;
    }
  }

  function Power(b: nat, k: nat): nat {
    if k == 0 then 1 else b * Power(b, k - 1)
  }

  lemma {:induction false} DigitsShort(u: nat, base: nat, upper: bool, k: nat)
    requires 8 <= base <= 16 && u < Power(8, k)
    ensures |Digits(u, base, upper)| <= k
  {
    if u != 0 {
      QuotientBelow(u, base, Power(8, k - 1));
      DigitsShort(u / base, base, upper, k - 1);
    }
  }

  /** Twenty-two digits are enough for any uintmax_t in base 8 and above. */
  lemma DigitsFit(u: nat, base: nat, upper: bool)
    requires 8 <= base <= 16 && u <= UINTMAX_MAX
    ensures |Digits(u, base, upper)| <= 22
  {
    assert Power(8, 4) == 4096;
    assert Power(8, 8) == 4096 * 4096;
    assert Power(8, 12) == 4096 * 4096 * 4096;
    assert Power(8, 16) == 4096 * 4096 * 4096 * 4096;
    assert Power(8, 20) == 4096 * 4096 * 4096 * 4096 * 4096;
    assert Power(8, 22) == 64 * Power(8, 20);
    DigitsShort(u, base, upper, 22);
  }

  /** What both loops keep: the digits of the rest, followed by those written, are the digits wanted. */
  ghost predicate Written(value: nat, base: nat, upper: bool, u: nat, done: string) {
    2 <= base <= 16 && Digits(value, base, upper) == Digits(u, base, upper) + done &&
      |Digits(u, base, upper)| + |done| <= 22
  }

  lemma WrittenStep(value: nat, base: nat, upper: bool, u: nat, done: string)
    requires Written(value, base, upper, u, done) && u != 0
    ensures |done| < 22 && 0 <= u % base < base && 0 <= u / base < u
    ensures Written(value, base, upper, u / base, [Table(upper)[u % base]] + done)
  {
    DigitsStep(u, base, upper);
    Quotient(u, base);
    hide Digits;
    var rest, c := Digits(u / base, base, upper), Table(upper)[u % base];
    assert (rest + [c]) + done == rest + ([c] + done);
  }

  /**
   Fills the buffer from its end and returns where the digits begin. Wide
   arithmetic is used only until the rest fits an unsigned long.
   */
  method Umaxtostr(buf: array<char>, value: nat, base: nat, upper: bool) returns (s: nat)
    requires buf.Length == 24 && 8 <= base <= 16 && value <= UINTMAX_MAX
    modifies buf
    ensures 2 <= s <= 24 && buf[s..] == Digits(value, base, upper)
    ensures buf[..s] == old(buf[..s])
  {
    DigitsFit(value, base, upper);
    var u: nat := value;
    s := 24;
    assert Written(value, base, upper, u, buf[s..]);
    hide Digits, Written;
    while u > ULONG_MAX
      invariant u <= value && s <= 24
      invariant Written(value, base, upper, u, buf[s..])
      invariant forall i :: 0 <= i < s ==> buf[i] == old(buf[i])
    {
      s, u := Put(buf, s, value, u, base, upper);
    }
    var u2: nat := u;
    while u2 != 0
      invariant s <= 24
      invariant Written(value, base, upper, u2, buf[s..])
      invariant forall i :: 0 <= i < s ==> buf[i] == old(buf[i])
    {
      s, u2 := Put(buf, s, value, u2, base, upper);
    }
    AllWritten(value, base, upper, buf[s..]);
  }

  /** One digit, in front of those already written. */
  method Put(buf: array<char>, at: nat, ghost value: nat, u: nat, base: nat, upper: bool) returns (s: nat, q: nat)
    requires buf.Length == 24 && at <= 24 && u != 0 && Written(value, base, upper, u, buf[at..]) && 2 <= base <= 16
    modifies buf
    ensures s <= 24 && q < u && Written(value, base, upper, q, buf[s..])
    ensures s < at && forall i :: 0 <= i < s ==> buf[i] == old(buf[i])
  {
    ghost var done := buf[at..];
    WrittenStep(value, base, upper, u, done);
    hide Written;
    s := at - 1;
    q := u / base;
    buf[s] := Table(upper)[u % base];
    assert buf[s..] == [buf[s]] + done;
  }

  lemma AllWritten(value: nat, base: nat, upper: bool, done: string)
    requires Written(value, base, upper, 0, done)
    ensures done == Digits(value, base, upper) && |done| <= 22
  {
  }
}

/**
 A conversion specification as it is spelled, and the characters it prints: sign or
 prefix, zeros, digits or text, and blanks to the left or to the right.
 */
module FormatDirectives {
  import opened Seqs
  import opened DigitStrings
  import opened FormatSpec

  /** Flags, field width (none if zero), precision, length modifier and conversion, in that order. */
  datatype Directive = Directive(flags: string, width: nat, prec: Option<nat>, len: string, conv: char)

  function Decimal(n: nat): string { Digits(n, 10, false) }

  function Precision(prec: Option<nat>): string {
    match prec case None => "" case Some(n) => "." + Decimal(n)
  }

  function Tail(d: Directive): string { d.len + [d.conv] }

  function Spelled(d: Directive): string {
    "%" + (d.flags + (Decimal(d.width) + (Precision(d.prec) + Tail(d))))
  }

  predicate Flag(c: char) { c in "-+ 0#" }

  predicate Flags(s: string) { forall i :: 0 <= i < |s| ==> Flag(s[i]) }

  /** How often `l` and how often `h`; j counts as ll, z and t as l. */
  function LengthFlags(len: string): Option<int> {
    if len == "" then Some(0) else if len == "h" then Some(-1) else if len == "hh" then Some(-2)
    else if len == "l" || len == "z" || len == "t" then Some(1)
    else if len == "ll" || len == "j" then Some(2) else None
  }

  predicate Sound(d: Directive) {
    Flags(d.flags) && LengthFlags(d.len).Some? && d.conv in "diouxXcsp"
  }

  /** The sign a number that is not negative gets: the last plus sign or blank among the flags. */
  function PlusOrBlank(flags: string): string {
    if flags == [] then ""
    else
      var c := flags[|flags| - 1];
      if c == '+' || c == ' ' then [c] else PlusOrBlank(flags[..|flags| - 1])
  }

  // ------------------------------------------------------------- the scanner

  /** The variables after the flags of `flags`, from `sp` on. */
  function Flagged(sp: Spec, flags: string): Spec {
    var sign := PlusOrBlank(flags);
    sp.(alt := sp.alt || '#' in flags, ljust := sp.ljust || '-' in flags, zeropad := sp.zeropad || '0' in flags,
        prefix := if sign == "" then sp.prefix else sign[0] as nat,
        prefixlen := if sign == "" then sp.prefixlen else 1)
  }

  lemma {:induction false} SignSplit(c: char, rest: string)
    ensures PlusOrBlank([c] + rest) ==
      if PlusOrBlank(rest) != "" then PlusOrBlank(rest) else if c == '+' || c == ' ' then [c] else ""
    ensures |PlusOrBlank(rest)| <= 1
  {
    var s := [c] + rest;
    if rest == [] {
      assert s == [c] && s[..0] == [];
    } else {
      assert s[..|s| - 1] == [c] + rest[..|rest| - 1];
      SignSplit(c, rest[..|rest| - 1]);
    }
  }

  /** Each flag is noted, and the scan goes on behind them. */
  lemma {:induction false} ScanFlags(pre: string, flags: string, rest: string, sp: Spec, args: seq<Arg>)
    requires Flags(flags)
    ensures Modifiers(pre + (flags + rest), Scan(|pre|, sp, args)) ==
      Modifiers(pre + (flags + rest), Scan(|pre| + |flags|, Flagged(sp, flags), args))
    decreases |flags|
  {
    hide Modifiers, Flag;
    if flags == [] {
      assert Flagged(sp, flags) == sp;
    } else {
      var fmt, c, more := pre + (flags + rest), flags[0], flags[1..];
      assert Flag(c);
      assert flags == [c] + more && fmt == (pre + [c]) + (more + rest);
      OneFlag(fmt, |pre|, sp, args);
      SignSplit(c, more);
      ScanFlags(pre + [c], more, rest, Flagged(sp, [c]), args);
      assert Flagged(Flagged(sp, [c]), more) == Flagged(sp, flags) by { FlaggedTwice(sp, c, more); }
    }
  }

  lemma FlaggedTwice(sp: Spec, c: char, more: string)
    ensures Flagged(Flagged(sp, [c]), more) == Flagged(sp, [c] + more)
  {
    var s := [c] + more;
    SignSplit(c, more);
    SignSplit(c, []);
    assert [c] + [] == [c];
    assert forall x: char :: x in s <==> x == c || x in more;
    hide PlusOrBlank;
  }

  lemma OneFlag(fmt: string, p: nat, sp: Spec, args: seq<Arg>)
    requires p < |fmt| && Flag(fmt[p])
    ensures IsModifier(fmt[p]) && Modify(fmt, Scan(p, sp, args)) == Some(Scan(p + 1, Flagged(sp, [fmt[p]]), args))
    ensures Modifiers(fmt, Scan(p, sp, args)) == Modifiers(fmt, Scan(p + 1, Flagged(sp, [fmt[p]]), args))
  {
    SignSplit(fmt[p], []);
    assert [fmt[p]] + [] == [fmt[p]];
    hide Number, Justify, Signed, PlusOrBlank, Modifiers;
    Follow(fmt, Scan(p, sp, args));
  }

  /** One modifier of a specification is read. */
  lemma Follow(fmt: string, t: Scan)
    requires t.p < |fmt| && IsModifier(fmt[t.p]) && Modify(fmt, t).Some?
    ensures Modifiers(fmt, t) == Modifiers(fmt, Modify(fmt, t).value)
  {
    hide Modify, IsModifier;
  }

  /** Digits followed by something else are read as the number they denote. */
  lemma {:induction false} ScanNumber(pre: string, digits: string, rest: string, acc: nat)
    requires forall i :: 0 <= i < |digits| ==> IsDigit(digits[i])
    requires rest != [] ==> !IsDigit(rest[0])
    ensures Number(pre + (digits + rest), |pre|, acc) == Run(|pre| + |digits|, Value(digits, 10, acc))
    decreases |digits|
  {
    var fmt := pre + (digits + rest);
    if digits == [] {
      assert digits + rest == rest;
    } else {
      var c, more := digits[0], digits[1..];
      assert fmt == (pre + [c]) + (more + rest);
      assert IsDigit(c) && CharValue(c) == (c - '0') as nat;
      ScanNumber(pre + [c], more, rest, acc * 10 + CharValue(c));
    }
  }

  lemma {:induction false} DecimalDigits(n: nat)
    ensures forall i :: 0 <= i < |Decimal(n)| ==> IsDigit(Decimal(n)[i])
    ensures Value(Decimal(n), 10, 0) == n
    ensures n == 0 ==> Decimal(n) == []
    ensures n > 0 ==> Decimal(n) != [] && '1' <= Decimal(n)[0] <= '9'
  {
    DigitsDenote(n, 10, false);
    DecimalChars(n);
    if n > 0 {
      NoLeadingZero(n, 10, false);
      assert IsDigit(Decimal(n)[0]);
    }
  }

  lemma {:induction false} DecimalChars(n: nat)
    ensures forall i :: 0 <= i < |Digits(n, 10, false)| ==> IsDigit(Digits(n, 10, false)[i])
  {
    if n != 0 {
      DigitsStep(n, 10, false);
      DecimalChars(n / 10);
      assert IsDigit(Table(false)[n % 10]);
      hide Digits;
    }
  }

  /** A width that begins with no zero is read as a whole, negated after a minus sign. */
  lemma ScanWidth(pre: string, width: nat, rest: string, sp: Spec, args: seq<Arg>)
    requires rest != [] && !IsDigit(rest[0]) && sp.width == 0
    ensures var w := sp.(width := if sp.ljust then -(width as int) else width);
      var fmt := pre + (Decimal(width) + rest);
      Modifiers(fmt, Scan(|pre|, sp, args)) == Modifiers(fmt, Scan(|pre| + |Decimal(width)|, w, args))
  {
    hide Modifiers, Justify, Number, Decimal, Value;
    DecimalDigits(width);
    var fmt, ds := pre + (Decimal(width) + rest), Decimal(width);
    if width == 0 {
      assert ds == [];
      assert sp.(width := 0) == sp;
    } else {
      var c, more := ds[0], ds[1..];
      assert ds == [c] + more;
      assert fmt == (pre + [c]) + (more + rest);
      ScanNumber(pre + [c], more, rest, (c - '0') as nat);
      FirstValue(ds);
      assert fmt[|pre|] == c;
      WidthModifier(fmt, |pre|, sp, args);
      Justified(sp, width);
    }
  }

  lemma Justified(sp: Spec, width: nat)
    ensures Justify(sp, width) == sp.(width := if sp.ljust then -(width as int) else width)
  {
  }

  lemma FirstValue(ds: string)
    requires ds != [] && IsDigit(ds[0])
    ensures Value(ds, 10, 0) == Value(ds[1..], 10, (ds[0] - '0') as nat)
  {
  }

  lemma WidthModifier(fmt: string, p: nat, sp: Spec, args: seq<Arg>)
    requires p < |fmt| && '1' <= fmt[p] <= '9'
    ensures var n := Number(fmt, p + 1, (fmt[p] - '0') as nat);
      Modifiers(fmt, Scan(p, sp, args)) == Modifiers(fmt, Scan(n.end, Justify(sp, n.value), args))
  {
    hide Number, Justify, Signed, Modifiers;
    Follow(fmt, Scan(p, sp, args));
  }

  lemma ScanPrecision(pre: string, prec: Option<nat>, rest: string, sp: Spec, args: seq<Arg>)
    requires rest != [] && !IsDigit(rest[0]) && rest[0] != '*'
    ensures var w := if prec.Some? then sp.(point := true, prec := prec.value) else sp;
      var fmt := pre + (Precision(prec) + rest);
      Modifiers(fmt, Scan(|pre|, sp, args)) == Modifiers(fmt, Scan(|pre| + |Precision(prec)|, w, args))
  {
    hide Modifiers, Decimal;
    match prec
    case None => assert pre + (Precision(prec) + rest) == pre + rest;
    case Some(n) =>
      assert Precision(prec) == ['.'] + Decimal(n);
      ScanPoint(pre, n, rest, sp, args);
  }

  lemma ScanPoint(pre: string, n: nat, rest: string, sp: Spec, args: seq<Arg>)
    requires rest != [] && !IsDigit(rest[0]) && rest[0] != '*'
    ensures var fmt := pre + ((['.'] + Decimal(n)) + rest);
      Modifiers(fmt, Scan(|pre|, sp, args)) ==
        Modifiers(fmt, Scan(|pre| + 1 + |Decimal(n)|, sp.(point := true, prec := n), args))
  {
    hide Modifiers, Number, Decimal, Value, IsDigit;
    var ds := Decimal(n);
    var fmt := pre + ((['.'] + ds) + rest);
    DecimalDigits(n);
    assert fmt == (pre + ['.']) + (ds + rest);
    ScanNumber(pre + ['.'], ds, rest, 0);
    NoStar(ds, rest);
    assert fmt[|pre|] == '.' && fmt[|pre| + 1] == (ds + rest)[0];
    PointModifier(fmt, |pre|, sp, args);
  }

  lemma NoStar(ds: string, rest: string)
    requires rest != [] && rest[0] != '*' && forall i :: 0 <= i < |ds| ==> IsDigit(ds[i])
    ensures (ds + rest)[0] != '*'
  {
    if ds != [] {
      assert IsDigit(ds[0]);
    }
  }

  lemma PointModifier(fmt: string, p: nat, sp: Spec, args: seq<Arg>)
    requires p + 1 < |fmt| && fmt[p] == '.' && fmt[p + 1] != '*'
    ensures var n := Number(fmt, p + 1, 0);
      Modifiers(fmt, Scan(p, sp, args)) == Modifiers(fmt, Scan(n.end, sp.(point := true, prec := n.value), args))
  {
    hide Number, Justify, Signed, Modifiers;
    assert IsModifier('.');
    Follow(fmt, Scan(p, sp, args));
  }

  /** The length modifier is counted, and the conversion character ends the scan. */
  lemma ScanTail(pre: string, d: Directive, sp: Spec, args: seq<Arg>)
    requires Sound(d) && sp.lflags == 0
    ensures Modifiers(pre + Tail(d), Scan(|pre|, sp, args)) ==
      Some(Scan(|pre| + |d.len|, sp.(lflags := LengthFlags(d.len).value), args))
  {
    hide Modifiers, LengthFlags, Letters, Letter, Sound, IsModifier;
    TailEnds(d);
    LengthLetters(d.len);
    var fmt := pre + Tail(d);
    ScanLetters(pre, d.len, [d.conv], sp, args);
    ScanEnds(fmt, Scan(|pre| + |d.len|, sp.(lflags := LengthFlags(d.len).value), args));
  }

  /** The flags after the letters of a length modifier. */
  function Letters(l: int, len: string): int
    decreases |len|
  {
    if len == [] then l else Letters(LengthStep(l, len[0]), len[1..])
  }

  predicate Letter(c: char) { c in "hljzt" }

  lemma {:induction false} ScanLetters(pre: string, len: string, rest: string, sp: Spec, args: seq<Arg>)
    requires forall i :: 0 <= i < |len| ==> Letter(len[i])
    ensures Modifiers(pre + (len + rest), Scan(|pre|, sp, args)) ==
      Modifiers(pre + (len + rest), Scan(|pre| + |len|, sp.(lflags := Letters(sp.lflags, len)), args))
    decreases |len|
  {
    hide Modifiers, Letter, LengthStep;
    if len == [] {
      assert sp.(lflags := sp.lflags) == sp;
    } else {
      var fmt, c, more := pre + (len + rest), len[0], len[1..];
      assert len == [c] + more && fmt == (pre + [c]) + (more + rest);
      LengthModifier(fmt, |pre|, sp, args);
      var next := sp.(lflags := LengthStep(sp.lflags, c));
      ScanLetters(pre + [c], more, rest, next, args);
      assert next.(lflags := Letters(next.lflags, more)) == sp.(lflags := Letters(sp.lflags, len));
    }
  }

  lemma TailEnds(d: Directive)
    requires Sound(d)
    ensures !IsModifier(d.conv) && LengthFlags(d.len).Some? && Flags(d.flags)
  {
  }

  /** The flags of a length modifier are those of its letters, one after the other. */
  lemma LengthLetters(len: string)
    requires LengthFlags(len).Some?
    ensures forall i :: 0 <= i < |len| ==> Letter(len[i])
    ensures LengthFlags(len).value == Letters(0, len)
  {
    if |len| == 2 {
      var l := LengthStep(0, len[0]);
      assert len[1..] == [len[1]] && len[1..][1..] == [];
      assert Letters(0, len) == Letters(l, len[1..]) == Letters(LengthStep(l, len[1]), []);
    } else if |len| == 1 {
      assert len[1..] == [];
    }
  }

  lemma ScanEnds(fmt: string, t: Scan)
    requires t.p < |fmt| && !IsModifier(fmt[t.p])
    ensures Modifiers(fmt, t) == Some(t)
  {
    hide Modify, IsModifier;
  }

  function LengthStep(l: int, c: char): int {
    if c == 'h' then l - 1 else if c == 'l' then l + 1 else if c == 'j' then 2 else 1
  }

  lemma LengthModifier(fmt: string, p: nat, sp: Spec, args: seq<Arg>)
    requires p < |fmt| && Letter(fmt[p])
    ensures Modifiers(fmt, Scan(p, sp, args)) ==
      Modifiers(fmt, Scan(p + 1, sp.(lflags := LengthStep(sp.lflags, fmt[p])), args))
  {
    hide Modifiers;
    LengthModify(fmt, p, sp, args);
    hide Modify, IsModifier, LengthStep;
    Follow(fmt, Scan(p, sp, args));
  }

  lemma LengthModify(fmt: string, p: nat, sp: Spec, args: seq<Arg>)
    requires p < |fmt| && Letter(fmt[p])
    ensures IsModifier(fmt[p])
    ensures Modify(fmt, Scan(p, sp, args)) == Some(Scan(p + 1, sp.(lflags := LengthStep(sp.lflags, fmt[p])), args))
  {
    hide Number, Justify, Signed;
  }

  /** The variables a directive sets. */
  function SpecOf(d: Directive): Spec
    requires Sound(d)
  {
    var sign := PlusOrBlank(d.flags);
    Spec('#' in d.flags, '-' in d.flags, d.prec.Some?, '0' in d.flags, LengthFlags(d.len).value,
         if sign == "" then 0 else sign[0] as nat, |sign|,
         if '-' in d.flags then -(d.width as int) else d.width, if d.prec.Some? then d.prec.value else 1)
  }

  lemma PointNoDigit()
    ensures !IsDigit('.')
  {
  }

  lemma TailBegins(d: Directive)
    requires Sound(d)
    ensures Tail(d) != [] && !IsDigit(Tail(d)[0]) && Tail(d)[0] != '*' && Tail(d)[0] != '.'
  {
    assert Tail(d)[0] == if d.len == "" then d.conv else d.len[0];
  }

  /** Scanning a directive sets exactly what it spells. */
  lemma Scanned(d: Directive, args: seq<Arg>)
    requires Sound(d)
    ensures Modifiers(Spelled(d), Scan(1, Init, args)) == Some(Scan(|Spelled(d)| - 1, SpecOf(d), args))
  {
    hide Modifiers, PlusOrBlank, Decimal, Sound, LengthFlags, Flags, IsDigit;
    TailEnds(d);
    var fmt := Spelled(d);
    SignSplit('%', d.flags);
    TailBegins(d);
    var rest1 := Precision(d.prec) + Tail(d);
    var rest0 := Decimal(d.width) + rest1;
    var s0 := Flagged(Init, d.flags);
    ScanFlags("%", d.flags, rest0, Init, args);
    var pre1 := "%" + d.flags;
    assert fmt == pre1 + (Decimal(d.width) + rest1);
    assert rest1[0] == (if d.prec.Some? then '.' else Tail(d)[0]);
    assert !IsDigit('.') by { PointNoDigit(); }
    ScanWidth(pre1, d.width, rest1, s0, args);
    var s1 := s0.(width := if s0.ljust then -(d.width as int) else d.width);
    var pre2 := pre1 + Decimal(d.width);
    assert fmt == pre2 + (Precision(d.prec) + Tail(d));
    ScanPrecision(pre2, d.prec, Tail(d), s1, args);
    var s2 := if d.prec.Some? then s1.(point := true, prec := d.prec.value) else s1;
    var pre3 := pre2 + Precision(d.prec);
    assert fmt == pre3 + Tail(d);
    ScanTail(pre3, d, s2, args);
  }
}

/**
 What a format prints, in visible characters: literal text as it stands, formats in a
 row one behind the other, and each conversion by its flags, width and precision.
 */
module FormatText {
  import opened Seqs
  import opened FormatSpec

  // ------------------------------------------------------- one behind the other

  /** Text `x` in front of what comes next, if there is anything. */
  function Ahead(x: string, r: Option<string>): Option<string> {
    match r case None => None case Some(y) => Some(x + y)
  }

  /** What a format leaves for the next: arguments not used, and base and value carried over. */
  datatype Left = Left(args: seq<Arg>, k: Carry)

  function Leaves(fmt: string, p: nat, args: seq<Arg>, k: Carry): Option<Left>
    requires p <= |fmt|
    decreases |fmt| - p
  {
    if p == |fmt| then Some(Left(args, k))
    else if fmt[p] != '%' then Leaves(fmt, p + 1, args, k)
    else match Modifiers(fmt, Scan(p + 1, Init, args))
      case None => None
      case Some(t) =>
        if fmt[t.p] == '%' then Leaves(fmt, t.p + 1, t.args, k)
        else if t.args == [] then None
        else match Convert(t.sp, fmt[t.p], t.args[0], k)
          case None => None
          case Some(o) => Leaves(fmt, t.p + 1, t.args[1..], o.carry)
  }

  lemma {:induction false} LeavesIff(fmt: string, p: nat, args: seq<Arg>, k: Carry)
    requires p <= |fmt|
    ensures Leaves(fmt, p, args, k).Some? <==> Render(fmt, p, args, k).Some?
    decreases |fmt| - p
  {
    hide Convert, Modifiers, Text;
    if p < |fmt| {
      if fmt[p] != '%' {
        LeavesIff(fmt, p + 1, args, k);
      } else {
        match Modifiers(fmt, Scan(p + 1, Init, args))
        case None =>
        case Some(t) =>
          if fmt[t.p] == '%' {
            LeavesIff(fmt, t.p + 1, t.args, k);
          } else if t.args != [] && Convert(t.sp, fmt[t.p], t.args[0], k).Some? {
            LeavesIff(fmt, t.p + 1, t.args[1..], Convert(t.sp, fmt[t.p], t.args[0], k).value.carry);
          }
      }
    }
  }

  // ------------------------------------------- a format behind another string

  lemma {:induction false} NumberBehind(a: string, b: string, p: nat, acc: nat)
    requires p <= |b|
    ensures var r := Number(b, p, acc); Number(a + b, |a| + p, acc) == Run(|a| + r.end, r.value)
    decreases |b| - p
  {
    if p < |b| && IsDigit(b[p]) {
      NumberBehind(a, b, p + 1, acc * 10 + (b[p] - '0') as nat);
    }
  }

  /** The same scan, so many characters further on. */
  function Moved(r: Option<Scan>, n: nat): Option<Scan> {
    match r case None => None case Some(t) => Some(t.(p := n + t.p))
  }

  lemma ModifyBehind(a: string, b: string, t: Scan)
    requires t.p < |b| && IsModifier(b[t.p])
    ensures Modify(a + b, t.(p := |a| + t.p)) == Moved(Modify(b, t), |a|)
  {
    hide Number, Signed, Justify;
    var c, p := b[t.p], t.p + 1;
    assert (a + b)[|a| + t.p] == c;
    if p < |b| {
      assert (a + b)[|a| + p] == b[p];
    }
    NumberBehind(a, b, p, 0);
    if '1' <= c <= '9' {
      NumberBehind(a, b, p, (c - '0') as nat);
    }
  }

  lemma {:induction false} ModifiersBehind(a: string, b: string, t: Scan)
    requires t.p <= |b|
    ensures Modifiers(a + b, t.(p := |a| + t.p)) == Moved(Modifiers(b, t), |a|)
    decreases |b| - t.p
  {
    hide Modify, IsModifier;
    if t.p < |b| {
      assert (a + b)[|a| + t.p] == b[t.p];
      if IsModifier(b[t.p]) {
        ModifyBehind(a, b, t);
        if Modify(b, t).Some? {
          ModifiersBehind(a, b, Modify(b, t).value);
        }
      }
    }
  }

  lemma {:induction false} RenderBehind(a: string, b: string, p: nat, args: seq<Arg>, k: Carry)
    requires p <= |b|
    ensures Render(a + b, |a| + p, args, k) == Render(b, p, args, k)
    decreases |b| - p
  {
    hide Modifiers, Convert, Text;
    if p < |b| {
      assert (a + b)[|a| + p] == b[p];
      if b[p] != '%' {
        RenderBehind(a, b, p + 1, args, k);
      } else {
        ModifiersBehind(a, b, Scan(p + 1, Init, args));
        match Modifiers(b, Scan(p + 1, Init, args))
        case None =>
        case Some(t) =>
          assert (a + b)[|a| + t.p] == b[t.p];
          if b[t.p] == '%' {
            RenderBehind(a, b, t.p + 1, t.args, k);
          } else if t.args != [] && Convert(t.sp, b[t.p], t.args[0], k).Some? {
            RenderBehind(a, b, t.p + 1, t.args[1..], Convert(t.sp, b[t.p], t.args[0], k).value.carry);
          }
      }
    }
  }

  // ------------------------------------------- a format in front of another string

  lemma {:induction false} NumberAhead(a: string, b: string, p: nat, acc: nat)
    requires p <= |a| && Number(a, p, acc).end < |a|
    ensures Number(a + b, p, acc) == Number(a, p, acc)
    decreases |a| - p
  {
    if p < |a| && IsDigit(a[p]) {
      NumberAhead(a, b, p + 1, acc * 10 + (a[p] - '0') as nat);
    }
  }

  lemma ModifyAhead(a: string, b: string, t: Scan)
    requires t.p < |a| && IsModifier(a[t.p]) && Modify(a, t).Some? && Modify(a, t).value.p < |a|
    ensures Modify(a + b, t) == Modify(a, t)
  {
    hide Number, Signed, Justify;
    var c, p := a[t.p], t.p + 1;
    assert (a + b)[t.p] == c;
    if p < |a| {
      assert (a + b)[p] == a[p];
      if Number(a, p, 0).end < |a| {
        NumberAhead(a, b, p, 0);
      }
      if '1' <= c <= '9' && Number(a, p, (c - '0') as nat).end < |a| {
        NumberAhead(a, b, p, (c - '0') as nat);
      }
    }
  }

  lemma {:induction false} ModifiersAhead(a: string, b: string, t: Scan)
    requires t.p <= |a| && Modifiers(a, t).Some?
    ensures Modifiers(a + b, t) == Modifiers(a, t)
    decreases |a| - t.p
  {
    hide Modify, IsModifier;
    assert (a + b)[t.p] == a[t.p];
    if IsModifier(a[t.p]) {
      ModifyAhead(a, b, t);
      ModifiersAhead(a, b, Modify(a, t).value);
    }
  }

  lemma AheadAgain(x: string, y: string, r: Option<string>)
    ensures Ahead(x, Ahead(y, r)) == Ahead(x + y, r)
  {
    if r.Some? {
      assert x + (y + r.value) == (x + y) + r.value;
    }
  }

  /**
   Two formats in a row print the texts of both, one behind the other; the second gets the
   arguments the first has not used.
   */
  lemma {:induction false} InARow(a: string, b: string, p: nat, args: seq<Arg>, k: Carry)
    requires p <= |a| && Leaves(a, p, args, k).Some?
    ensures Render(a, p, args, k).Some?
    ensures var l := Leaves(a, p, args, k).value;
      Render(a + b, p, args, k) == Ahead(Render(a, p, args, k).value, Render(b, 0, l.args, l.k))
    decreases |a| - p
  {
    hide Modifiers, Convert, Text;
    LeavesIff(a, p, args, k);
    if p == |a| {
      RenderBehind(a, b, 0, args, k);
      assert forall y: string :: [] + y == y;
    } else if a[p] != '%' {
      assert (a + b)[p] == a[p];
      InARow(a, b, p + 1, args, k);
      var l := Leaves(a, p + 1, args, k).value;
      AheadAgain([a[p]], Render(a, p + 1, args, k).value, Render(b, 0, l.args, l.k));
    } else {
      ModifiersAhead(a, b, Scan(p + 1, Init, args));
      var t := Modifiers(a, Scan(p + 1, Init, args)).value;
      assert (a + b)[p] == a[p] && (a + b)[t.p] == a[t.p];
      if a[t.p] == '%' {
        InARow(a, b, t.p + 1, t.args, k);
        var l := Leaves(a, t.p + 1, t.args, k).value;
        AheadAgain(['%'], Render(a, t.p + 1, t.args, k).value, Render(b, 0, l.args, l.k));
      } else {
        var o := Convert(t.sp, a[t.p], t.args[0], k).value;
        InARow(a, b, t.p + 1, t.args[1..], o.carry);
        var l := Leaves(a, t.p + 1, t.args[1..], o.carry).value;
        AheadAgain(Text(o.field), Render(a, t.p + 1, t.args[1..], o.carry).value, Render(b, 0, l.args, l.k));
      }
    }
  }

  // ------------------------------------------------------------- literal text

  predicate Plain(s: string) { '%' !in s }

  lemma {:induction false} PlainFrom(s: string, p: nat, args: seq<Arg>, k: Carry)
    requires p <= |s| && Plain(s)
    ensures Render(s, p, args, k) == Some(s[p..]) && Leaves(s, p, args, k) == Some(Left(args, k))
    decreases |s| - p
  {
    if p < |s| {
      assert s[p] in s;
      PlainFrom(s, p + 1, args, k);
      assert s[p..] == [s[p]] + s[p + 1..];
    } else {
      assert s[p..] == [];
    }
  }

  /** A format without a percent sign prints itself. */
  lemma PlainPrints(s: string, args: seq<Arg>, k: Carry)
    requires Plain(s)
    ensures Render(s, 0, args, k) == Some(s)
  {
    PlainFrom(s, 0, args, k);
    assert s[0..] == s;
  }

  /** Text in front of a format is kept, and what follows is printed as if it stood alone. */
  lemma PlainAhead(s: string, fmt: string, args: seq<Arg>, k: Carry)
    requires Plain(s)
    ensures Render(s + fmt, 0, args, k) == Ahead(s, Render(fmt, 0, args, k))
  {
    PlainFrom(s, 0, args, k);
    assert s[0..] == s;
    InARow(s, fmt, 0, args, k);
  }

  /** Two percent signs print one. */
  lemma PercentPrints(fmt: string, args: seq<Arg>, k: Carry)
    ensures Render("%%" + fmt, 0, args, k) == Ahead("%", Render(fmt, 0, args, k))
  {
    var pp := "%%";
    assert !IsModifier('%');
    assert Modifiers(pp, Scan(1, Init, args)) == Some(Scan(1, Init, args));
    hide Modifiers, IsModifier;
    assert Render(pp, 2, args, k) == Some([]) && Leaves(pp, 2, args, k) == Some(Left(args, k));
    var none: string := [];
    assert ['%'] + none == "%";
    assert Render(pp, 0, args, k) == Some("%") && Leaves(pp, 0, args, k) == Some(Left(args, k));
    InARow(pp, fmt, 0, args, k);
  }
}

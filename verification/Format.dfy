/**
 format_string writing to memory: the loops that read a format, generate digits
 and store characters, proved against the text FormatSpec gives the format.
 */
module Format {
  import opened Seqs
  import opened DigitStrings
  import opened FormatSpec

  lemma Reassociate(t: string, a: string, b: string, c: string, s: string, d: string)
    ensures t + a + b + c + s + d == t + (a + b + c + s + d)
  {
  }

  /** The variables WRITE_CHAR works on, with the text produced so far. */
  class Sink {
    const output: array<char>
    /** Characters that may be stored before the terminating NUL. */
    const n: nat
    var pos: nat
    var r: nat
    var overflowed: bool
    ghost var text: string
    ghost const initial: seq<char>

    /** Up to the limit the buffer holds the text, and nothing was stored elsewhere. */
    ghost predicate Valid()
      reads this, output
    {
      && n < output.Length == |initial| && r == |text|
      && (overflowed <==> r > n)
      && (if overflowed then output[..n] == text[..n] && output[n] == '\0' && output[n + 1..] == initial[n + 1..]
          else pos == r && output[..r] == text && output[r..] == initial[r..])
    }

    constructor (output: array<char>, n: nat)
      requires n < output.Length
      ensures Valid() && this.output == output && this.n == n && text == [] && initial == output[..]
    {
      this.output, this.n := output, n;
      pos, r, overflowed := 0, 0, false;
      text, initial := [], output[..];
    }

    method WriteChar(c: char)
      requires Valid()
      modifies this, output
      ensures Valid() && r == |text| && text == old(text) + [c]
      ensures old(!overflowed) && !overflowed ==> pos == old(pos) + 1
    {
      if r == n {
        output[pos] := '\0';
        pos := pos + 1;
        overflowed := true;
      }
      if !overflowed {
        output[pos] := c;
        pos := pos + 1;
      }
      r := r + 1;
      text := text + [c];
    }

    method Pad(c: char, k: nat)
      requires Valid()
      modifies this, output
      ensures Valid() && r == |text| && text == old(text) + Fill(c, k)
    {
      for i := 0 to k
        invariant Valid() && text == old(text) + Fill(c, i)
      {
        assert Fill(c, i + 1) == Fill(c, i) + [c];
        WriteChar(c);
      }
    }

    /** Prints one field; returns the number of characters added. */
    method Fprintf1(f: Field) returns (added: nat)
      requires Valid() && r == |text| && Proper(f)
      modifies this, output
      ensures Valid() && r == |text| && text == old(text) + Text(f) && added == |Text(f)|
    {
      TextWidth(f);
      var y := r;
      ghost var t := text;
      ghost var a, b, c, d := Fill(' ', f.width - f.prec - f.prefixlen), Unpack(f.prefix), Fill('0', f.prec - |f.s|),
        Fill(' ', -f.width - f.prefixlen - f.prec);
      Reassociate(t, a, b, c, f.s, d);
      assert Text(f) == a + b + c + f.s + d;
      hide Valid, Unpack, Fill, Text;
      if f.width - f.prec - f.prefixlen > 0 {
        Pad(' ', f.width - f.prec - f.prefixlen);
      }
      assert text == t + a;
      Prefix(f.prefix);
      Pad('0', f.prec - |f.s|);
      Body(f.s);
      if f.width < 0 {
        assert y - f.width - r == -f.width - f.prefixlen - f.prec;
        Right(y - f.width);
      }
      added := r - y;
    }

    /** The caller of fprintf1 keeps its own output pointer and moves it by the count returned. */
    method PrintField(f: Field)
      requires Valid() && Proper(f)
      modifies this, output
      ensures Valid() && r == |text| && text == old(text) + Text(f)
    {
      hide Proper, Text;
      var at := pos;
      var tmp := Fprintf1(f);
      pos := at + tmp;
    }

    method Prefix(packed: nat)
      requires Valid()
      modifies this, output
      ensures Valid() && r == |text| && text == old(text) + Unpack(packed)
    {
      var prefix := packed;
      while prefix != 0
        invariant Valid() && text + Unpack(prefix) == old(text) + Unpack(packed)
      {
        ghost var before, after := text, Unpack(prefix / 256);
        WriteChar((prefix % 256) as char);
        assert before + ([(prefix % 256) as char] + after) == text + after;
        prefix := prefix / 256;
      }
    }

    method Body(s: string)
      requires Valid()
      modifies this, output
      ensures Valid() && r == |text| && text == old(text) + s
    {
      for i := 0 to |s|
        invariant Valid() && text == old(text) + s[..i]
      {
        assert s[..i + 1] == s[..i] + [s[i]];
        WriteChar(s[i]);
      }
      assert s[..|s|] == s;
    }

    /** Right padding until `end` characters have been produced. */
    method Right(end: nat)
      requires Valid()
      modifies this, output
      ensures Valid() && r == |text| && text == old(text) + Fill(' ', end - old(r))
    {
      var from := r;
      while r < end
        invariant Valid() && from <= r <= Max(from, end) && text == old(text) + Fill(' ', r - from)
      {
        assert Fill(' ', r + 1 - from) == Fill(' ', r - from) + [' '];
        WriteChar(' ');
      }
    }

    /** The closing NUL, unless the overflow has already stored one. */
    method Finish()
      requires Valid()
      modifies output
      ensures var m := if |text| < n then |text| else n;
        output[..m] == text[..m] && output[m] == '\0' && output[m + 1..] == initial[m + 1..]
    {
      if !overflowed {
        output[pos] := '\0';
      }
    }
  }

  // ------------------------------------------------------- reading the format

  method ReadNumber(fmt: string, start: nat, first: nat) returns (p: nat, value: nat)
    requires start <= |fmt|
    ensures Run(p, value) == Number(fmt, start, first) && p <= |fmt|
  {
    p, value := start, first;
    while p < |fmt| && IsDigit(fmt[p])
      invariant p <= |fmt| && Number(fmt, p, value) == Number(fmt, start, first)
    {
      value := value * 10 + (fmt[p] - '0') as nat;
      p := p + 1;
    }
  }

  /** The body of the switch for one modifier. */
  method ReadModifier(fmt: string, at: nat, spec: Spec, args: seq<Arg>) returns (p: nat, sp: Spec, rest: seq<Arg>)
    requires at < |fmt| && IsModifier(fmt[at]) && Modify(fmt, Scan(at, spec, args)).Some?
    ensures at < p <= |fmt| && Modify(fmt, Scan(at, spec, args)) == Some(Scan(p, sp, rest))
  {
    var c := fmt[at];
    p, sp, rest := at + 1, spec, args;
    if c == '#' {
      sp := sp.(alt := true);
    } else if c == '-' {
      sp := sp.(ljust := true);
    } else if c == '0' {
      sp := sp.(zeropad := true);
    } else if c == '+' || c == ' ' {
      sp := sp.(prefix := c as nat, prefixlen := 1);
    } else if c == '*' {
      sp := Justify(sp, Signed(rest[0].v, 32));
      rest := rest[1..];
    } else if '1' <= c <= '9' {
      var width;
      p, width := ReadNumber(fmt, p, (c - '0') as nat);
      sp := Justify(sp, width);
    } else if c == '.' {
      sp := sp.(point := true);
      if p < |fmt| && fmt[p] == '*' {
        sp := sp.(prec := Signed(rest[0].v, 32));
        p, rest := p + 1, rest[1..];
      } else {
        var prec;
        p, prec := ReadNumber(fmt, p, 0);
        sp := sp.(prec := prec);
      }
    } else if c == 'h' {
      sp := sp.(lflags := sp.lflags - 1);
    } else if c == 'L' || c == 'l' {
      sp := sp.(lflags := sp.lflags + 1);
    } else if c == 't' || c == 'z' {
      sp := sp.(lflags := 1);
    } else {
      sp := sp.(lflags := 2);
    }
  }

  /** The modifiers up to the conversion character. */
  method ReadSpec(fmt: string, start: nat, args: seq<Arg>) returns (p: nat, sp: Spec, rest: seq<Arg>)
    requires start <= |fmt| && Modifiers(fmt, Scan(start, Init, args)).Some?
    ensures p < |fmt| && !IsModifier(fmt[p]) && SpecOk(sp)
    ensures Modifiers(fmt, Scan(start, Init, args)) == Some(Scan(p, sp, rest))
  {
    p, sp, rest := start, Init, args;
    ModifiersOk(fmt, Scan(start, Init, args));
    hide Modify, IsModifier, SpecOk;
    while IsModifier(fmt[p])
      invariant p < |fmt|
      invariant Modifiers(fmt, Scan(p, sp, rest)) == Modifiers(fmt, Scan(start, Init, args))
      decreases |fmt| - p
    {
      p, sp, rest := ReadModifier(fmt, p, sp, rest);
    }
  }

  /** Fetches the argument and prepares its field; numbers go through the digit buffer. */
  method Prepare(sp: Spec, c: char, arg: Arg, k: Carry) returns (f: Field, k': Carry)
    requires Convert(sp, c, arg, k).Some?
    ensures Convert(sp, c, arg, k) == Some(Outcome(f, k'))
  {
    hide Digits, Signed;
    var s, upper, number := sp, c == 'X', true;
    k' := k;
    if c == 'c' {
      f := TextField(sp, [(arg.v % 256) as char], k);
      number := false;
    } else if c == 's' {
      var len := ScanLength(sp, arg.s);
      f := TextField(sp, arg.s[..len], k);
      number := false;
    } else if c == 'd' || c == 'i' {
      var d := SignedArg(sp.lflags, arg.v).value;
      s := SignedSpec(sp, d);
      k' := Carry(10, Magnitude(d));
      SignedRange(sp.lflags, arg.v);
    } else if c == 'p' {
      k' := k.(u := arg.v % (ULONG_MAX + 1));
      if k'.u != 0 {
        k', s := k'.(base := 16), HexSpec(sp, 'x').(prec := 8);
      } else {
        f := TextField(sp, "(nil)", k');
        number := false;
      }
    } else {
      k' := Carry(if c == 'o' then 8 else if c == 'u' then 10 else 16, UnsignedArg(sp.lflags, arg.v).value);
      if sp.alt && k'.base == 16 {
        s := HexSpec(sp, c);
      }
    }
    if number {
      f := PrepareNumber(s, k'.u, k'.base, upper);
    }
  }

  lemma SignedRange(lflags: int, v: int)
    ensures SignedArg(lflags, v).Some? ==> Magnitude(SignedArg(lflags, v).value) <= UINTMAX_MAX
  {
  }

  /** The characters %s prints: all, or at most the precision when one is given. */
  method ScanLength(sp: Spec, s: string) returns (len: nat)
    ensures len <= |s| && s[..len] == Chars(sp, s)
  {
    if sp.point {
      len := 0;
      while len < sp.prec && len != |s|
        invariant len <= sp.prec && len <= |s|
      {
        len := len + 1;
      }
    } else {
      len := |s|;
    }
  }

  method PrepareNumber(sp: Spec, u: nat, base: nat, upper: bool) returns (f: Field)
    requires 8 <= base <= 16 && u <= UINTMAX_MAX
    ensures f == NumberField(sp, u, base, upper)
  {
    var buf := new char[24](_ => ' ');
    var at := Umaxtostr(buf, u, base, upper);
    var len := 24 - at;
    var prec := sp.prec;
    if prec < len {
      prec := len;
    }
    if sp.zeropad && prec < sp.width - sp.prefixlen {
      prec := sp.width - sp.prefixlen;
    } else if sp.alt && base == 8 && u != 0 {
      prec := prec + 1;
    }
    f := Field(buf[at..], sp.prefix, sp.prefixlen, sp.width, prec);
  }

  // ---------------------------------------------------------- the whole format

  /** The text so far and the text of the rest of the format make up the whole. */
  ghost predicate Remains(fmt: string, args0: seq<Arg>, p: nat, args: seq<Arg>, k: Carry, text: string) {
    && p <= |fmt| && Render(fmt, p, args, k).Some?
    && Render(fmt, 0, args0, Carry(0, 0)) == Some(text + Render(fmt, p, args, k).value)
  }

  lemma RemainsStep(fmt: string, args0: seq<Arg>, p: nat, args: seq<Arg>, k: Carry, text: string, piece: string,
      p': nat, args': seq<Arg>, k': Carry)
    requires Remains(fmt, args0, p, args, k, text) && p' <= |fmt| && Render(fmt, p', args', k').Some?
    requires Render(fmt, p, args, k).value == piece + Render(fmt, p', args', k').value
    ensures Remains(fmt, args0, p', args', k', text + piece)
  {
    hide Render;
    var rest := Render(fmt, p', args', k').value;
    assert text + (piece + rest) == (text + piece) + rest;
  }

  method FormatString(sink: Sink, fmt: string, args: seq<Arg>) returns (r: nat)
    requires sink.Valid() && sink.text == [] && Render(fmt, 0, args, Carry(0, 0)).Some?
    modifies sink, sink.output
    ensures var t := Render(fmt, 0, args, Carry(0, 0)).value; var m := if |t| < sink.n then |t| else sink.n;
      && r == |t| && sink.output[..m] == t[..m] && sink.output[m] == '\0'
      && sink.output[m + 1..] == sink.initial[m + 1..]
  {
    var p, rest, k := 0, args, Carry(0, 0);
    assert [] + Render(fmt, 0, args, k).value == Render(fmt, 0, args, k).value;
    hide Modifiers, Convert, Text, Init;
    while p < |fmt|
      invariant sink.Valid() && Remains(fmt, args, p, rest, k, sink.text)
      decreases |fmt| - p
    {
      p, rest, k := Step(sink, fmt, p, args, rest, k);
    }
    r := sink.r;
    sink.Finish();
  }

  /** One character or one conversion. */
  method Step(sink: Sink, fmt: string, at: nat, ghost args0: seq<Arg>, args: seq<Arg>, k: Carry)
    returns (p: nat, rest: seq<Arg>, k': Carry)
    requires sink.Valid() && at < |fmt| && Remains(fmt, args0, at, args, k, sink.text)
    modifies sink, sink.output
    ensures sink.Valid() && at < p <= |fmt| && Remains(fmt, args0, p, rest, k', sink.text)
  {
    hide Modifiers, Convert, Text, Init, SpecOk, Proper, IsModifier, Sink.Valid, Remains;
    ghost var t := sink.text;
    RemainsSome(fmt, args0, at, args, k, t);
    p, rest, k' := at, args, k;
    if fmt[p] != '%' {
      sink.WriteChar(fmt[p]);
      RemainsStep(fmt, args0, at, args, k, t, [fmt[p]], p + 1, rest, k');
    } else {
      var sp;
      p, sp, rest := ReadSpec(fmt, p + 1, rest);
      if fmt[p] == '%' {
        sink.WriteChar('%');
        RemainsStep(fmt, args0, at, args, k, t, ['%'], p + 1, rest, k);
      } else {
        ConvertProper(sp, fmt[p], rest[0], k);
        var f;
        f, k' := Prepare(sp, fmt[p], rest[0], k);
        rest := rest[1..];
        RemainsStep(fmt, args0, at, args, k, t, Text(f), p + 1, rest, k');
        sink.PrintField(f);
      }
    }
    p := p + 1;
  }

  lemma RemainsSome(fmt: string, args0: seq<Arg>, p: nat, args: seq<Arg>, k: Carry, text: string)
    requires Remains(fmt, args0, p, args, k, text)
    ensures p <= |fmt| && Render(fmt, p, args, k).Some?
  {
  }

  /** vsnprintf: a zero size stores nothing and returns zero. */
  method Vsnprintf(str: array<char>, size: nat, fmt: string, args: seq<Arg>) returns (r: nat)
    requires size <= str.Length && Render(fmt, 0, args, Carry(0, 0)).Some?
    modifies str
    ensures size == 0 ==> r == 0 && str[..] == old(str[..])
    ensures size >= 1 ==> var t := Render(fmt, 0, args, Carry(0, 0)).value;
      var m := if |t| < size - 1 then |t| else size - 1;
      r == |t| && str[..m] == t[..m] && str[m] == '\0' && str[m + 1..] == old(str[m + 1..])
  {
    if size == 0 {
      return 0;
    }
    var sink := new Sink(str, size - 1);
    r := FormatString(sink, fmt, args);
  }
}

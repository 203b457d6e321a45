/** The strftime format compiler (pkg/util/strftime.go). */
module Strftimes {
  import opened Prelude
  import opened Digits
  import opened Dates

  /** A directive table: the known letters and what each one prints. */
  datatype Directives = Directives(known: char -> bool, emit: (char, Time) -> Bytes)

  // ----- Direct interpretation -----

  /** What '%' followed by c stands for: an unknown directive emits its letter. */
  function Directed(d: Directives, c: char, t: Time): Bytes {
    if d.known(c) then d.emit(c, t) else [c]
  }

  /** A format read from left to right; a trailing '%' emits nothing. */
  function Interpret(d: Directives, f: Bytes, t: Time): Bytes {
    if f == [] then []
    else if f[0] != '%' then [f[0]] + Interpret(d, f[1..], t)
    else if |f| == 1 then []
    else Directed(d, f[1], t) + Interpret(d, f[2..], t)
  }

  /** f ends in a '%' that still waits for its directive. */
  predicate Pending(f: Bytes) {
    if f == [] then false
    else if f[0] != '%' then Pending(f[1..])
    else if |f| == 1 then true
    else Pending(f[2..])
  }

  /** A format can be cut anywhere but after a waiting '%'. */
  lemma {:induction false} InterpretSplits(d: Directives, a: Bytes, b: Bytes, t: Time)
    requires !Pending(a)
    ensures Interpret(d, a + b, t) == Interpret(d, a, t) + Interpret(d, b, t)
    decreases |a|
  {
    if a == [] {
      assert a + b == b;
    } else if a[0] != '%' {
      assert (a + b)[1..] == a[1..] + b;
      InterpretSplits(d, a[1..], b, t);
    } else {
      assert (a + b)[2..] == a[2..] + b;
      InterpretSplits(d, a[2..], b, t);
    }
  }

  /** After a waiting '%' the cut always shows: joined with a second '%' the halves emit one '%' that they lack apart. */
  lemma {:induction false} PendingCutFails(d: Directives, a: Bytes, t: Time)
    requires Pending(a) && !d.known('%')
    ensures Interpret(d, a + "%", t) == Interpret(d, a, t) + "%"
    ensures Interpret(d, "%", t) == []
    decreases |a|
  {
    if a[0] != '%' {
      assert (a + "%")[1..] == a[1..] + "%";
      PendingCutFails(d, a[1..], t);
    } else if |a| == 1 {
      assert (a + "%")[2..] == [];
    } else {
      assert (a + "%")[2..] == a[2..] + "%";
      PendingCutFails(d, a[2..], t);
    }
  }

  /** Output is the concatenation of the outputs of the halves, for every second half, exactly when no '%' is waiting. */
  lemma CutExactly(d: Directives, a: Bytes, t: Time)
    requires !d.known('%')
    ensures (forall b :: Interpret(d, a + b, t) == Interpret(d, a, t) + Interpret(d, b, t)) <==> !Pending(a)
  {
    if Pending(a) {
      PendingCutFails(d, a, t);
      assert Interpret(d, a + "%", t) != Interpret(d, a, t) + Interpret(d, "%", t);
    } else {
      forall b
        ensures Interpret(d, a + b, t) == Interpret(d, a, t) + Interpret(d, b, t)
      {
        InterpretSplits(d, a, b, t);
      }
    }
  }

  // ----- Compilation -----

  datatype Piece = Literal(b: Bytes) | Directive(c: char)

  function Show(d: Directives, p: Piece, t: Time): Bytes {
    match p
    case Literal(b) => b
    case Directive(c) => d.emit(c, t)
  }

  /** The output of a compiled format. */
  function Output(d: Directives, fns: seq<Piece>, t: Time): Bytes {
    if fns == [] then [] else Output(d, fns[..|fns| - 1], t) + Show(d, fns[|fns| - 1], t)
  }

  /** The compiled prefix and the rest of the format together mean the format. */
  ghost predicate Compiled(d: Directives, fns: seq<Piece>, rest: Bytes, format: Bytes) {
    forall t :: Output(d, fns, t) + Interpret(d, rest, t) == Interpret(d, format, t)
  }

  lemma {:induction false} NothingPending(a: Bytes)
    requires '%' !in a
    ensures !Pending(a)
  {
    if a != [] {
      NothingPending(a[1..]);
    }
  }

  lemma {:induction false} PlainText(d: Directives, a: Bytes, t: Time)
    requires '%' !in a
    ensures Interpret(d, a, t) == a
  {
    if a != [] {
      PlainText(d, a[1..], t);
    }
  }

  /** One more piece prints behind the others. */
  lemma OutputSnoc(d: Directives, fns: seq<Piece>, p: Piece, t: Time)
    ensures Output(d, fns + [p], t) == Output(d, fns, t) + Show(d, p, t)
  {
    assert (fns + [p])[..|fns|] == fns;
  }

  lemma Regroup(a: Bytes, b: Bytes, c: Bytes)
    ensures a + (b + c) == a + b + c
  {
  }

  lemma CompileText(d: Directives, fns: seq<Piece>, a: Bytes, b: Bytes, format: Bytes)
    requires Compiled(d, fns, a + b, format) && '%' !in a
    ensures Compiled(d, fns + [Literal(a)], b, format)
  {
    forall t
      ensures Output(d, fns + [Literal(a)], t) + Interpret(d, b, t) == Interpret(d, format, t)
    {
      TextMeans(d, a, b, t);
      OutputSnoc(d, fns, Literal(a), t);
      Regroup(Output(d, fns, t), a, Interpret(d, b, t));
      assert Output(d, fns, t) + Interpret(d, a + b, t) == Interpret(d, format, t);
    }
  }

  lemma TextMeans(d: Directives, a: Bytes, b: Bytes, t: Time)
    requires '%' !in a
    ensures Interpret(d, a + b, t) == a + Interpret(d, b, t)
  {
    NothingPending(a);
    InterpretSplits(d, a, b, t);
    PlainText(d, a, t);
  }

  lemma CompileDirective(d: Directives, fns: seq<Piece>, p: Piece, rest: Bytes, format: Bytes)
    requires |rest| >= 2 && rest[0] == '%' && Compiled(d, fns, rest, format)
    requires p == if d.known(rest[1]) then Directive(rest[1]) else Literal([rest[1]])
    ensures Compiled(d, fns + [p], rest[2..], format)
  {
    forall t
      ensures Output(d, fns + [p], t) + Interpret(d, rest[2..], t) == Interpret(d, format, t)
    {
      OutputSnoc(d, fns, p, t);
      Regroup(Output(d, fns, t), Show(d, p, t), Interpret(d, rest[2..], t));
      assert Output(d, fns, t) + Interpret(d, rest, t) == Interpret(d, format, t);
    }
  }

  /** Up to position off, format is compiled into fns. */
  ghost predicate CompiledTo(d: Directives, fns: seq<Piece>, format: Bytes, off: nat) {
    off <= |format| && Compiled(d, fns, format[off..], format)
  }

  lemma TextStep(d: Directives, fns: seq<Piece>, format: Bytes, off: nat, end: nat)
    requires CompiledTo(d, fns, format, off) && off <= end <= |format| && '%' !in format[off..end]
    ensures CompiledTo(d, fns + [Literal(format[off..end])], format, end)
  {
    assert format[off..] == format[off..end] + format[end..];
    CompileText(d, fns, format[off..end], format[end..], format);
  }

  lemma DirectiveStep(d: Directives, fns: seq<Piece>, format: Bytes, j: nat, p: Piece)
    requires 0 < j < |format| && format[j - 1] == '%' && CompiledTo(d, fns, format, j - 1)
    requires p == if d.known(format[j]) then Directive(format[j]) else Literal(format[j..j + 1])
    ensures CompiledTo(d, fns + [p], format, j + 1)
  {
    assert format[j - 1..][2..] == format[j + 1..] && format[j..j + 1] == [format[j]];
    CompileDirective(d, fns, p, format[j - 1..], format);
  }

  lemma TrailingPercent(d: Directives, fns: seq<Piece>, format: Bytes)
    requires format != [] && format[|format| - 1] == '%' && CompiledTo(d, fns, format, |format| - 1)
    ensures CompiledTo(d, fns, format, |format|)
  {
    forall t
      ensures Output(d, fns, t) + Interpret(d, format[|format|..], t) == Interpret(d, format, t)
    {
      assert Interpret(d, format[|format| - 1..], t) == [];
    }
  }

  lemma FullyCompiled(d: Directives, fns: seq<Piece>, format: Bytes, t: Time)
    requires CompiledTo(d, fns, format, |format|)
    ensures Output(d, fns, t) == Interpret(d, format, t)
  {
    assert Output(d, fns, t) + Interpret(d, format[|format|..], t) == Interpret(d, format, t);
  }

  /** Text up to the next '%', when there is any. */
  method CompileLiteral(d: Directives, fns0: seq<Piece>, format: Bytes, off: nat) returns (fns: seq<Piece>, end: nat)
    requires CompiledTo(d, fns0, format, off)
    ensures off <= end <= |format| && CompiledTo(d, fns, format, end)
    ensures end < |format| ==> format[end] == '%'
  {
    fns := fns0;
    var i := IndexOf(format[off..], '%');
    end := off + i;
    assert format[off..end] == format[off..][..i];
    if i > 0 || end == |format| {
      TextStep(d, fns, format, off, end);
      fns := fns + [Literal(format[off..end])];
    }
  }

  /** NewStrftimeBytes: running the result means the same as interpreting the format, at every time. */
  method NewStrftimeBytes(d: Directives, format: Bytes) returns (fns: seq<Piece>)
    ensures forall t :: Output(d, fns, t) == Interpret(d, format, t)
  {
    fns := [];
    var off := 0;
    assert format[0..] == format;
    while true
      invariant CompiledTo(d, fns, format, off)
      decreases |format| - off
    {
      var i;
      fns, i := CompileLiteral(d, fns, format, off);
      if i == |format| {
        break;
      }
      var j := i + 1;
      if j == |format| {
        TrailingPercent(d, fns, format);
        break;
      }
      var p := if d.known(format[j]) then Directive(format[j]) else Literal(format[j..j + 1]);
      DirectiveStep(d, fns, format, j, p);
      fns := fns + [p];
      off := j + 1;
    }
    forall t {
      FullyCompiled(d, fns, format, t);
    }
  }

  /** Strftime.AppendBytes */
  method AppendBytes(d: Directives, fns: seq<Piece>, dst0: Bytes, t: Time) returns (dst: Bytes)
    ensures dst == dst0 + Output(d, fns, t)
  {
    dst := dst0;
    for i := 0 to |fns|
      invariant dst == dst0 + Output(d, fns[..i], t)
    {
      assert fns[..i + 1][..i] == fns[..i];
      dst := dst + Show(d, fns[i], t);
    }
    assert fns[..|fns|] == fns;
  }

  // ----- The source's directive table -----

  /** The directives the source knows. */
  predicate IsDirective(c: char) {
    || c == 'a' || c == 'A' || c == 'b' || c == 'B' || c == 'c' || c == 'C' || c == 'd' || c == 'D'
    || c == 'e' || c == 'F' || c == 'g' || c == 'G' || c == 'h' || c == 'H' || c == 'I' || c == 'j'
    || c == 'k' || c == 'l' || c == 'm' || c == 'M' || c == 'n' || c == 'p' || c == 'P' || c == 'r'
    || c == 'R' || c == 's' || c == 'S' || c == 't' || c == 'T' || c == 'u' || c == 'U' || c == 'V'
    || c == 'w' || c == 'W' || c == 'x' || c == 'X' || c == 'y' || c == 'Y' || c == 'z' || c == 'Z'
  }

  /** Directives that go through the Go time library or the calendar; given functions of the directive and the time. */
  datatype Calendar = Calendar(show: (char, Time) -> Bytes)

  function Zeros(n: nat, p: nat): Bytes {
    Padded(Decimal(n), p, '0')
  }

  function Spaces(n: nat, p: nat): Bytes {
    Padded(Decimal(n), p, ' ')
  }

  /** The hour on a 12-hour clock as the source computes it: midnight stays 0. */
  function Hour12(h: nat): nat {
    if h > 12 then h - 12 else h
  }

  /** The hour a 12-hour clock shows. */
  function ClockHour(h: nat): (c: nat)
    ensures 1 <= c <= 12
  {
    if h % 12 == 0 then 12 else h % 12
  }

  /** The hour is one of a 12-hour clock, and then the right one, at every hour but midnight. */
  lemma Hour12Exactly(h: nat)
    requires h < 24
    ensures 1 <= Hour12(h) <= 12 <==> h != 0
    ensures Hour12(h) == ClockHour(h) <==> h != 0
  {
  }

  /** The output of one known directive. */
  function Emit(cal: Calendar, c: char, t: Time): Bytes
    decreases if c in "DFrRT" then 1 else 0
  {
    if c == 'C' then Zeros(t.year / 100, 2)
    else if c == 'd' then Zeros(t.day, 2)
    else if c == 'D' then Emit(cal, 'm', t) + "/" + Emit(cal, 'd', t) + "/" + Emit(cal, 'y', t)
    else if c == 'e' then Spaces(t.day, 2)
    else if c == 'F' then Emit(cal, 'Y', t) + "-" + Emit(cal, 'm', t) + "-" + Emit(cal, 'd', t)
    else if c == 'g' || c == 'y' then Zeros(t.year % 100, 2)
    else if c == 'G' || c == 'Y' then Zeros(t.year, 4)
    else if c == 'H' then Zeros(t.hour, 2)
    else if c == 'I' then Zeros(Hour12(t.hour), 2)
    else if c == 'k' then Spaces(t.hour, 2)
    else if c == 'l' then Spaces(Hour12(t.hour), 2)
    else if c == 'm' then Zeros(t.month, 2)
    else if c == 'M' then Zeros(t.minute, 2)
    else if c == 'n' then "\n"
    else if c == 'r' then Emit(cal, 'I', t) + ":" + Emit(cal, 'M', t) + ":" + Emit(cal, 'S', t) + " " + Emit(cal, 'p', t)
    else if c == 'R' then Emit(cal, 'H', t) + ":" + Emit(cal, 'M', t)
    else if c == 'S' then Zeros(t.second, 2)
    else if c == 't' then "\t"
    else if c == 'T' then Emit(cal, 'H', t) + ":" + Emit(cal, 'M', t) + ":" + Emit(cal, 'S', t)
    else if c == 'z' then (if t.offset < 0 then "-" else "+") + Zeros(Abs(t.offset) / 3600, 2) + "00"
    else cal.show(c, t)
  }

  lemma SmallNumerals()
    ensures Zeros(0, 2) == "00" && Spaces(0, 2) == " 0" && Zeros(12, 2) == "12" && Spaces(12, 2) == "12"
  {
    assert Decimal(0) == "0" && Decimal(12) == "12";
    assert Repeat('0', 1) == "0" && Repeat(' ', 1) == " ";
  }

  /** %I and %l print the clock's hour exactly when it is not midnight; then they print 00 and a blank with 0. */
  lemma TwelveHourExactly(cal: Calendar, t: Time)
    requires t.hour < 24
    ensures Emit(cal, 'I', t) == Zeros(ClockHour(t.hour), 2) <==> t.hour != 0
    ensures Emit(cal, 'l', t) == Spaces(ClockHour(t.hour), 2) <==> t.hour != 0
    ensures t.hour == 0 ==> Emit(cal, 'I', t) == "00" && Emit(cal, 'l', t) == " 0"
  {
    Hour12Exactly(t.hour);
    if t.hour == 0 {
      SmallNumerals();
    }
  }

  /** strftimeFuncs */
  function SourceTable(cal: Calendar): Directives {
    Directives(IsDirective, (c, t) => Emit(cal, c, t))
  }

  /** "%%" is no directive: by the rule for unknown ones it prints a single '%'. */
  lemma PercentUnknown(cal: Calendar, t: Time)
    ensures !SourceTable(cal).known('%') && Interpret(SourceTable(cal), "%%", t) == "%"
  {
    var f := "%%";
    assert f[2..] == [];
  }

  /** One directive, one separating character, then the rest. */
  lemma One(d: Directives, c: char, rest: Bytes, t: Time)
    requires d.known(c) && (rest != [] ==> rest[0] != '%')
    ensures Interpret(d, ['%', c] + rest, t) == d.emit(c, t) + if rest == [] then [] else [rest[0]] + Interpret(d, rest[1..], t)
  {
    assert (['%', c] + rest)[2..] == rest;
  }

  /** Two directives with a separating character. */
  lemma TwoOf(d: Directives, a: char, x: char, b: char, t: Time)
    requires d.known(a) && d.known(b) && x != '%'
    ensures Interpret(d, ['%', a, x, '%', b], t) == d.emit(a, t) + [x] + d.emit(b, t)
  {
    One(d, a, [x, '%', b], t);
    One(d, b, [], t);
    assert ['%', a] + [x, '%', b] == ['%', a, x, '%', b];
    assert [x, '%', b][1..] == ['%', b] + [];
  }

  /** Three directives with separating characters. */
  lemma ThreeOf(d: Directives, a: char, x: char, b: char, y: char, c: char, t: Time)
    requires d.known(a) && d.known(b) && d.known(c) && x != '%' && y != '%'
    ensures Interpret(d, ['%', a, x, '%', b, y, '%', c], t) == d.emit(a, t) + [x] + d.emit(b, t) + [y] + d.emit(c, t)
  {
    One(d, a, [x, '%', b, y, '%', c], t);
    TwoOf(d, b, y, c, t);
    assert ['%', a] + [x, '%', b, y, '%', c] == ['%', a, x, '%', b, y, '%', c];
    assert [x, '%', b, y, '%', c][1..] == ['%', b, y, '%', c];
  }

  /** The composite directives abbreviate formats: %D, */
  lemma AbbreviatesDate(cal: Calendar, t: Time)
    ensures Emit(cal, 'D', t) == Interpret(SourceTable(cal), ['%', 'm', '/', '%', 'd', '/', '%', 'y'], t)
  {
    ThreeOf(SourceTable(cal), 'm', '/', 'd', '/', 'y', t);
  }

  /** %F, */
  lemma AbbreviatesISODate(cal: Calendar, t: Time)
    ensures Emit(cal, 'F', t) == Interpret(SourceTable(cal), ['%', 'Y', '-', '%', 'm', '-', '%', 'd'], t)
  {
    ThreeOf(SourceTable(cal), 'Y', '-', 'm', '-', 'd', t);
  }

  /** %R, */
  lemma AbbreviatesHourMinute(cal: Calendar, t: Time)
    ensures Emit(cal, 'R', t) == Interpret(SourceTable(cal), ['%', 'H', ':', '%', 'M'], t)
  {
    TwoOf(SourceTable(cal), 'H', ':', 'M', t);
  }

  /** %T */
  lemma AbbreviatesClock(cal: Calendar, t: Time)
    ensures Emit(cal, 'T', t) == Interpret(SourceTable(cal), ['%', 'H', ':', '%', 'M', ':', '%', 'S'], t)
  {
    ThreeOf(SourceTable(cal), 'H', ':', 'M', ':', 'S', t);
  }
}

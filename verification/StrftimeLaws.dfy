/** What the directives print, read back (pkg/util/strftime.go). */
module StrftimeLaws {
  import opened Prelude
  import opened Digits
  import opened Dates
  import opened Strftimes

  /** s is the canonical numeral of n, filled up with pad on the left to at least w places. */
  ghost predicate Numeral(s: Bytes, n: nat, w: nat, pad: char) {
    |s| >= w && exists k :: 0 <= k < |s| && NumeralFrom(s, k, n, w, pad)
  }

  ghost predicate NumeralFrom(s: Bytes, k: nat, n: nat, w: nat, pad: char)
    requires k < |s|
  {
    && (forall i :: 0 <= i < k ==> s[i] == pad) && (k > 0 ==> |s| == w)
    && AllDigits(s[k..]) && Parse(s[k..]) == n && (s[k] != '0' || k == |s| - 1)
  }

  lemma PaddedNumeral(n: nat, w: nat, pad: char)
    ensures Numeral(Padded(Decimal(n), w, pad), n, w, pad)
  {
    var s := Padded(Decimal(n), w, pad);
    PaddedMeaning(n, w, pad);
    DecimalCanonical(n);
    assert s[|s| - |Decimal(n)|] == Decimal(n)[0];
    assert NumeralFrom(s, |s| - |Decimal(n)|, n, w, pad);
  }

  /** The output of the format that consists of one directive. */
  function Prints(cal: Calendar, c: char, t: Time): Bytes {
    Interpret(SourceTable(cal), ['%', c], t)
  }

  lemma PrintsEmit(cal: Calendar, c: char, t: Time)
    ensures Prints(cal, c, t) == if IsDirective(c) then Emit(cal, c, t) else [c]
  {
    assert ['%', c][2..] == [];
    assert Interpret(SourceTable(cal), [], t) == [];
  }

  lemma PrintsNumeral(cal: Calendar, c: char, t: Time, n: nat, w: nat, pad: char)
    requires IsDirective(c) && Emit(cal, c, t) == Padded(Decimal(n), w, pad)
    ensures Numeral(Prints(cal, c, t), n, w, pad)
  {
    PrintsEmit(cal, c, t);
    PaddedNumeral(n, w, pad);
  }

  /** The numeric directives: the year, */
  lemma YearDirectives(cal: Calendar, t: Time)
    ensures Numeral(Prints(cal, 'C', t), t.year / 100, 2, '0')
    ensures Numeral(Prints(cal, 'y', t), t.year % 100, 2, '0') && Numeral(Prints(cal, 'g', t), t.year % 100, 2, '0')
    ensures Numeral(Prints(cal, 'Y', t), t.year, 4, '0') && Numeral(Prints(cal, 'G', t), t.year, 4, '0')
  {
    PrintsNumeral(cal, 'C', t, t.year / 100, 2, '0');
    PrintsNumeral(cal, 'y', t, t.year % 100, 2, '0');
    PrintsNumeral(cal, 'g', t, t.year % 100, 2, '0');
    PrintsNumeral(cal, 'Y', t, t.year, 4, '0');
    PrintsNumeral(cal, 'G', t, t.year, 4, '0');
  }

  /** month and day, */
  lemma DayDirectives(cal: Calendar, t: Time)
    ensures Numeral(Prints(cal, 'm', t), t.month, 2, '0')
    ensures Numeral(Prints(cal, 'd', t), t.day, 2, '0') && Numeral(Prints(cal, 'e', t), t.day, 2, ' ')
  {
    PrintsNumeral(cal, 'm', t, t.month, 2, '0');
    PrintsNumeral(cal, 'd', t, t.day, 2, '0');
    PrintsNumeral(cal, 'e', t, t.day, 2, ' ');
  }

  /** the clock, */
  lemma ClockDirectives(cal: Calendar, t: Time)
    ensures Numeral(Prints(cal, 'H', t), t.hour, 2, '0') && Numeral(Prints(cal, 'k', t), t.hour, 2, ' ')
    ensures Numeral(Prints(cal, 'M', t), t.minute, 2, '0') && Numeral(Prints(cal, 'S', t), t.second, 2, '0')
  {
    PrintsNumeral(cal, 'H', t, t.hour, 2, '0');
    PrintsNumeral(cal, 'k', t, t.hour, 2, ' ');
    PrintsNumeral(cal, 'M', t, t.minute, 2, '0');
    PrintsNumeral(cal, 'S', t, t.second, 2, '0');
  }

  /** and the 12-hour clock, which is right but at midnight. */
  lemma HalfDayDirectives(cal: Calendar, t: Time)
    requires t.hour < 24
    ensures var h := if t.hour > 12 then t.hour - 12 else t.hour;
            Numeral(Prints(cal, 'I', t), h, 2, '0') && Numeral(Prints(cal, 'l', t), h, 2, ' ')
  {
    PrintsNumeral(cal, 'I', t, Hour12(t.hour), 2, '0');
    PrintsNumeral(cal, 'l', t, Hour12(t.hour), 2, ' ');
  }

  /** The zone is printed as its sign, its whole hours and 00. */
  lemma ZoneDirective(cal: Calendar, t: Time)
    ensures var seconds := if t.offset < 0 then -t.offset else t.offset;
            exists hours :: Numeral(hours, seconds / 3600, 2, '0')
                            && Prints(cal, 'z', t) == (if t.offset < 0 then "-" else "+") + hours + "00"
  {
    PrintsEmit(cal, 'z', t);
    PaddedNumeral(Abs(t.offset) / 3600, 2, '0');
    var hours := Zeros(Abs(t.offset) / 3600, 2);
    assert Emit(cal, 'z', t) == (if t.offset < 0 then "-" else "+") + hours + "00";
  }

  /** Line break and TAB. */
  lemma BlankDirectives(cal: Calendar, t: Time)
    ensures Prints(cal, 'n', t) == "\n" && Prints(cal, 't', t) == "\t"
  {
    PrintsEmit(cal, 'n', t);
    PrintsEmit(cal, 't', t);
  }

  /** The letters of the directives left to the time library. */
  predicate OfCalendar(c: char) {
    || c == 'a' || c == 'A' || c == 'b' || c == 'B' || c == 'c' || c == 'h' || c == 'j' || c == 'p' || c == 'P'
    || c == 's' || c == 'u' || c == 'U' || c == 'V' || c == 'w' || c == 'W' || c == 'x' || c == 'X' || c == 'Z'
  }

  lemma CalendarDirectives(cal: Calendar, t: Time, c: char)
    requires OfCalendar(c)
    ensures Prints(cal, c, t) == cal.show(c, t)
  {
    PrintsEmit(cal, c, t);
  }

  /** The letters that are no directives. */
  predicate FreeLetter(c: char) {
    || c == 'f' || c == 'i' || c == 'o' || c == 'q' || c == 'v'
    || c == 'E' || c == 'J' || c == 'K' || c == 'L' || c == 'N' || c == 'O' || c == 'Q'
  }

  /** They and all other characters stand for themselves. */
  lemma OtherCharacters(cal: Calendar, t: Time, c: char)
    requires FreeLetter(c) || !('a' <= c <= 'z' || 'A' <= c <= 'Z')
    ensures Prints(cal, c, t) == [c]
  {
    PrintsEmit(cal, c, t);
  }

  /** Two and four places hold the same digits as in a printed RFC 3339 time. */
  lemma TwoZeros(n: nat)
    requires n < 100
    ensures Zeros(n, 2) == Uint2(n)
  {
    assert Pow10(2) == 10 * Pow10(1) && Pow10(1) == 10 * Pow10(0);
    DecimalLength(n, 2);
    LowIsPadded(n, 2);
    Uint2Small(n);
  }

  lemma FourZeros(n: nat)
    requires n < 10000
    ensures Zeros(n, 4) == Uint4(n)
  {
    assert Pow10(4) == 10 * Pow10(3) && Pow10(3) == 10 * Pow10(2) && Pow10(2) == 10 * Pow10(1) && Pow10(1) == 10 * Pow10(0);
    DecimalLength(n, 4);
    LowIsPadded(n, 4);
    Uint4Small(n);
  }

  lemma DatePrinted(cal: Calendar, t: Time)
    requires ValidTime(t)
    ensures Interpret(SourceTable(cal), "%Y-%m-%d", t) == ISODate(t)
  {
    ThreeOf(SourceTable(cal), 'Y', '-', 'm', '-', 'd', t);
    assert "%Y-%m-%d" == ['%', 'Y', '-', '%', 'm', '-', '%', 'd'];
    FourZeros(t.year);
    TwoZeros(t.month);
    TwoZeros(t.day);
  }

  lemma ClockPrinted(cal: Calendar, t: Time)
    requires ValidTime(t)
    ensures Interpret(SourceTable(cal), "%H:%M:%S", t) == ISOClock(t)
  {
    ThreeOf(SourceTable(cal), 'H', ':', 'M', ':', 'S', t);
    assert "%H:%M:%S" == ['%', 'H', ':', '%', 'M', ':', '%', 'S'];
    TwoZeros(t.hour);
    TwoZeros(t.minute);
    TwoZeros(t.second);
  }

  lemma NothingWaits()
    ensures !Pending("%Y-%m-%d") && !Pending("%H:%M:%S")
  {
    assert "%Y-%m-%d"[2..] == "-%m-%d" && "-%m-%d"[1..] == "%m-%d" && "%m-%d"[2..] == "-%d" && "-%d"[1..] == "%d" && "%d"[2..] == [];
    assert "%H:%M:%S"[2..] == ":%M:%S" && ":%M:%S"[1..] == "%M:%S" && "%M:%S"[2..] == ":%S" && ":%S"[1..] == "%S" && "%S"[2..] == [];
  }

  /** A format between plain characters. */
  lemma Between(d: Directives, a: Bytes, x: char, b: Bytes, y: char, t: Time)
    requires !Pending(a) && !Pending(b) && x != '%' && y != '%'
    ensures Interpret(d, a + ([x] + (b + [y])), t) == Interpret(d, a, t) + ([x] + (Interpret(d, b, t) + [y]))
  {
    InterpretSplits(d, a, [x] + (b + [y]), t);
    assert ([x] + (b + [y]))[1..] == b + [y];
    InterpretSplits(d, b, [y], t);
    assert [y][1..] == [] && Interpret(d, [y], t) == [y];
  }

  lemma FormatParts()
    ensures "%Y-%m-%dT%H:%M:%SZ" == "%Y-%m-%d" + (['T'] + ("%H:%M:%S" + ['Z']))
  {
  }

  lemma FormatIsISO(cal: Calendar, t: Time)
    requires ValidTime(t)
    ensures Interpret(SourceTable(cal), "%Y-%m-%dT%H:%M:%SZ", t) == ISODate(t) + ("T" + (ISOClock(t) + "Z"))
  {
    DatePrinted(cal, t);
    ClockPrinted(cal, t);
    NothingWaits();
    Between(SourceTable(cal), "%Y-%m-%d", 'T', "%H:%M:%S", 'Z', t);
    FormatParts();
  }

  /** Date and clock parse back by section 5.6 of RFC 3339. */
  lemma FormatParses(cal: Calendar, t: Time)
    requires ValidTime(t)
    ensures ParseISO(Interpret(SourceTable(cal), "%Y-%m-%dT%H:%M:%SZ", t)) == Some(t.(offset := 0))
  {
    var u := t.(offset := 0);
    FormatIsISO(cal, t);
    assert ISOTime(u) == ISODate(t) + ("T" + (ISOClock(t) + "Z"));
    ISORoundTrip(u);
  }

  /** %r is the 12-hour clock with the half of the day. */
  lemma AbbreviatesHalfDay(cal: Calendar, t: Time)
    ensures Prints(cal, 'r', t) == Interpret(SourceTable(cal), "%I:%M:%S", t) + " " + cal.show('p', t)
  {
    PrintsEmit(cal, 'r', t);
    ThreeOf(SourceTable(cal), 'I', ':', 'M', ':', 'S', t);
    assert "%I:%M:%S" == ['%', 'I', ':', '%', 'M', ':', '%', 'S'];
    assert Emit(cal, 'p', t) == cal.show('p', t);
  }
}

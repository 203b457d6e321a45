/** The access log's date printers (pkg/logger/accesslog/json.go and ncsa.go) and parsers that invert them. */
module Dates {
  import opened Arithmetic
  import opened Prelude
  import opened Digits

  /** A broken-down time and its zone offset in seconds. */
  datatype Time = Time(year: nat, month: nat, day: nat, hour: nat, minute: nat, second: nat, offset: int)

  predicate ValidTime(t: Time) {
    && t.year <= 9999 && 1 <= t.month <= 12 && 1 <= t.day <= 31
    && t.hour < 24 && t.minute < 60 && t.second < 60
    && -86400 < t.offset < 86400
  }

  function Abs(n: int): nat {
    if n < 0 then -n else n
  }

  /** The offset cut to whole units, towards zero. */
  function CutTo(offset: int, unit: nat): int
    requires unit > 0
  {
    if offset < 0 then -(Abs(offset) / unit * unit) else offset / unit * unit
  }

  function Two(n: nat): Bytes {
    Low(n, 2)
  }

  /** A Go byte holds n modulo 256. */
  function Byte(n: nat): char {
    (n % 256) as char
  }

  /** What appendUint2 prints: two digits below 100, and some byte in front of the last digit from there on. */
  function Uint2(n: nat): Bytes {
    [Byte('0' as nat + n / 10), Digit(n % 10)]
  }

  /** What appendUint4 prints. */
  function Uint4(n: nat): Bytes {
    [Byte('0' as nat + n / 1000), Digit(n / 100 % 10), Digit(n / 10 % 10), Digit(n % 10)]
  }

  lemma Uint2Small(n: nat)
    requires n < 100
    ensures Uint2(n) == Two(n)
  {
    assert Low(n / 10, 1) == Low(n / 10 / 10, 0) + [Digit(n / 10 % 10)];
  }

  lemma Uint4Small(n: nat)
    requires n < 10000
    ensures Uint4(n) == Low(n, 4)
  {
    assert n / 1000 == n / 10 / 10 / 10 && n / 100 == n / 10 / 10;
    assert Low(n / 10 / 10 / 10, 1) == [Digit(n / 1000)];
    assert Low(n / 10 / 10, 2) == [Digit(n / 1000), Digit(n / 100 % 10)];
    assert Low(n / 10, 3) == [Digit(n / 1000), Digit(n / 100 % 10), Digit(n / 10 % 10)];
  }

  /** appendUint2: two digits for every number that has at most two. */
  method AppendUint2(dst: Bytes, n: nat) returns (r: Bytes)
    ensures r == dst + Uint2(n)
    ensures n < 100 ==> r == dst + Two(n)
  {
    r := dst + [Byte('0' as nat + n / 10), Digit(n % 10)];
    if n < 100 {
      Uint2Small(n);
    }
  }

  /** appendUint4: four digits for every number that has at most four. */
  method AppendUint4(dst: Bytes, n: nat) returns (r: Bytes)
    ensures r == dst + Uint4(n)
    ensures n < 10000 ==> r == dst + Low(n, 4)
  {
    r := dst + [Byte('0' as nat + n / 1000), Digit(n / 100 % 10), Digit(n / 10 % 10), Digit(n % 10)];
    if n < 10000 {
      Uint4Small(n);
    }
  }

  /** Beyond two and four digits: the first byte wraps round, the last digits stay. */
  lemma UintsBeyond(n: nat)
    ensures |Uint2(n)| == 2 && Uint2(n)[0] as int == (48 + n / 10) % 256 && Uint2(n)[1] as int == 48 + n % 10
    ensures |Uint4(n)| == 4 && Uint4(n)[0] as int == (48 + n / 1000) % 256
    ensures Uint4(n)[1] as int == 48 + n / 100 % 10 && Uint4(n)[2] as int == 48 + n / 10 % 10 && Uint4(n)[3] as int == 48 + n % 10
  {
  }

  // ----- RFC 3339 -----

  function ISODate(t: Time): Bytes {
    Uint4(t.year) + "-" + Uint2(t.month) + "-" + Uint2(t.day)
  }

  function ISOClock(t: Time): Bytes {
    Uint2(t.hour) + ":" + Uint2(t.minute) + ":" + Uint2(t.second)
  }

  function ISOOffset(offset: int): Bytes {
    if offset == 0 then "Z"
    else (if offset < 0 then "-" else "+") + Uint2(Abs(offset) / 3600) + ":" + Uint2(Abs(offset) % 3600 / 60)
  }

  function ISOTime(t: Time): Bytes {
    ISODate(t) + "T" + ISOClock(t) + ISOOffset(t.offset)
  }

  method AppendISOClock(dst0: Bytes, t: Time) returns (dst: Bytes)
    ensures dst == dst0 + ISOClock(t)
  {
    dst := AppendUint2(dst0, t.hour);
    dst := dst + ":";
    dst := AppendUint2(dst, t.minute);
    dst := dst + ":";
    dst := AppendUint2(dst, t.second);
  }

  method AppendISODate(dst0: Bytes, t: Time) returns (dst: Bytes)
    ensures dst == dst0 + ISODate(t)
  {
    dst := AppendUint4(dst0, t.year);
    dst := dst + "-";
    dst := AppendUint2(dst, t.month);
    dst := dst + "-";
    dst := AppendUint2(dst, t.day);
  }

  /** appendISOTime */
  method AppendISOTime(dst0: Bytes, t: Time) returns (dst: Bytes)
    ensures dst == dst0 + ISOTime(t)
  {
    dst := AppendISODate(dst0, t);
    dst := dst + "T";
    dst := AppendISOClock(dst, t);
    dst := AppendISOOffset(dst, t.offset);
    Associate(dst0, ISODate(t), "T", ISOClock(t), ISOOffset(t.offset));
  }

  lemma Associate(a: Bytes, b: Bytes, c: Bytes, d: Bytes, e: Bytes)
    ensures a + b + c + d + e == a + (b + c + d + e)
    ensures b + c + d + e == b + (c + d + e)
  {
  }

  method AppendISOOffset(dst0: Bytes, offset: int) returns (dst: Bytes)
    ensures dst == dst0 + ISOOffset(offset)
  {
    dst := dst0;
    var offsetSec := offset;
    if offsetSec == 0 {
      return dst + "Z";
    }
    if offsetSec < 0 {
      dst := dst + "-";
      offsetSec := -offsetSec;
    } else {
      dst := dst + "+";
    }
    dst := AppendUint2(dst, offsetSec / 3600);
    dst := dst + ":";
    dst := AppendUint2(dst, offsetSec % 3600 / 60);
  }

  /** Two digits at position i. */
  predicate TwoAt(s: Bytes, i: nat) {
    i + 2 <= |s| && IsDigit(s[i]) && IsDigit(s[i + 1])
  }

  function ReadTwo(s: Bytes, i: nat): nat
    requires TwoAt(s, i)
  {
    10 * ValueOf(s[i]) + ValueOf(s[i + 1])
  }

  /** Section 5.6 of RFC 3339, without fractional seconds: full-date "T" partial-time time-offset. */
  function ParseISO(s: Bytes): Option<Time> {
    if |s| < 20 || !(TwoAt(s, 0) && TwoAt(s, 2) && TwoAt(s, 5) && TwoAt(s, 8) && TwoAt(s, 11) && TwoAt(s, 14) && TwoAt(s, 17))
       || s[4] != '-' || s[7] != '-' || s[10] != 'T' || s[13] != ':' || s[16] != ':' then None
    else
      var zone := ParseISOOffset(s[19..]);
      if zone.None? then None
      else
        var t := Time(100 * ReadTwo(s, 0) + ReadTwo(s, 2), ReadTwo(s, 5), ReadTwo(s, 8), ReadTwo(s, 11), ReadTwo(s, 14),
                      ReadTwo(s, 17), zone.value);
        if ValidTime(t) then Some(t) else None
  }

  function ParseISOOffset(s: Bytes): Option<int> {
    if s == "Z" then Some(0)
    else if |s| == 6 && (s[0] == '+' || s[0] == '-') && TwoAt(s, 1) && s[3] == ':' && TwoAt(s, 4)
            && ReadTwo(s, 1) < 24 && ReadTwo(s, 4) < 60 then
      var d := 3600 * ReadTwo(s, 1) + 60 * ReadTwo(s, 4);
      Some(if s[0] == '-' then -d else d)
    else None
  }

  lemma TwoDigits(n: nat)
    requires n < 100
    ensures Two(n) == [Digit(n / 10), Digit(n % 10)]
    ensures ValueOf(Digit(n / 10)) == n / 10 && ValueOf(Digit(n % 10)) == n % 10
  {
    assert Low(n / 10, 1) == Low(n / 10 / 10, 0) + [Digit(n / 10 % 10)];
  }

  lemma FourDigits(n: nat)
    requires n < 10000
    ensures Low(n, 4) == Two(n / 100) + Two(n % 100)
  {
    TwoDigits(n / 100);
    TwoDigits(n % 100);
    assert n / 100 == n / 10 / 10 && n / 1000 == n / 10 / 10 / 10 && n % 100 / 10 == n / 10 % 10;
    assert Low(n / 10 / 10, 2) == Two(n / 100);
    assert Low(n / 10, 3) == Two(n / 100) + [Digit(n / 10 % 10)];
  }

  /** Reading two printed digits back, wherever they stand. */
  lemma TwoReadBack(s: Bytes, i: nat, n: nat)
    requires n < 100 && i + 2 <= |s| && s[i..i + 2] == Two(n)
    ensures TwoAt(s, i) && ReadTwo(s, i) == n
  {
    TwoDigits(n);
    assert s[i] == s[i..i + 2][0] && s[i + 1] == s[i..i + 2][1];
  }

  lemma OffsetReadBack(offset: int)
    requires -86400 < offset < 86400
    ensures ParseISOOffset(ISOOffset(offset)) == Some(CutTo(offset, 60))
    ensures |ISOOffset(offset)| == if offset == 0 then 1 else 6
  {
    if offset != 0 {
      var s, a := ISOOffset(offset), Abs(offset);
      Uint2Small(a / 3600);
      Uint2Small(a % 3600 / 60);
      TwoReadBack(s, 1, a / 3600);
      TwoReadBack(s, 4, a % 3600 / 60);
      assert 3600 * (a / 3600) + 60 * (a % 3600 / 60) == a / 60 * 60;
    }
  }

  /** Where the fields of a printed date stand. */
  lemma ISODateLayout(t: Time, tail: Bytes)
    requires ValidTime(t)
    ensures var s := ISODate(t) + tail;
            && |ISODate(t)| == 10 && s[4] == '-' && s[7] == '-'
            && TwoAt(s, 0) && TwoAt(s, 2) && TwoAt(s, 5) && TwoAt(s, 8)
            && 100 * ReadTwo(s, 0) + ReadTwo(s, 2) == t.year && ReadTwo(s, 5) == t.month && ReadTwo(s, 8) == t.day
  {
    var s := ISODate(t) + tail;
    Uint4Small(t.year);
    Uint2Small(t.month);
    Uint2Small(t.day);
    FourDigits(t.year);
    assert s[0..2] == Two(t.year / 100) && s[2..4] == Two(t.year % 100) && s[5..7] == Two(t.month) && s[8..10] == Two(t.day);
    TwoReadBack(s, 0, t.year / 100);
    TwoReadBack(s, 2, t.year % 100);
    TwoReadBack(s, 5, t.month);
    TwoReadBack(s, 8, t.day);
  }

  lemma ISOClockLayout(head: Bytes, t: Time, tail: Bytes)
    requires ValidTime(t) && |head| == 11
    ensures var s := head + ISOClock(t) + tail;
            && |ISOClock(t)| == 8 && s[13] == ':' && s[16] == ':' && s[19..] == tail
            && TwoAt(s, 11) && TwoAt(s, 14) && TwoAt(s, 17)
            && ReadTwo(s, 11) == t.hour && ReadTwo(s, 14) == t.minute && ReadTwo(s, 17) == t.second
  {
    var s := head + ISOClock(t) + tail;
    Uint2Small(t.hour);
    Uint2Small(t.minute);
    Uint2Small(t.second);
    assert s[11..13] == Two(t.hour) && s[14..16] == Two(t.minute) && s[17..19] == Two(t.second);
    TwoReadBack(s, 11, t.hour);
    TwoReadBack(s, 14, t.minute);
    TwoReadBack(s, 17, t.second);
  }

  /** s shows the fields of t in the places where ParseISO looks for them. */
  predicate ShowsISO(s: Bytes, t: Time) {
    && |s| >= 20 && s[4] == '-' && s[7] == '-' && s[10] == 'T' && s[13] == ':' && s[16] == ':'
    && TwoAt(s, 0) && TwoAt(s, 2) && TwoAt(s, 5) && TwoAt(s, 8) && TwoAt(s, 11) && TwoAt(s, 14) && TwoAt(s, 17)
    && 100 * ReadTwo(s, 0) + ReadTwo(s, 2) == t.year && ReadTwo(s, 5) == t.month && ReadTwo(s, 8) == t.day
    && ReadTwo(s, 11) == t.hour && ReadTwo(s, 14) == t.minute && ReadTwo(s, 17) == t.second
    && ParseISOOffset(s[19..]) == Some(t.offset)
  }

  lemma ISOLayout(t: Time)
    requires ValidTime(t)
    ensures |ISOTime(t)| == if t.offset == 0 then 20 else 25
    ensures ShowsISO(ISOTime(t), t.(offset := CutTo(t.offset, 60)))
  {
    OffsetReadBack(t.offset);
    ISODateLayout(t, "T" + ISOClock(t) + ISOOffset(t.offset));
    ISOClockLayout(ISODate(t) + "T", t, ISOOffset(t.offset));
    Associate([], ISODate(t), "T", ISOClock(t), ISOOffset(t.offset));
  }

  lemma ShownIsParsed(s: Bytes, t: Time)
    requires ShowsISO(s, t) && ValidTime(t)
    ensures ParseISO(s) == Some(t)
  {
  }

  lemma CutIsSmaller(offset: int, unit: nat)
    requires unit > 0
    ensures Abs(CutTo(offset, unit)) <= Abs(offset)
  {
    var a := Abs(offset);
    assert a == unit * (a / unit) + a % unit;
  }

  /**
   * For years 0 to 9999 a printed time takes 20 or 25 bytes, and parsing it gives back every field, with the offset cut
   * to whole minutes.
   */
  lemma ISORoundTrip(t: Time)
    requires ValidTime(t)
    ensures |ISOTime(t)| == if t.offset == 0 then 20 else 25
    ensures ParseISO(ISOTime(t)) == Some(t.(offset := CutTo(t.offset, 60)))
  {
    ISOLayout(t);
    CutIsSmaller(t.offset, 60);
    ShownIsParsed(ISOTime(t), t.(offset := CutTo(t.offset, 60)));
  }

  /** So the round trip is exact precisely for whole-minute offsets. */
  lemma ISOExactForWholeMinutes(t: Time)
    requires ValidTime(t)
    ensures ParseISO(ISOTime(t)) == Some(t) <==> t.offset % 60 == 0
  {
    ISORoundTrip(t);
    CutExact(t.offset, 60);
  }

  lemma CutExact(offset: int, unit: nat)
    requires unit > 0
    ensures CutTo(offset, unit) == offset <==> offset % unit == 0
  {
    var a := Abs(offset);
    assert a == unit * (a / unit) + a % unit;
    NegatedRemainder(offset, unit);
  }

  lemma NegatedRemainder(x: int, n: nat)
    requires n > 0
    ensures x % n == 0 <==> Abs(x) % n == 0
  {
    assert x == n * (x / n) + x % n;
    if x < 0 {
      if x % n == 0 {
        ModUnique(-x, n, -(x / n), 0);
      } else {
        ModUnique(-x, n, -(x / n) - 1, n - x % n);
      }
    }
  }

  // ----- NCSA common log format -----

  const MONTHS := "JanFebMarAprMayJunJulAugSepOctNovDec"

  function MonthName(m: nat): (s: Bytes)
    requires 1 <= m <= 12
    ensures |s| == 3
  {
    MONTHS[3 * (m - 1)..3 * (m - 1) + 3]
  }

  function NCSADay(t: Time): Bytes
    requires 1 <= t.month <= 12
  {
    "[" + Two(t.day) + "/" + MonthName(t.month) + "/" + Low(t.year, 4)
  }

  function NCSAClock(t: Time): Bytes {
    ":" + Two(t.hour) + ":" + Two(t.minute) + ":" + Two(t.second) + " "
  }

  function NCSAZone(offset: int): Bytes {
    (if offset < 0 then "-" else "+") + Two(Abs(offset) / 3600) + "00]"
  }

  function NCSADate(t: Time): Bytes
    requires 1 <= t.month <= 12
  {
    NCSADay(t) + NCSAClock(t) + NCSAZone(t.offset)
  }

  /** Fills the field between head and tail, which is pre-filled with zeros but for its last place. */
  method PutField(b: array<char>, lo: nat, hi: nat, n: nat, ghost head: Bytes, ghost tail: Bytes)
    requires lo < hi <= b.Length && |head| == lo && |tail| == b.Length - hi
    requires b[..] == head + (Repeat('0', hi - lo - 1) + "\0") + tail
    modifies b
    ensures b[..] == head + Low(n, hi - lo) + tail
  {
    ghost var before := b[..];
    var off := CopyRightUint(b, lo, hi, n);
    FittedIsNumeral(n, hi - lo);
    assert b[..] == before[..off] + Fitted(n, hi - lo) + before[hi..];
    assert |Fitted(n, hi - lo)| == hi - off;
    assert before[hi..] == tail;
    if off > lo {
      LowIsPadded(n, hi - lo);
      assert before[..off] == head + Repeat('0', off - lo);
    } else {
      assert before[..off] == head;
    }
  }

  lemma FittedIsNumeral(n: nat, w: nat)
    requires w > 0
    ensures 0 < |Fitted(n, w)| <= w
    ensures |Fitted(n, w)| < w ==> Fitted(n, w) == Decimal(n)
    ensures |Fitted(n, w)| == w ==> Fitted(n, w) == Low(n, w)
  {
    if |Decimal(n)| <= w {
      LowIsPadded(n, w);
    }
  }

  const F2: Bytes := "0\0"
  const CLOCK: Bytes := ":" + F2 + ":" + F2 + ":" + F2 + " "
  const ZONE: Bytes := "\0" + F2 + "00]"
  const TEMPLATE: Bytes := "[" + F2 + "/\0\0\0/000\0" + CLOCK + ZONE

  /** appendNCSADate: a 28-byte template whose fields are filled in place. */
  method AppendNCSADate(dst: Bytes, t: Time) returns (r: Bytes)
    requires 1 <= t.month <= 12
    ensures r == dst + NCSADate(t)
  {
    assert |CLOCK| == 10 && |ZONE| == 6 && |TEMPLATE| == 28;
    var b := new char[28](i requires 0 <= i < 28 => TEMPLATE[i]);
    assert b[..] == TEMPLATE;
    FillDay(b, t, CLOCK + ZONE);
    FillClock(b, t, NCSADay(t), ZONE);
    FillZone(b, t.offset, NCSADay(t) + NCSAClock(t));
    r := dst + b[..];
  }

  method FillDay(b: array<char>, t: Time, ghost tail: Bytes)
    requires 1 <= t.month <= 12 && b.Length == 28 && |tail| == 16 && b[..] == "[" + F2 + "/\0\0\0/000\0" + tail
    modifies b
    ensures b[..] == NCSADay(t) + tail && |NCSADay(t)| == 12
  {
    ZeroField(2);
    ZeroField(4);
    assert b[..] == "[" + F2 + ("/\0\0\0/000\0" + tail);
    PutField(b, 1, 3, t.day, "[", "/\0\0\0/000\0" + tail);
    ghost var head := "[" + Two(t.day) + "/";
    assert b[..] == head + "\0\0\0" + ("/000\0" + tail);
    FillMonth(b, t.month, head, "/000\0" + tail);
    head := head + MonthName(t.month) + "/";
    assert b[..] == head + "000\0" + tail;
    PutField(b, 8, 12, t.year, head, tail);
  }

  method FillMonth(b: array<char>, month: nat, ghost head: Bytes, ghost tail: Bytes)
    requires 1 <= month <= 12 && |head| == 4 && b[..] == head + "\0\0\0" + tail
    modifies b
    ensures b[..] == head + MonthName(month) + tail
  {
    var name := MonthName(month);
    b[4] := name[0];
    b[5] := name[1];
    b[6] := name[2];
    assert b[4..7] == name;
  }

  lemma ZeroField(w: nat)
    ensures w == 2 ==> Repeat('0', w - 1) + "\0" == F2
    ensures w == 4 ==> Repeat('0', w - 1) + "\0" == "000\0"
  {
  }

  method FillClock(b: array<char>, t: Time, ghost head: Bytes, ghost tail: Bytes)
    requires b.Length == 28 && |head| == 12 && |tail| == 6 && b[..] == head + CLOCK + tail
    modifies b
    ensures b[..] == head + NCSAClock(t) + tail
  {
    ZeroField(2);
    ghost var h := head + ":";
    assert b[..] == h + F2 + (":" + F2 + ":" + F2 + " " + tail);
    PutField(b, 13, 15, t.hour, h, ":" + F2 + ":" + F2 + " " + tail);
    h := h + Two(t.hour) + ":";
    assert b[..] == h + F2 + (":" + F2 + " " + tail);
    PutField(b, 16, 18, t.minute, h, ":" + F2 + " " + tail);
    h := h + Two(t.minute) + ":";
    assert b[..] == h + F2 + (" " + tail);
    PutField(b, 19, 21, t.second, h, " " + tail);
    assert h == head + (":" + Two(t.hour) + ":" + Two(t.minute) + ":");
  }

  method FillZone(b: array<char>, offset: int, ghost head: Bytes)
    requires b.Length == 28 && |head| == 22 && b[..] == head + ZONE
    modifies b
    ensures b[..] == head + NCSAZone(offset)
  {
    ZeroField(2);
    b[22] := if offset < 0 then '-' else '+';
    ghost var h := head + [b[22]];
    assert b[..] == h + F2 + "00]";
    PutField(b, 23, 25, Abs(offset) / 3600, h, "00]");
  }

  /** The number of a month name; 0 when s is none. */
  function MonthNumber(s: Bytes, m: nat): nat
    requires m <= 12
    decreases 12 - m
  {
    if m == 0 then MonthNumber(s, 1)
    else if s == MonthName(m) then m
    else if m == 12 then 0
    else MonthNumber(s, m + 1)
  }

  function ParseNCSA(s: Bytes): Option<Time> {
    if |s| != 28 || !(TwoAt(s, 1) && TwoAt(s, 8) && TwoAt(s, 10) && TwoAt(s, 13) && TwoAt(s, 16) && TwoAt(s, 19) && TwoAt(s, 23))
       || s[0] != '[' || s[3] != '/' || s[7] != '/' || s[12] != ':' || s[15] != ':' || s[18] != ':' || s[21] != ' '
       || s[25..] != "00]" || (s[22] != '+' && s[22] != '-') then None
    else
      var h := 3600 * ReadTwo(s, 23);
      var t := Time(100 * ReadTwo(s, 8) + ReadTwo(s, 10), MonthNumber(s[4..7], 1), ReadTwo(s, 1), ReadTwo(s, 13),
                    ReadTwo(s, 16), ReadTwo(s, 19), if s[22] == '-' then -h else h);
      if ValidTime(t) then Some(t) else None
  }

  lemma MonthReadBack(m: nat)
    requires 1 <= m <= 12
    ensures MonthNumber(MonthName(m), 1) == m
  {
    MonthReadFrom(m, 1);
  }

  lemma {:induction false} MonthReadFrom(m: nat, k: nat)
    requires 1 <= k <= m <= 12
    ensures MonthNumber(MonthName(m), k) == m
    decreases m - k
  {
    if k < m {
      MonthNamesDiffer(k, m);
      MonthReadFrom(m, k + 1);
      MonthSkipped(MonthName(m), k);
    }
  }

  lemma MonthSkipped(s: Bytes, k: nat)
    requires 1 <= k < 12 && s != MonthName(k)
    ensures MonthNumber(s, k) == MonthNumber(s, k + 1)
  {
  }

  /** Second and third letter; they tell the months apart. */
  function Letters(m: nat): (char, char)
    requires 1 <= m <= 12
  {
    if m == 1 then ('a', 'n') else if m == 2 then ('e', 'b') else if m == 3 then ('a', 'r')
    else if m == 4 then ('p', 'r') else if m == 5 then ('a', 'y') else if m == 6 then ('u', 'n')
    else if m == 7 then ('u', 'l') else if m == 8 then ('u', 'g') else if m == 9 then ('e', 'p')
    else if m == 10 then ('c', 't') else if m == 11 then ('o', 'v') else ('e', 'c')
  }

  lemma MonthLetters(m: nat)
    requires 1 <= m <= 12
    ensures MonthName(m)[1] == Letters(m).0 && MonthName(m)[2] == Letters(m).1
  {
    assert MonthName(m)[1] == MONTHS[3 * m - 2] && MonthName(m)[2] == MONTHS[3 * m - 1];
    if m <= 6 {
      EarlyLetters(m);
    } else {
      LateLetters(m);
    }
  }

  lemma EarlyLetters(m: nat)
    requires 1 <= m <= 6
    ensures MONTHS[3 * m - 2] == Letters(m).0 && MONTHS[3 * m - 1] == Letters(m).1
  {
    assert MONTHS[1] == 'a' && MONTHS[2] == 'n' && MONTHS[4] == 'e' && MONTHS[5] == 'b' && MONTHS[7] == 'a' && MONTHS[8] == 'r';
    assert MONTHS[10] == 'p' && MONTHS[11] == 'r' && MONTHS[13] == 'a' && MONTHS[14] == 'y' && MONTHS[16] == 'u' && MONTHS[17] == 'n';
  }

  lemma LateLetters(m: nat)
    requires 7 <= m <= 12
    ensures MONTHS[3 * m - 2] == Letters(m).0 && MONTHS[3 * m - 1] == Letters(m).1
  {
    assert MONTHS[19] == 'u' && MONTHS[20] == 'l' && MONTHS[22] == 'u' && MONTHS[23] == 'g' && MONTHS[25] == 'e' && MONTHS[26] == 'p';
    assert MONTHS[28] == 'c' && MONTHS[29] == 't' && MONTHS[31] == 'o' && MONTHS[32] == 'v' && MONTHS[34] == 'e' && MONTHS[35] == 'c';
  }

  /** The months' names. */
  function English(m: nat): Bytes
    requires 1 <= m <= 12
  {
    if m == 1 then "Jan" else if m == 2 then "Feb" else if m == 3 then "Mar" else if m == 4 then "Apr"
    else if m == 5 then "May" else if m == 6 then "Jun" else if m == 7 then "Jul" else if m == 8 then "Aug"
    else if m == 9 then "Sep" else if m == 10 then "Oct" else if m == 11 then "Nov" else "Dec"
  }

  lemma FirstLetters(m: nat)
    requires 1 <= m <= 12
    ensures MONTHS[3 * m - 3] == English(m)[0]
  {
    assert MONTHS[0] == 'J' && MONTHS[3] == 'F' && MONTHS[6] == 'M' && MONTHS[9] == 'A' && MONTHS[12] == 'M' && MONTHS[15] == 'J';
    assert MONTHS[18] == 'J' && MONTHS[21] == 'A' && MONTHS[24] == 'S' && MONTHS[27] == 'O' && MONTHS[30] == 'N' && MONTHS[33] == 'D';
  }

  /** The common log date names the month in English. */
  lemma NCSAMonth(t: Time)
    requires ValidTime(t)
    ensures |NCSADate(t)| == 28 && NCSADate(t)[4..7] == English(t.month)
  {
    var m := t.month;
    FirstLetters(m);
    MonthLetters(m);
    LettersOfName(m);
    assert MonthName(m)[0] == MONTHS[3 * m - 3];
    assert MonthName(m) == [MonthName(m)[0], MonthName(m)[1], MonthName(m)[2]];
    NCSADayLayout(t, NCSAClock(t) + NCSAZone(t.offset));
    NCSALength(t);
    assert NCSADate(t) == NCSADay(t) + (NCSAClock(t) + NCSAZone(t.offset));
  }

  lemma LettersOfName(m: nat)
    requires 1 <= m <= 12
    ensures |English(m)| == 3 && English(m) == [English(m)[0], Letters(m).0, Letters(m).1]
  {
  }

  lemma MonthNamesDiffer(k: nat, m: nat)
    requires 1 <= k < m <= 12
    ensures MonthName(k) != MonthName(m)
  {
    MonthLetters(k);
    MonthLetters(m);
  }

  lemma NCSADayLayout(t: Time, tail: Bytes)
    requires ValidTime(t)
    ensures var s := NCSADay(t) + tail;
            && |NCSADay(t)| == 12 && s[0] == '[' && s[3] == '/' && s[7] == '/' && s[4..7] == MonthName(t.month)
            && TwoAt(s, 1) && TwoAt(s, 8) && TwoAt(s, 10)
            && ReadTwo(s, 1) == t.day && 100 * ReadTwo(s, 8) + ReadTwo(s, 10) == t.year
  {
    var s := NCSADay(t) + tail;
    FourDigits(t.year);
    assert s[1..3] == Two(t.day) && s[8..10] == Two(t.year / 100) && s[10..12] == Two(t.year % 100);
    TwoReadBack(s, 1, t.day);
    TwoReadBack(s, 8, t.year / 100);
    TwoReadBack(s, 10, t.year % 100);
  }

  lemma NCSAClockLayout(head: Bytes, t: Time, tail: Bytes)
    requires ValidTime(t) && |head| == 12
    ensures var s := head + NCSAClock(t) + tail;
            && |NCSAClock(t)| == 10 && s[12] == ':' && s[15] == ':' && s[18] == ':' && s[21] == ' '
            && TwoAt(s, 13) && TwoAt(s, 16) && TwoAt(s, 19)
            && ReadTwo(s, 13) == t.hour && ReadTwo(s, 16) == t.minute && ReadTwo(s, 19) == t.second
  {
    var s := head + NCSAClock(t) + tail;
    assert s[13..15] == Two(t.hour) && s[16..18] == Two(t.minute) && s[19..21] == Two(t.second);
    TwoReadBack(s, 13, t.hour);
    TwoReadBack(s, 16, t.minute);
    TwoReadBack(s, 19, t.second);
  }

  lemma NCSAZoneLayout(head: Bytes, offset: int)
    requires -86400 < offset < 86400 && |head| == 22
    ensures var s := head + NCSAZone(offset);
            && |NCSAZone(offset)| == 6 && s[22] == (if offset < 0 then '-' else '+') && s[25..] == "00]"
            && TwoAt(s, 23) && ReadTwo(s, 23) == Abs(offset) / 3600
  {
    var s := head + NCSAZone(offset);
    assert s[23..25] == Two(Abs(offset) / 3600);
    TwoReadBack(s, 23, Abs(offset) / 3600);
  }

  /** s shows the fields of t in the places where ParseNCSA looks for them. */
  predicate ShowsNCSA(s: Bytes, t: Time) {
    && |s| == 28 && s[0] == '[' && s[3] == '/' && s[7] == '/' && s[12] == ':' && s[15] == ':' && s[18] == ':' && s[21] == ' '
    && TwoAt(s, 1) && TwoAt(s, 8) && TwoAt(s, 10) && TwoAt(s, 13) && TwoAt(s, 16) && TwoAt(s, 19) && TwoAt(s, 23)
    && s[25..] == "00]" && s[22] == (if t.offset < 0 then '-' else '+')
    && ReadTwo(s, 1) == t.day && MonthNumber(s[4..7], 1) == t.month && 100 * ReadTwo(s, 8) + ReadTwo(s, 10) == t.year
    && ReadTwo(s, 13) == t.hour && ReadTwo(s, 16) == t.minute && ReadTwo(s, 19) == t.second
    && ReadTwo(s, 23) == Abs(t.offset) / 3600
  }

  lemma NCSALayout(t: Time)
    requires ValidTime(t)
    ensures ShowsNCSA(NCSADate(t), t)
  {
    NCSADayLayout(t, NCSAClock(t) + NCSAZone(t.offset));
    NCSAClockLayout(NCSADay(t), t, NCSAZone(t.offset));
    NCSAZoneLayout(NCSADay(t) + NCSAClock(t), t.offset);
    MonthReadBack(t.month);
    assert NCSADate(t) == NCSADay(t) + (NCSAClock(t) + NCSAZone(t.offset));
  }

  /** An NCSA date has 28 bytes, for every year and offset; longer numbers lose their leading digits. */
  lemma NCSALength(t: Time)
    requires 1 <= t.month <= 12
    ensures |NCSADate(t)| == 28
  {
  }

  lemma HoursShown(offset: int)
    ensures CutTo(offset, 3600) == var h := 3600 * (Abs(offset) / 3600); if offset < 0 then -h else h
  {
  }

  lemma ShownNCSAIsParsed(s: Bytes, t: Time)
    requires ShowsNCSA(s, t) && ValidTime(t.(offset := CutTo(t.offset, 3600)))
    ensures ParseNCSA(s) == Some(t.(offset := CutTo(t.offset, 3600)))
  {
    HoursShown(t.offset);
  }

  /** Parsing an NCSA date gives back every field, with the offset cut to whole hours. */
  lemma NCSARoundTrip(t: Time)
    requires ValidTime(t)
    ensures |NCSADate(t)| == 28
    ensures ParseNCSA(NCSADate(t)) == Some(t.(offset := CutTo(t.offset, 3600)))
  {
    NCSALayout(t);
    CutIsSmaller(t.offset, 3600);
    ShownNCSAIsParsed(NCSADate(t), t);
  }

  /** So that round trip is exact precisely for whole-hour offsets. */
  lemma NCSAExactForWholeHours(t: Time)
    requires ValidTime(t)
    ensures ParseNCSA(NCSADate(t)) == Some(t) <==> t.offset % 3600 == 0
  {
    NCSARoundTrip(t);
    CutExact(t.offset, 3600);
  }
}

/** The LTSV access log line (pkg/logger/accesslog/ltsv.go). */
module Ltsv {
  import opened Prelude
  import opened Digits
  import opened Lines
  import D = Dates

  predicate Breaks(c: char) {
    c == '\t' || c == '\n' || c == '\r'
  }

  /** appendLTSVValue: every TAB, LF and CR becomes a space. */
  function Sanitise(s: Bytes): Bytes {
    seq(|s|, i requires 0 <= i < |s| => if Breaks(s[i]) then ' ' else s[i])
  }

  predicate OneField(s: Bytes) {
    forall i :: 0 <= i < |s| ==> !Breaks(s[i])
  }

  lemma SanitiseMeaning(s: Bytes)
    ensures |Sanitise(s)| == |s| && OneField(Sanitise(s))
    ensures Sanitise(Sanitise(s)) == Sanitise(s)
    ensures OneField(s) ==> Sanitise(s) == s
  {
  }

  method AppendLTSVValue(dst0: Bytes, s: Bytes) returns (dst: Bytes)
    ensures dst == dst0 + Sanitise(s)
  {
    dst := dst0;
    for i := 0 to |s|
      invariant dst == dst0 + Sanitise(s)[..i]
    {
      dst := dst + [if Breaks(s[i]) then ' ' else s[i]];
    }
  }

  datatype Record = Record(
    time: D.Time,
    hostIp: Bytes,
    forwardedFor: Bytes,
    user: Bytes,
    verb: Bytes,
    uri: Bytes,
    proto: Bytes,
    scheme: Bytes,
    vhost: Bytes,
    status: int,
    size: int,
    reqSize: int,
    reqTime: int,
    referer: Bytes,
    ua: Bytes)

  type Field = (Bytes, Bytes)

  /** The library's integer printer panics on negative numbers. */
  predicate Printable(r: Record) {
    r.status >= 0 && r.size >= 0 && r.reqSize >= 0 && r.reqTime >= 0
  }

  /** Label and value of each field, in order. */
  function Fields(r: Record): (fs: seq<Field>)
    requires Printable(r)
    ensures |fs| == 13
  {
    [("time", D.ISOTime(r.time)), ("host", r.hostIp), ("forwardedfor", Sanitise(r.forwardedFor)), ("user", Sanitise(r.user)),
     ("req", Sanitise(r.verb) + " " + Sanitise(r.uri) + " " + Sanitise(r.proto)),
     ("scheme", Sanitise(r.scheme)), ("vhost", Sanitise(r.vhost)), ("status", Decimal(r.status)), ("size", Decimal(r.size)),
     ("reqsize", Decimal(r.reqSize)), ("reqtime_microsec", Decimal(r.reqTime)), ("referer", Sanitise(r.referer)),
     ("ua", Sanitise(r.ua))]
  }

  /** v is s with a space for every TAB, line feed and carriage return. */
  ghost predicate Blanked(s: Bytes, v: Bytes) {
    |v| == |s| && forall i :: 0 <= i < |s| ==> v[i] == if s[i] == '\t' || s[i] == '\n' || s[i] == '\r' then ' ' else s[i]
  }

  /** v is the request line: method, URI and protocol. */
  ghost predicate IsRequestLine(r: Record, v: Bytes) {
    exists a, b, c :: v == a + " " + b + " " + c && Blanked(r.verb, a) && Blanked(r.uri, b) && Blanked(r.proto, c)
  }

  ghost predicate IsNumber(n: int, v: Bytes) {
    AllDigits(v) && v != "" && Parse(v) == n && (|v| > 1 ==> v[0] != '0')
  }

  lemma DecimalIsNumber(n: nat)
    ensures IsNumber(n, Decimal(n))
  {
    ParseDecimal(n);
    DecimalCanonical(n);
  }

  lemma SanitiseBlanks(s: Bytes)
    ensures Blanked(s, Sanitise(s))
  {
  }

  lemma RequestLineWritten(r: Record)
    ensures IsRequestLine(r, Sanitise(r.verb) + " " + Sanitise(r.uri) + " " + Sanitise(r.proto))
  {
    SanitiseBlanks(r.verb);
    SanitiseBlanks(r.uri);
    SanitiseBlanks(r.proto);
  }

  /** The fields in order, each from the request's own value: */
  lemma FirstFieldsInOrder(r: Record)
    requires Printable(r)
    ensures var fs := Fields(r);
            && fs[0] == ("time", D.ISOTime(r.time))
            && fs[1] == ("host", r.hostIp)
            && fs[2].0 == "forwardedfor" && Blanked(r.forwardedFor, fs[2].1)
            && fs[3].0 == "user" && Blanked(r.user, fs[3].1)
            && fs[4].0 == "req" && IsRequestLine(r, fs[4].1)
            && fs[5].0 == "scheme" && Blanked(r.scheme, fs[5].1)
            && fs[6].0 == "vhost" && Blanked(r.vhost, fs[6].1)
  {
    SanitiseBlanks(r.forwardedFor);
    SanitiseBlanks(r.user);
    RequestLineWritten(r);
    SanitiseBlanks(r.scheme);
    SanitiseBlanks(r.vhost);
  }

  /** the rest. */
  lemma LaterFieldsInOrder(r: Record)
    requires Printable(r)
    ensures var fs := Fields(r);
            && fs[7].0 == "status" && IsNumber(r.status, fs[7].1)
            && fs[8].0 == "size" && IsNumber(r.size, fs[8].1)
            && fs[9].0 == "reqsize" && IsNumber(r.reqSize, fs[9].1)
            && fs[10].0 == "reqtime_microsec" && IsNumber(r.reqTime, fs[10].1)
            && fs[11].0 == "referer" && Blanked(r.referer, fs[11].1)
            && fs[12].0 == "ua" && Blanked(r.ua, fs[12].1)
  {
    DecimalIsNumber(r.status);
    DecimalIsNumber(r.size);
    DecimalIsNumber(r.reqSize);
    DecimalIsNumber(r.reqTime);
    SanitiseBlanks(r.referer);
    SanitiseBlanks(r.ua);
  }

  function Show(f: Field): Bytes {
    f.0 + ":" + f.1
  }

  function ShowAll(fs: seq<Field>): seq<Bytes> {
    seq(|fs|, i requires 0 <= i < |fs| => Show(fs[i]))
  }

  function Line(r: Record): Bytes
    requires Printable(r)
  {
    Join(ShowAll(Fields(r)), '\t')
  }

  /** Cutting at the first colon. */
  function Cut(s: Bytes): Field {
    var i := IndexOf(s, ':');
    if i == |s| then (s, []) else (s[..i], s[i + 1..])
  }

  /** Reading a line: split at TABs, cut each piece at its first colon. */
  function ReadLine(s: Bytes): seq<Field> {
    var parts := Split(s, '\t');
    seq(|parts|, i requires 0 <= i < |parts| => Cut(parts[i]))
  }

  lemma CutShown(f: Field)
    requires Without(f.0, ':')
    ensures Cut(Show(f)) == f
  {
    FindFirst(f.0, ':', f.1);
    assert Show(f) == f.0 + [':'] + f.1;
    assert Show(f)[..|f.0|] == f.0 && Show(f)[|f.0| + 1..] == f.1;
  }

  predicate LabelOk(l: Bytes) {
    Without(l, ':') && OneField(l)
  }

  /** Labels without colon, TAB and line break. */
  predicate Labelled(fs: seq<Field>) {
    forall i :: 0 <= i < |fs| ==> LabelOk(fs[i].0)
  }

  /** No value holds a TAB. */
  predicate TabFree(fs: seq<Field>) {
    forall i :: 0 <= i < |fs| ==> Without(fs[i].1, '\t')
  }

  /** Fields are read back exactly when no value holds a TAB: otherwise there are too many pieces. */
  lemma ReadShown(fs: seq<Field>)
    requires fs != [] && Labelled(fs)
    ensures ReadLine(Join(ShowAll(fs), '\t')) == fs <==> TabFree(fs)
  {
    var parts := ShowAll(fs);
    forall i | 0 <= i < |parts|
      ensures Cut(parts[i]) == fs[i]
      ensures Without(parts[i], '\t') <==> Without(fs[i].1, '\t')
    {
      assert LabelOk(fs[i].0);
      CutShown(fs[i]);
      ShownWithout(fs[i], '\t');
    }
    if TabFree(fs) {
      SplitJoin(parts, '\t');
    } else {
      SplitMore(parts, '\t');
    }
  }

  lemma ShownWithout(f: Field, c: char)
    requires Without(f.0, c) && c != ':'
    ensures Without(Show(f), c) <==> Without(f.1, c)
  {
    assert Show(f) == f.0 + [':'] + f.1;
    if Without(Show(f), c) {
      forall i | 0 <= i < |f.1|
        ensures f.1[i] != c
      {
        assert f.1[i] == Show(f)[|f.0| + 1 + i];
      }
    }
  }

  lemma DigitsOneField(s: Bytes)
    requires AllDigits(s)
    ensures OneField(s)
  {
  }

  lemma SmallOneField(n: nat)
    ensures n < 100 ==> OneField(D.Uint2(n))
    ensures n < 10000 ==> OneField(D.Uint4(n))
  {
    if n < 100 {
      D.Uint2Small(n);
      DigitsOneField(Low(n, 2));
    }
    if n < 10000 {
      D.Uint4Small(n);
      DigitsOneField(Low(n, 4));
    }
  }

  lemma JoinOneField(a: Bytes, b: Bytes)
    requires OneField(a) && OneField(b)
    ensures OneField(a + b)
  {
  }

  /** The time of every request from the years 0 to 9999 is free of TAB and line breaks. */
  lemma ISOOneField(t: D.Time)
    requires D.ValidTime(t)
    ensures OneField(D.ISOTime(t))
  {
    ISODateOneField(t);
    ISOClockOneField(t);
    ISOOffsetOneField(t.offset);
    JoinOneField(D.ISODate(t), "T");
    JoinOneField(D.ISODate(t) + "T", D.ISOClock(t));
    JoinOneField(D.ISODate(t) + "T" + D.ISOClock(t), D.ISOOffset(t.offset));
  }

  lemma ISODateOneField(t: D.Time)
    requires D.ValidTime(t)
    ensures OneField(D.ISODate(t))
  {
    SmallOneField(t.year);
    SmallOneField(t.month);
    SmallOneField(t.day);
  }

  lemma ISOClockOneField(t: D.Time)
    requires D.ValidTime(t)
    ensures OneField(D.ISOClock(t))
  {
    SmallOneField(t.hour);
    SmallOneField(t.minute);
    SmallOneField(t.second);
  }

  lemma ISOOffsetOneField(offset: int)
    requires -86400 < offset < 86400
    ensures OneField(D.ISOOffset(offset))
  {
    SmallOneField(D.Abs(offset) / 3600);
    SmallOneField(D.Abs(offset) % 3600 / 60);
  }

  /**
   * Whatever bytes the request holds, splitting its line at TABs yields exactly the 13 labels in order, and cutting each
   * piece at its first colon recovers the value, if and only if the printed time and the peer's address hold no TAB.
   */
  lemma LineRecoversFields(r: Record)
    requires Printable(r)
    ensures ReadLine(Line(r)) == Fields(r) <==> Without(D.ISOTime(r.time), '\t') && Without(r.hostIp, '\t')
    ensures forall i :: 0 <= i < 13 ==> Fields(r)[i].0 == LABELS[i]
  {
    FieldsLabelled(r);
    FieldsTabFree(r);
    ReadShown(Fields(r));
  }

  lemma FieldsLabelled(r: Record)
    requires Printable(r)
    ensures Labelled(Fields(r))
  {
    FirstLabelsOk();
    LastLabelsOk();
  }

  /** All values but the first two are sanitised or printed digits. */
  lemma RestOneField(r: Record, i: nat)
    requires Printable(r) && 2 <= i < 13
    ensures OneField(Fields(r)[i].1)
  {
    var fs := Fields(r);
    SanitiseMeaning(r.forwardedFor);
    SanitiseMeaning(r.user);
    ReqOneField(r);
    SanitiseMeaning(r.scheme);
    SanitiseMeaning(r.vhost);
    SanitiseMeaning(r.referer);
    SanitiseMeaning(r.ua);
    DigitsOneField(Decimal(r.status));
    DigitsOneField(Decimal(r.size));
    DigitsOneField(Decimal(r.reqSize));
    DigitsOneField(Decimal(r.reqTime));
  }

  lemma ReqOneField(r: Record)
    ensures OneField(Sanitise(r.verb) + " " + Sanitise(r.uri) + " " + Sanitise(r.proto))
  {
    SanitiseMeaning(r.verb);
    SanitiseMeaning(r.uri);
    SanitiseMeaning(r.proto);
  }

  lemma FieldsTabFree(r: Record)
    requires Printable(r)
    ensures TabFree(Fields(r)) <==> Without(D.ISOTime(r.time), '\t') && Without(r.hostIp, '\t')
  {
    var fs := Fields(r);
    assert fs[0].1 == D.ISOTime(r.time) && fs[1].1 == r.hostIp;
    forall i | 2 <= i < 13
      ensures Without(fs[i].1, '\t')
    {
      RestOneField(r, i);
    }
  }

  lemma FirstLabelsOk()
    ensures LabelOk("time") && LabelOk("host") && LabelOk("forwardedfor") && LabelOk("user") && LabelOk("req")
    ensures LabelOk("scheme") && LabelOk("vhost")
  {
  }

  lemma LastLabelsOk()
    ensures LabelOk("status") && LabelOk("size") && LabelOk("reqsize") && LabelOk("reqtime_microsec")
    ensures LabelOk("referer") && LabelOk("ua")
  {
  }

  const LABELS: seq<Bytes> :=
    ["time", "host", "forwardedfor", "user", "req", "scheme", "vhost", "status", "size", "reqsize", "reqtime_microsec",
     "referer", "ua"]

  /** No request can put a line break into a line, so lines can be told apart in the log. */
  lemma LineIsOneLine(r: Record)
    requires Printable(r) && OneField(D.ISOTime(r.time)) && OneField(r.hostIp)
    ensures Without(Line(r), '\n')
  {
    var fs := Fields(r);
    FieldsLabelled(r);
    forall i | 0 <= i < |fs|
      ensures Without(Show(fs[i]), '\n')
    {
      assert LabelOk(fs[i].0);
      if i >= 2 {
        RestOneField(r, i);
      }
      ShownWithout(fs[i], '\n');
    }
    JoinedWithout(ShowAll(fs));
  }

  lemma {:induction false} JoinedWithout(parts: seq<Bytes>)
    requires parts != [] && forall i :: 0 <= i < |parts| ==> Without(parts[i], '\n')
    ensures Without(Join(parts, '\t'), '\n')
    decreases |parts|
  {
    if |parts| > 1 {
      JoinedWithout(parts[1..]);
      JoinMore(parts, '\t');
    }
  }

  // ----- Writing the line -----

  /** The fields before position k are written; the others are still missing. */
  ghost predicate WrittenTo(dst0: Bytes, dst: Bytes, fs: seq<Field>, k: nat) {
    1 <= k <= |fs| && dst + JoinTail(ShowAll(fs)[k..], '\t') == dst0 + Join(ShowAll(fs), '\t')
  }

  lemma WriteNext(dst0: Bytes, dst: Bytes, fs: seq<Field>, k: nat, text: Bytes)
    requires WrittenTo(dst0, dst, fs, k) && k < |fs| && text == "\t" + fs[k].0 + ":" + fs[k].1
    ensures WrittenTo(dst0, dst + text, fs, k + 1)
  {
    var parts := ShowAll(fs);
    assert parts[k..][1..] == parts[k + 1..] && parts[k..][0] == parts[k] == Show(fs[k]);
    assert text == ['\t'] + parts[k];
    assert dst + (['\t'] + parts[k]) + JoinTail(parts[k + 1..], '\t') == dst + (['\t'] + parts[k] + JoinTail(parts[k + 1..], '\t'));
  }

  lemma AllWritten(dst0: Bytes, dst: Bytes, fs: seq<Field>)
    requires WrittenTo(dst0, dst, fs, |fs|)
    ensures dst == dst0 + Join(ShowAll(fs), '\t')
  {
    assert ShowAll(fs)[|fs|..] == [];
    assert dst + [] == dst;
  }

  method AppendLabel(dst0: Bytes, name: Bytes) returns (dst: Bytes)
    ensures dst == dst0 + ("\t" + name + ":")
  {
    dst := dst0 + ("\t" + name + ":");
  }

  /** A sanitised value as field k. */
  method AppendText(ghost dst0: Bytes, dst: Bytes, ghost fs: seq<Field>, ghost k: nat, name: Bytes, s: Bytes) returns (r: Bytes)
    requires WrittenTo(dst0, dst, fs, k) && k < |fs| && fs[k] == (name, Sanitise(s))
    ensures WrittenTo(dst0, r, fs, k + 1)
  {
    r := AppendLabel(dst, name);
    r := AppendLTSVValue(r, s);
    WriteNext(dst0, dst, fs, k, "\t" + name + ":" + Sanitise(s));
    assert r == dst + ("\t" + name + ":" + Sanitise(s));
  }

  /** A value that is written as it is, as field k. */
  method AppendPlain(ghost dst0: Bytes, dst: Bytes, ghost fs: seq<Field>, ghost k: nat, name: Bytes, v: Bytes) returns (r: Bytes)
    requires WrittenTo(dst0, dst, fs, k) && k < |fs| && fs[k] == (name, v)
    ensures WrittenTo(dst0, r, fs, k + 1)
  {
    r := AppendLabel(dst, name);
    r := r + v;
    WriteNext(dst0, dst, fs, k, "\t" + name + ":" + v);
    assert r == dst + ("\t" + name + ":" + v);
  }

  /** The request line: method, URI and protocol, each sanitised. */
  method AppendReq(ghost dst0: Bytes, dst: Bytes, ghost fs: seq<Field>, ghost k: nat, verb: Bytes, uri: Bytes, proto: Bytes)
    returns (r: Bytes)
    requires WrittenTo(dst0, dst, fs, k) && k < |fs|
    requires fs[k] == ("req", Sanitise(verb) + " " + Sanitise(uri) + " " + Sanitise(proto))
    ensures WrittenTo(dst0, r, fs, k + 1)
  {
    r := AppendLabel(dst, "req");
    r := AppendLTSVValue(r, verb);
    r := r + " ";
    r := AppendLTSVValue(r, uri);
    r := r + " ";
    r := AppendLTSVValue(r, proto);
    ghost var v := Sanitise(verb) + " " + Sanitise(uri) + " " + Sanitise(proto);
    WriteNext(dst0, dst, fs, k, "\t" + "req" + ":" + v);
    assert r == dst + ("\t" + "req" + ":" + v);
  }

  method AppendTime(dst0: Bytes, t: D.Time, ghost fs: seq<Field>) returns (dst: Bytes)
    requires fs != [] && fs[0] == ("time", D.ISOTime(t))
    ensures WrittenTo(dst0, dst, fs, 1)
  {
    dst := dst0 + "time:";
    dst := D.AppendISOTime(dst, t);
    FirstField(dst0, D.ISOTime(t), fs);
  }

  lemma FirstField(dst0: Bytes, time: Bytes, fs: seq<Field>)
    requires fs != [] && fs[0] == ("time", time)
    ensures WrittenTo(dst0, dst0 + "time:" + time, fs, 1)
  {
    var first, rest := Show(fs[0]), JoinTail(ShowAll(fs)[1..], '\t');
    assert dst0 + "time:" + time == dst0 + first;
    assert dst0 + first + rest == dst0 + (first + rest);
  }

  /** Negative numbers set to zero. */
  function Clipped(r: Record): (p: Record)
    ensures Printable(p) && (Printable(r) ==> p == r)
  {
    r.(status := if r.status < 0 then 0 else r.status,
       size := if r.size < 0 then 0 else r.size,
       reqSize := if r.reqSize < 0 then 0 else r.reqSize,
       reqTime := if r.reqTime < 0 then 0 else r.reqTime)
  }

  /** appendLTSVLog: the labelled fields joined by TABs; it panics on negative numbers. */
  method AppendLTSVLog(dst0: Bytes, r: Record) returns (res: Option<Bytes>)
    ensures res == if Printable(r) then Some(dst0 + Line(r)) else None
  {
    ghost var fs := Fields(Clipped(r));
    var dst := AppendTime(dst0, r.time, fs);
    dst := AppendPeer(dst0, dst, r, fs);
    dst := AppendReq(dst0, dst, fs, 4, r.verb, r.uri, r.proto);
    res := AppendTarget(dst0, dst, r, fs);
    if res.None? {
      return;
    }
    res := AppendSizes(dst0, res.value, r, fs);
    if res.None? {
      return;
    }
    dst := AppendHeaders(dst0, res.value, r, fs);
    res := Some(dst);
    AllWritten(dst0, dst, fs);
  }

  /** A number as field k. */
  method AppendNum(ghost dst0: Bytes, dst: Bytes, ghost fs: seq<Field>, ghost k: nat, name: Bytes, n: int) returns (r: Option<Bytes>)
    requires WrittenTo(dst0, dst, fs, k) && k < |fs| && (n >= 0 ==> fs[k] == (name, Decimal(n)))
    ensures r.Some? <==> n >= 0
    ensures r.Some? ==> WrittenTo(dst0, r.value, fs, k + 1)
  {
    var labelled := AppendLabel(dst, name);
    r := AppendUint(labelled, n);
    if n >= 0 {
      WriteNext(dst0, dst, fs, k, "\t" + name + ":" + Decimal(n));
      assert r.value == dst + ("\t" + name + ":" + Decimal(n));
    }
  }

  method AppendPeer(ghost dst0: Bytes, dst1: Bytes, r: Record, ghost fs: seq<Field>) returns (dst: Bytes)
    requires |fs| == 13 && WrittenTo(dst0, dst1, fs, 1)
    requires fs[1] == ("host", r.hostIp) && fs[2] == ("forwardedfor", Sanitise(r.forwardedFor)) && fs[3] == ("user", Sanitise(r.user))
    ensures WrittenTo(dst0, dst, fs, 4)
  {
    dst := AppendPlain(dst0, dst1, fs, 1, "host", r.hostIp);
    dst := AppendText(dst0, dst, fs, 2, "forwardedfor", r.forwardedFor);
    dst := AppendText(dst0, dst, fs, 3, "user", r.user);
  }

  method AppendTarget(ghost dst0: Bytes, dst1: Bytes, r: Record, ghost fs: seq<Field>) returns (res: Option<Bytes>)
    requires |fs| == 13 && WrittenTo(dst0, dst1, fs, 5)
    requires fs[5] == ("scheme", Sanitise(r.scheme)) && fs[6] == ("vhost", Sanitise(r.vhost))
    requires r.status >= 0 ==> fs[7] == ("status", Decimal(r.status))
    ensures res.Some? <==> r.status >= 0
    ensures res.Some? ==> WrittenTo(dst0, res.value, fs, 8)
  {
    var dst := AppendText(dst0, dst1, fs, 5, "scheme", r.scheme);
    dst := AppendText(dst0, dst, fs, 6, "vhost", r.vhost);
    res := AppendNum(dst0, dst, fs, 7, "status", r.status);
  }

  method AppendSizes(ghost dst0: Bytes, dst1: Bytes, r: Record, ghost fs: seq<Field>) returns (res: Option<Bytes>)
    requires |fs| == 13 && WrittenTo(dst0, dst1, fs, 8)
    requires r.size >= 0 ==> fs[8] == ("size", Decimal(r.size))
    requires r.reqSize >= 0 ==> fs[9] == ("reqsize", Decimal(r.reqSize))
    requires r.reqTime >= 0 ==> fs[10] == ("reqtime_microsec", Decimal(r.reqTime))
    ensures res.Some? <==> r.size >= 0 && r.reqSize >= 0 && r.reqTime >= 0
    ensures res.Some? ==> WrittenTo(dst0, res.value, fs, 11)
  {
    res := AppendNum(dst0, dst1, fs, 8, "size", r.size);
    if res.None? {
      return;
    }
    res := AppendNum(dst0, res.value, fs, 9, "reqsize", r.reqSize);
    if res.None? {
      return;
    }
    res := AppendNum(dst0, res.value, fs, 10, "reqtime_microsec", r.reqTime);
  }

  method AppendHeaders(ghost dst0: Bytes, dst1: Bytes, r: Record, ghost fs: seq<Field>) returns (dst: Bytes)
    requires |fs| == 13 && WrittenTo(dst0, dst1, fs, 11)
    requires fs[11] == ("referer", Sanitise(r.referer)) && fs[12] == ("ua", Sanitise(r.ua))
    ensures WrittenTo(dst0, dst, fs, 13)
  {
    dst := AppendText(dst0, dst1, fs, 11, "referer", r.referer);
    dst := AppendText(dst0, dst, fs, 12, "ua", r.ua);
  }
}

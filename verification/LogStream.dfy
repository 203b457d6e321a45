/** The access log end to end: what a reader of the log files recovers (pkg/logger/accesslog). */
module LogStreams {
  import opened Prelude
  import opened Lines
  import opened AccessLogs
  import opened JsonLog
  import J = JsonLine
  import L = Ltsv
  import opened Dates
  import opened Digits

  // ----- JSON lines -----

  lemma DigitsNoControl(n: nat)
    ensures NoControl(Decimal(n))
  {
    ParseDecimal(n);
  }

  /** A member shown has no control byte, as long as its raw bytes have none. */
  lemma MemberNoControl(m: J.Member)
    requires m.1.Raw? ==> NoControl(m.1.s)
    ensures NoControl(J.ShowMember(m))
  {
    QuoteHasNoControl(m.0);
    match m.1
    case Str(s) => QuoteHasNoControl(s);
    case Num(n) => DigitsNoControl(n);
    case Raw(s) =>
  }

  lemma {:induction false} TailNoControl(ms: seq<J.Member>)
    requires forall i :: 0 <= i < |ms| && ms[i].1.Raw? ==> NoControl(ms[i].1.s)
    ensures NoControl(J.ShowTail(ms))
  {
    if ms != [] {
      MemberNoControl(ms[0]);
      TailNoControl(ms[1..]);
    }
  }

  lemma ObjectNoControl(ms: seq<J.Member>)
    requires ms != [] && forall i :: 0 <= i < |ms| && ms[i].1.Raw? ==> NoControl(ms[i].1.s)
    ensures NoControl(J.ShowObject(ms))
  {
    MemberNoControl(ms[0]);
    TailNoControl(ms[1..]);
  }

  /** A record that is printed, and whose unescaped pieces need no escape. */
  predicate Regular(r: J.Record) {
    J.Printable(r) && Clean(ISOTime(r.time)) && Clean(r.remoteAddr) && J.OriginOk(r.forwardedFor, r.peerIp)
  }

  /** The line of a record is one line, and reading it recovers the record's fields. */
  lemma JsonLineReads(r: J.Record, line: Bytes)
    requires Regular(r) && line == J.ShowObject(J.Written(r))
    ensures Without(line, '\n') && J.ReadObject(line) == Some(J.Fields(r))
  {
    J.LineRecoversFields(r);
    J.FieldsAreEscapable(r);
    J.OriginClean(r.forwardedFor, r.peerIp);
    ObjectNoControl(J.Written(r));
  }

  // ----- From lines to the bytes in the sink and back -----

  /** The given lines, each with its break. */
  ghost predicate WithBreaks(ls: seq<Bytes>, lines: seq<Bytes>) {
    |ls| == |lines| && forall i :: 0 <= i < |lines| ==> ls[i] == lines[i] + "\n" && Without(lines[i], '\n')
  }

  lemma LinesAreBroken(ls: seq<Bytes>, lines: seq<Bytes>)
    requires WithBreaks(ls, lines)
    ensures forall i :: 0 <= i < |ls| ==> Broken(ls[i])
  {
    forall i | 0 <= i < |ls|
      ensures Broken(ls[i])
    {
      assert (lines[i] + "\n")[..|lines[i]|] == lines[i];
    }
  }

  lemma SamePart(a: Bytes, b: Bytes)
    requires a + "\n" == b + "\n"
    ensures a == b
  {
    assert |a + "\n"| == |a| + 1 && |b + "\n"| == |b| + 1;
    assert (a + "\n")[..|a|] == a && (b + "\n")[..|b|] == b;
  }

  lemma PartsAreLines(ls: seq<Bytes>, lines: seq<Bytes>, parts: seq<Bytes>)
    requires WithBreaks(ls, lines) && Terminated(ls, parts)
    ensures |parts| == |lines| + 1 && parts[..|lines|] == lines && parts[|lines|] == []
  {
    forall i | 0 <= i < |lines|
      ensures parts[i] == lines[i]
    {
      SamePart(parts[i], lines[i]);
    }
  }

  /** When the accepted lines are the given ones and none holds a line break, splitting what was written recovers them. */
  lemma StreamSplits(size: nat, ops: seq<Op>, lines: seq<Bytes>)
    requires size > 0 && |LinesOf(ops)| == |lines|
    requires forall i :: 0 <= i < |lines| ==> LinesOf(ops)[i] == lines[i] + "\n" && Without(lines[i], '\n')
    ensures var parts := Split(Stream(Run(Opened(size), ops)), '\n');
            |parts| == |lines| + 1 && parts[..|lines|] == lines && parts[|lines|] == []
  {
    LogConserves(size, ops);
    LinesAreBroken(LinesOf(ops), lines);
    SplitLines(LinesOf(ops));
    PartsAreLines(LinesOf(ops), lines, Split(Stream(Run(Opened(size), ops)), '\n'));
  }

  /** The line written for a regular record. */
  predicate IsJsonLine(line: Bytes, r: J.Record) {
    Regular(r) && line == J.ShowObject(J.Written(r))
  }

  predicate JsonRecovered(part: Bytes, r: J.Record) {
    J.Printable(r) && J.ReadObject(part) == Some(J.Fields(r))
  }

  /**
   * JSON access log, end to end: over every run of logs, timed flushes, rotations and closes, at every buffer size,
   * splitting sink and buffer at line breaks and parsing the pieces recovers the fields of every logged record in order.
   */
  lemma JsonLogRecovers(size: nat, ops: seq<Op>, lines: seq<Bytes>, records: seq<J.Record>)
    requires size > 0 && |LinesOf(ops)| == |lines| == |records|
    requires forall i :: 0 <= i < |lines| ==> LinesOf(ops)[i] == lines[i] + "\n" && IsJsonLine(lines[i], records[i])
    ensures var parts := Split(Stream(Run(Opened(size), ops)), '\n');
            && |parts| == |records| + 1
            && forall i :: 0 <= i < |records| ==> JsonRecovered(parts[i], records[i])
  {
    forall i | 0 <= i < |lines|
      ensures Without(lines[i], '\n') && JsonRecovered(lines[i], records[i])
    {
      JsonLineReads(records[i], lines[i]);
    }
    StreamSplits(size, ops, lines);
    var parts := Split(Stream(Run(Opened(size), ops)), '\n');
    assert forall i :: 0 <= i < |records| ==> parts[i] == parts[..|lines|][i];
  }

  /** The line written for a record whose time and peer address hold no TAB or line break. */
  predicate IsLtsvLine(line: Bytes, r: L.Record) {
    L.Printable(r) && L.OneField(ISOTime(r.time)) && L.OneField(r.hostIp) && line == L.Line(r)
  }

  predicate LtsvRecovered(part: Bytes, r: L.Record) {
    L.Printable(r) && L.ReadLine(part) == L.Fields(r)
  }

  /** LTSV access log, end to end, whatever bytes the requests held. */
  lemma LtsvLogRecovers(size: nat, ops: seq<Op>, lines: seq<Bytes>, records: seq<L.Record>)
    requires size > 0 && |LinesOf(ops)| == |lines| == |records|
    requires forall i :: 0 <= i < |lines| ==> LinesOf(ops)[i] == lines[i] + "\n" && IsLtsvLine(lines[i], records[i])
    ensures var parts := Split(Stream(Run(Opened(size), ops)), '\n');
            && |parts| == |records| + 1
            && forall i :: 0 <= i < |records| ==> LtsvRecovered(parts[i], records[i])
  {
    forall i | 0 <= i < |lines|
      ensures Without(lines[i], '\n') && LtsvRecovered(lines[i], records[i])
    {
      L.LineIsOneLine(records[i]);
      L.LineRecoversFields(records[i]);
    }
    StreamSplits(size, ops, lines);
    var parts := Split(Stream(Run(Opened(size), ops)), '\n');
    assert forall i :: 0 <= i < |records| ==> parts[i] == parts[..|lines|][i];
  }
}

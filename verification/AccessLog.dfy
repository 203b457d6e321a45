/** The buffered access log (pkg/logger/accesslog/accesslog.go). */
module AccessLogs {
  import opened Prelude
  import opened Lines

  /** What the lock protects: the finished log segments, the open one, and the bytes still in the buffer. */
  datatype LogState = LogState(segments: seq<Bytes>, current: Bytes, buffered: Bytes, size: nat, closed: bool)

  /** bufio.Writer.Write over an error-free sink: the sink's and the buffer's bytes afterwards. */
  function BufWrite(size: nat, current: Bytes, buffered: Bytes, p: Bytes): (w: (Bytes, Bytes))
    requires size > 0 && |buffered| <= size
    ensures |w.1| <= size
    decreases |p|, |buffered|
  {
    if |p| <= size - |buffered| then (current, buffered + p)
    else if buffered == [] then (current + p, [])
    else
      var k := size - |buffered|;
      BufWrite(size, current + (buffered + p[..k]), [], p[k..])
  }

  predicate Valid(s: LogState) {
    s.size > 0 && |s.buffered| <= s.size
  }

  function Written(s: LogState, p: Bytes): LogState
    requires Valid(s)
  {
    var w := BufWrite(s.size, s.current, s.buffered, p);
    s.(current := w.0, buffered := w.1)
  }

  function Flushed(s: LogState): LogState {
    s.(current := s.current + s.buffered, buffered := [])
  }

  function Cut(s: LogState): LogState {
    s.(segments := s.segments + [s.current], current := [])
  }

  /**
   * The locked operations. LateWrite is the locked half of a Log that looked at `closed` before Close set it;
   * RotateShared cuts the shared sink without looking at any buffer.
   */
  datatype Op = Log(line: Bytes) | LateWrite(line: Bytes) | Tick | Rotate | Close | RotateShared

  function Apply(s: LogState, op: Op): LogState
    requires Valid(s)
  {
    match op
    case Log(line) => if s.closed then s else Written(s, line + "\n")
    case LateWrite(line) => Written(s, line + "\n")
    case Tick => Flushed(s)
    case Rotate => if s.closed then Flushed(s) else Cut(Flushed(s))
    case Close => if s.closed then s else Flushed(s).(closed := true)
    case RotateShared => if s.closed then s else Cut(s)
  }

  /** No byte is lost, doubled or reordered between sink and buffer. */
  lemma {:induction false} BufWriteConserves(size: nat, current: Bytes, buffered: Bytes, p: Bytes)
    requires size > 0 && |buffered| <= size
    ensures var w := BufWrite(size, current, buffered, p); w.0 + w.1 == current + buffered + p
    decreases |p|, |buffered|
  {
    if |p| <= size - |buffered| {
      assert current + (buffered + p) == current + buffered + p;
    } else if buffered != [] {
      var k := size - |buffered|;
      BufWriteConserves(size, current + (buffered + p[..k]), [], p[k..]);
      assert current + (buffered + p[..k]) + [] + p[k..] == current + buffered + (p[..k] + p[k..]);
      assert p == p[..k] + p[k..];
    }
  }

  function Run(s: LogState, ops: seq<Op>): (r: LogState)
    requires Valid(s)
    ensures Valid(r) && r.size == s.size
    decreases |ops|
  {
    if ops == [] then s else Apply(Run(s, ops[..|ops| - 1]), ops[|ops| - 1])
  }

  function Opened(size: nat): LogState {
    LogState([], [], [], size, false)
  }

  // ----- The objects -----

  /** The rotating sink. */
  class Sink {
    var segments: seq<Bytes>
    var current: Bytes
    var open: bool

    constructor ()
      ensures segments == [] && current == [] && open
    {
      segments, current, open := [], [], true;
    }

    method Write(p: Bytes)
      modifies this`current
      ensures segments == old(segments) && current == old(current) + p
    {
      current := current + p;
    }

    method Rotate()
      modifies this`segments, this`current
      ensures segments == old(segments) + [old(current)] && current == []
    {
      segments, current := segments + [current], [];
    }

    method Close()
      modifies this`open
      ensures !open
    {
      open := false;
    }
  }

  /** accessLog with its bufio.Writer, which keeps writing to the sink it was made for. */
  class AccessLog {
    const sink: Sink
    const buf: array<char>
    var n: nat
    var closed: bool
    /** The rotator, null once it has been swapped for the one that does nothing. */
    var out: Sink?

    ghost predicate Ready()
      reads this
    {
      buf.Length > 0 && n <= buf.Length
    }

    /** Rotations reach the sink until the log is closed. */
    ghost predicate Linked()
      reads this
    {
      out == if closed then null else sink
    }

    ghost function State(): LogState
      requires Ready()
      reads this, buf, sink
    {
      LogState(sink.segments, sink.current, buf[..n], buf.Length, closed)
    }

    constructor (sink: Sink, bufferSize: int)
      requires sink.segments == [] && sink.current == []
      ensures Ready() && Linked() && this.sink == sink && fresh(buf)
      ensures State() == Opened(if bufferSize <= 0 then 4096 else bufferSize)
    {
      this.sink, out := sink, sink;
      buf := new char[if bufferSize <= 0 then 4096 else bufferSize];
      n, closed := 0, false;
    }

    /** bufio.Writer.Flush */
    method Flush()
      requires Ready()
      modifies this`n, sink`current
      ensures Ready() && State() == Flushed(old(State()))
    {
      sink.Write(buf[..n]);
      n := 0;
    }

    /** Copies p behind the buffered bytes. */
    method Fill(p: Bytes)
      requires Ready() && |p| <= buf.Length - n
      modifies this`n, buf
      ensures Ready() && State() == old(State()).(buffered := old(State()).buffered + p)
    {
      forall i | 0 <= i < |p| {
        buf[n + i] := p[i];
      }
      n := n + |p|;
    }

    /** bufio.Writer.Write */
    method BufferedWrite(p0: Bytes)
      requires Ready()
      modifies this`n, buf, sink`current
      ensures Ready() && State() == Written(old(State()), p0)
    {
      var p := p0;
      while |p| > buf.Length - n
        invariant Ready() && closed == old(closed) && sink.segments == old(sink.segments)
        invariant BufWrite(buf.Length, sink.current, buf[..n], p) == BufWrite(buf.Length, old(sink.current), old(buf[..n]), p0)
        decreases |p|, n
      {
        if n == 0 {
          sink.Write(p);
          p := [];
        } else {
          var k := buf.Length - n;
          Fill(p[..k]);
          Flush();
          p := p[k..];
        }
      }
      Fill(p);
    }

    /** Log, for a caller that is not interrupted between its look at `closed` and the lock. */
    method Log(line: Bytes)
      requires Ready()
      modifies this`n, buf, sink`current
      ensures Ready() && State() == Apply(old(State()), Op.Log(line))
    {
      if closed {
        return;
      }
      BufferedWrite(line + "\n");
    }

    method Rotate()
      requires Ready() && Linked()
      modifies this`n, sink`segments, sink`current
      ensures Ready() && Linked() && State() == Apply(old(State()), Op.Rotate)
    {
      Flush();
      if out != null {
        out.Rotate();
      }
    }

    /** Close: a last flush; then the rotator is swapped for the one that does nothing, and closed. */
    method Close()
      requires Ready() && Linked()
      modifies this`n, this`closed, this`out, sink`current, sink`open
      ensures Ready() && Linked() && State() == Apply(old(State()), Op.Close)
      ensures closed && out == null
      ensures sink.open <==> old(closed) && old(sink.open)
    {
      if closed {
        return;
      }
      closed := true;
      Flush();
      var target := out;
      out := null;
      if target != null {
        target.Close();
      }
    }
  }

  // ----- The same operations on an unbuffered log of whole lines -----

  datatype Plain = Plain(segments: seq<seq<Bytes>>, current: seq<Bytes>, closed: bool)

  function PlainApply(s: Plain, op: Op): Plain {
    match op
    case Log(line) => if s.closed then s else s.(current := s.current + [line + "\n"])
    case LateWrite(line) => s.(current := s.current + [line + "\n"])
    case Tick => s
    case Rotate => if s.closed then s else Plain(s.segments + [s.current], [], false)
    case Close => s.(closed := true)
    case RotateShared => if s.closed then s else Plain(s.segments + [s.current], [], false)
  }

  function PlainRun(ops: seq<Op>): Plain
    decreases |ops|
  {
    if ops == [] then Plain([], [], false) else PlainApply(PlainRun(ops[..|ops| - 1]), ops[|ops| - 1])
  }

  /** Segment by segment the same bytes; the open segment may still be partly in the buffer. */
  ghost predicate Refines(s: LogState, p: Plain) {
    && s.closed == p.closed
    && |s.segments| == |p.segments|
    && (forall i :: 0 <= i < |s.segments| ==> s.segments[i] == Concat(p.segments[i]))
    && s.current + s.buffered == Concat(p.current)
  }

  lemma WriteRefines(s: LogState, p: Plain, line: Bytes)
    requires Valid(s) && Refines(s, p)
    ensures Refines(Written(s, line + "\n"), p.(current := p.current + [line + "\n"]))
  {
    BufWriteConserves(s.size, s.current, s.buffered, line + "\n");
    ConcatSnoc(p.current, line + "\n");
  }

  lemma StepRefines(s: LogState, p: Plain, op: Op)
    requires Valid(s) && Refines(s, p) && !op.RotateShared?
    ensures Refines(Apply(s, op), PlainApply(p, op))
  {
    match op
    case Log(line) => WriteRefines(s, p, line);
    case LateWrite(line) => WriteRefines(s, p, line);
    case Tick => assert s.current + s.buffered + [] == s.current + s.buffered;
    case Rotate => assert s.current + s.buffered + [] == s.current + s.buffered;
    case Close => assert s.current + s.buffered + [] == s.current + s.buffered;
  }

  /** Rotating the sink alone keeps segments and lines together exactly when the buffer is empty. */
  lemma SharedRotationRefines(s: LogState, p: Plain)
    requires Valid(s) && Refines(s, p) && !s.closed
    ensures Refines(Apply(s, RotateShared), PlainApply(p, RotateShared)) <==> s.buffered == []
    ensures s.buffered != [] ==> Misplaced(Apply(s, RotateShared), PlainApply(p, RotateShared))
  {
    var s', p' := Apply(s, RotateShared), PlainApply(p, RotateShared);
    assert s'.segments[|s.segments|] == s.current && p'.segments[|s.segments|] == p.current;
    if s.buffered == [] {
      assert s.current + [] == s.current;
      assert [] + [] == Concat<char>([]);
    }
  }

  /** Some finished segment differs from the one an unbuffered log would have written. */
  ghost predicate Misplaced(s: LogState, p: Plain) {
    && |s.segments| == |p.segments| && s.closed == p.closed
    && exists i :: 0 <= i < |s.segments| && s.segments[i] != Concat(p.segments[i])
  }

  /** Finished segments are never touched again. */
  lemma MisplacedStays(s: LogState, p: Plain, op: Op)
    requires Valid(s) && Misplaced(s, p)
    ensures Misplaced(Apply(s, op), PlainApply(p, op))
  {
    var i :| 0 <= i < |s.segments| && s.segments[i] != Concat(p.segments[i]);
    var s', p' := Apply(s, op), PlainApply(p, op);
    assert s'.segments[i] == s.segments[i] && p'.segments[i] == p.segments[i];
  }

  /** Every rotation of the sink alone, while the log is open, meets an empty buffer. */
  predicate SharedRotationsQuiet(size: nat, ops: seq<Op>)
    requires size > 0
    decreases |ops|
  {
    if ops == [] then true
    else
      var front := ops[..|ops| - 1];
      && SharedRotationsQuiet(size, front)
      && (ops[|ops| - 1].RotateShared? && !Run(Opened(size), front).closed ==> Run(Opened(size), front).buffered == [])
  }

  lemma {:induction false} RefinedOrMisplaced(size: nat, ops: seq<Op>)
    requires size > 0
    ensures if SharedRotationsQuiet(size, ops) then Refines(Run(Opened(size), ops), PlainRun(ops))
            else Misplaced(Run(Opened(size), ops), PlainRun(ops))
    decreases |ops|
  {
    if ops == [] {
      assert [] + [] == Concat<char>([]);
    } else {
      var front, op := ops[..|ops| - 1], ops[|ops| - 1];
      var s, p := Run(Opened(size), front), PlainRun(front);
      RefinedOrMisplaced(size, front);
      if !SharedRotationsQuiet(size, front) {
        MisplacedStays(s, p, op);
      } else if op.RotateShared? && !s.closed {
        SharedRotationRefines(s, p);
      } else if !op.RotateShared? {
        StepRefines(s, p, op);
      }
    }
  }

  /**
   * At every buffer size and over every run: each finished segment consists of exactly the whole lines an unbuffered log
   * would have put there, and the open segment together with the buffer holds the lines since, if and only if no shared
   * rotation comes while bytes are buffered.
   */
  lemma BufferedLogRefines(size: nat, ops: seq<Op>)
    requires size > 0
    ensures Refines(Run(Opened(size), ops), PlainRun(ops)) <==> SharedRotationsQuiet(size, ops)
  {
    RefinedOrMisplaced(size, ops);
  }

  predicate NoSharedRotation(ops: seq<Op>) {
    forall i :: 0 <= i < |ops| ==> !ops[i].RotateShared?
  }

  /** In particular the log's own rotation never cuts a line. */
  lemma {:induction false} OwnRotationsQuiet(size: nat, ops: seq<Op>)
    requires size > 0 && NoSharedRotation(ops)
    ensures SharedRotationsQuiet(size, ops)
    decreases |ops|
  {
    if ops != [] {
      OwnRotationsQuiet(size, ops[..|ops| - 1]);
    }
  }

  /** All bytes that have left or will leave the log, in order. */
  function Stream(s: LogState): Bytes {
    Concat(s.segments) + s.current + s.buffered
  }

  /** The lines accepted by a run, each with its line break, in lock order. */
  function LinesOf(ops: seq<Op>): seq<Bytes>
    decreases |ops|
  {
    if ops == [] then []
    else
      var front, op := ops[..|ops| - 1], ops[|ops| - 1];
      LinesOf(front) +
      if op.LateWrite? || (op.Log? && !ClosedAfter(front)) then [op.line + "\n"] else []
  }

  predicate ClosedAfter(ops: seq<Op>) {
    exists i :: 0 <= i < |ops| && ops[i].Close?
  }

  lemma {:induction false} ClosedTracked(size: nat, ops: seq<Op>)
    requires size > 0
    ensures Run(Opened(size), ops).closed <==> ClosedAfter(ops)
    decreases |ops|
  {
    if ops != [] {
      var front, op := ops[..|ops| - 1], ops[|ops| - 1];
      ClosedTracked(size, front);
      assert forall i :: 0 <= i < |front| ==> front[i] == ops[i];
      if ClosedAfter(ops) && !op.Close? {
        var i :| 0 <= i < |ops| && ops[i].Close?;
        assert front[i].Close?;
      }
    }
  }

  lemma CutConserves(s: LogState)
    ensures Stream(Cut(s)) == Stream(s)
  {
    ConcatSnoc(s.segments, s.current);
  }

  lemma FlushConserves(s: LogState)
    ensures Stream(Flushed(s)) == Stream(s)
  {
  }

  lemma WriteConserves(s: LogState, p: Bytes)
    requires Valid(s)
    ensures Stream(Written(s, p)) == Stream(s) + p
  {
    BufWriteConserves(s.size, s.current, s.buffered, p);
    var w := BufWrite(s.size, s.current, s.buffered, p);
    assert Concat(s.segments) + w.0 + w.1 == Concat(s.segments) + (w.0 + w.1);
    assert Concat(s.segments) + s.current + s.buffered + p == Concat(s.segments) + (s.current + s.buffered + p);
  }

  lemma StepConserves(s: LogState, op: Op)
    requires Valid(s)
    ensures Stream(Apply(s, op)) == Stream(s) + if op.LateWrite? || (op.Log? && !s.closed) then op.line + "\n" else []
  {
    FlushConserves(s);
    match op
    case Log(line) => WriteConserves(s, line + "\n");
    case LateWrite(line) => WriteConserves(s, line + "\n");
    case Rotate => CutConserves(Flushed(s));
    case RotateShared => CutConserves(s);
    case _ =>
  }

  /** Conservation: in every run -- shared rotations and late writes included -- no byte of a line is lost, doubled or moved. */
  lemma {:induction false} LogConserves(size: nat, ops: seq<Op>)
    requires size > 0
    ensures Stream(Run(Opened(size), ops)) == Concat(LinesOf(ops))
    decreases |ops|
  {
    if ops != [] {
      var front, op := ops[..|ops| - 1], ops[|ops| - 1];
      LogConserves(size, front);
      ClosedTracked(size, front);
      StepConserves(Run(Opened(size), front), op);
      if LinesOf(ops) != LinesOf(front) {
        ConcatSnoc(LinesOf(front), op.line + "\n");
      }
    }
  }

  /** When no line holds a line break, the lines can be read back from the bytes. */
  lemma LogReadsBack(size: nat, ops: seq<Op>)
    requires size > 0
    requires forall i :: 0 <= i < |ops| && (ops[i].Log? || ops[i].LateWrite?) ==> Without(ops[i].line, '\n')
    ensures Terminated(LinesOf(ops), Split(Stream(Run(Opened(size), ops)), '\n'))
  {
    LogConserves(size, ops);
    LinesBroken(ops);
    SplitLines(LinesOf(ops));
  }

  ghost predicate Broken(l: Bytes) {
    |l| > 0 && l[|l| - 1] == '\n' && Without(l[..|l| - 1], '\n')
  }

  lemma {:induction false} LinesBroken(ops: seq<Op>)
    requires forall i :: 0 <= i < |ops| && (ops[i].Log? || ops[i].LateWrite?) ==> Without(ops[i].line, '\n')
    ensures forall i :: 0 <= i < |LinesOf(ops)| ==> Broken(LinesOf(ops)[i])
    decreases |ops|
  {
    if ops != [] {
      var front, op := ops[..|ops| - 1], ops[|ops| - 1];
      assert forall i :: 0 <= i < |front| ==> front[i] == ops[i];
      LinesBroken(front);
      if op.Log? || op.LateWrite? {
        assert (op.line + "\n")[..|op.line|] == op.line;
      }
    }
  }

  /** ls are the parts but the last, each with its line break, and the last part is empty. */
  ghost predicate Terminated(ls: seq<Bytes>, parts: seq<Bytes>) {
    && |parts| == |ls| + 1 && parts[|ls|] == []
    && forall i :: 0 <= i < |ls| ==> ls[i] == parts[i] + "\n"
  }

  lemma TerminatedMore(ls: seq<Bytes>, a: Bytes, rest: seq<Bytes>)
    requires ls != [] && ls[0] == a + "\n" && Terminated(ls[1..], rest)
    ensures Terminated(ls, [a] + rest)
  {
    forall i | 0 < i < |ls|
      ensures ls[i] == ([a] + rest)[i] + "\n"
    {
      assert ls[i] == ls[1..][i - 1];
    }
  }

  lemma {:induction false} SplitLines(ls: seq<Bytes>)
    requires forall i :: 0 <= i < |ls| ==> Broken(ls[i])
    ensures Terminated(ls, Split(Concat(ls), '\n'))
    decreases |ls|
  {
    if ls == [] {
      SplitOne([], '\n', []);
    } else {
      var a := ls[0][..|ls[0]| - 1];
      assert a + "\n" == ls[0];
      SplitLines(ls[1..]);
      SplitOne(a, '\n', Concat(ls[1..]));
      TerminatedMore(ls, a, Split(Concat(ls[1..]), '\n'));
    }
  }

  // ----- Close -----

  predicate Flushes(op: Op) {
    op.Tick? || op.Rotate?
  }

  /** A line is written at position i after a Close, and nothing flushes the buffer from there on. */
  predicate UnflushedAt(ops: seq<Op>, i: nat)
    requires i < |ops|
  {
    ops[i].LateWrite? && ClosedAfter(ops[..i]) && forall j :: i < j < |ops| ==> !Flushes(ops[j])
  }

  /** A Log that passed its check before Close got the lock after it, and no flush has followed. */
  predicate Unflushed(ops: seq<Op>) {
    exists i :: 0 <= i < |ops| && UnflushedAt(ops, i)
  }

  lemma UnflushedFront(ops: seq<Op>)
    requires ops != []
    ensures var front, op := ops[..|ops| - 1], ops[|ops| - 1];
            Unflushed(ops) <==> (op.LateWrite? && ClosedAfter(front)) || (Unflushed(front) && !Flushes(op))
  {
    var front, op := ops[..|ops| - 1], ops[|ops| - 1];
    if Unflushed(ops) {
      var i :| 0 <= i < |ops| && UnflushedAt(ops, i);
      if i < |front| {
        assert front[..i] == ops[..i] && front[i] == ops[i];
        assert !Flushes(ops[|front|]);
        forall j | i < j < |front|
          ensures !Flushes(front[j])
        {
          assert !Flushes(ops[j]);
        }
        assert UnflushedAt(front, i);
      } else {
        assert ops[..i] == front;
      }
    }
    if op.LateWrite? && ClosedAfter(front) {
      assert UnflushedAt(ops, |front|);
    }
    if Unflushed(front) && !Flushes(op) {
      var i :| 0 <= i < |front| && UnflushedAt(front, i);
      assert front[..i] == ops[..i] && front[i] == ops[i];
      forall j | i < j < |ops|
        ensures !Flushes(ops[j])
      {
        assert j < |front| ==> front[j] == ops[j] && !Flushes(front[j]);
      }
      assert UnflushedAt(ops, i);
    }
  }

  lemma ClosedFront(ops: seq<Op>)
    requires ops != []
    ensures ClosedAfter(ops) <==> ClosedAfter(ops[..|ops| - 1]) || ops[|ops| - 1].Close?
  {
    var front := ops[..|ops| - 1];
    assert forall i :: 0 <= i < |front| ==> front[i] == ops[i];
    if ClosedAfter(ops) && !ops[|ops| - 1].Close? {
      var i :| 0 <= i < |ops| && ops[i].Close?;
      assert front[i].Close?;
    }
    if ClosedAfter(front) {
      var i :| 0 <= i < |front| && front[i].Close?;
      assert ops[i].Close?;
    }
  }

  /** Nothing is buffered once a closed log has flushed its late lines. */
  lemma {:induction false} FlushedAfterClose(size: nat, ops: seq<Op>)
    requires size > 0 && ClosedAfter(ops) && !Unflushed(ops)
    ensures Run(Opened(size), ops).buffered == []
    decreases |ops|
  {
    var front, op := ops[..|ops| - 1], ops[|ops| - 1];
    ClosedTracked(size, front);
    ClosedFront(ops);
    UnflushedFront(ops);
    if ClosedAfter(front) && !Flushes(op) {
      FlushedAfterClose(size, front);
    }
  }

  /** The bytes of all lines of a run, whether accepted or not. */
  function Volume(ops: seq<Op>): nat
    decreases |ops|
  {
    if ops == [] then 0
    else
      var op := ops[|ops| - 1];
      Volume(ops[..|ops| - 1]) + if op.Log? || op.LateWrite? then |op.line| + 1 else 0
  }

  /** A buffer larger than everything written is emptied by flushes only. */
  lemma {:induction false} RoomyBuffer(size: nat, ops: seq<Op>)
    requires size > Volume(ops)
    ensures |Run(Opened(size), ops).buffered| <= Volume(ops)
    ensures Unflushed(ops) ==> Run(Opened(size), ops).buffered != []
    decreases |ops|
  {
    if ops != [] {
      var front, op := ops[..|ops| - 1], ops[|ops| - 1];
      RoomyBuffer(size, front);
      ClosedTracked(size, front);
      UnflushedFront(ops);
      if Unflushed(front) {
        UnflushedIsClosed(front);
      }
      RoomyStep(Run(Opened(size), front), op, Volume(front));
    }
  }

  lemma UnflushedIsClosed(ops: seq<Op>)
    requires Unflushed(ops)
    ensures ClosedAfter(ops)
  {
    var i :| 0 <= i < |ops| && UnflushedAt(ops, i);
    var j :| 0 <= j < i && ops[..i][j].Close?;
    assert ops[j].Close?;
  }

  lemma RoomyStep(s: LogState, op: Op, volume: nat)
    requires Valid(s) && |s.buffered| <= volume
    requires s.size > volume + if op.Log? || op.LateWrite? then |op.line| + 1 else 0
    ensures var s' := Apply(s, op);
            && |s'.buffered| <= volume + (if op.Log? || op.LateWrite? then |op.line| + 1 else 0)
            && (op.LateWrite? ==> s'.buffered != [])
            && (s.closed && s.buffered != [] && !Flushes(op) ==> s'.buffered != [])
  {
    if op.Log? || op.LateWrite? {
      assert |op.line + "\n"| == |op.line| + 1;
    }
  }

  /**
   * After a close nothing is buffered, at any buffer size, if and only if no line that passed its check before the close
   * has been written since without a later flush.
   */
  lemma NothingBufferedAfterClose(ops: seq<Op>)
    requires ClosedAfter(ops)
    ensures (forall size :: size > 0 ==> Run(Opened(size), ops).buffered == []) <==> !Unflushed(ops)
  {
    if Unflushed(ops) {
      RoomyBuffer(Volume(ops) + 1, ops);
    } else {
      forall size | size > 0
        ensures Run(Opened(size), ops).buffered == []
      {
        FlushedAfterClose(size, ops);
      }
    }
  }

  /** The line goes past the buffer instead of ending in it: it is longer than the buffer, after filling it up if need be. */
  predicate Bypasses(s: LogState, line: Bytes) {
    |line| + 1 > s.size + if s.buffered == [] then 0 else s.size - |s.buffered|
  }

  lemma BypassExactly(s: LogState, line: Bytes)
    requires Valid(s)
    ensures Written(s, line + "\n").buffered == [] <==> Bypasses(s, line)
  {
    var p := line + "\n";
    assert |p| == |line| + 1;
    if |p| > s.size - |s.buffered| && s.buffered != [] {
      var k := s.size - |s.buffered|;
      assert BufWrite(s.size, s.current, s.buffered, p) == BufWrite(s.size, s.current + (s.buffered + p[..k]), [], p[k..]);
    }
  }

  /** At this buffer size: the last line written after a Close does not bypass the buffer, and nothing flushes it. */
  predicate LeftBehind(size: nat, ops: seq<Op>)
    requires size > 0
    decreases |ops|
  {
    if ops == [] then false
    else
      var front, op := ops[..|ops| - 1], ops[|ops| - 1];
      if op.LateWrite? && ClosedAfter(front) then !Bypasses(Run(Opened(size), front), op.line)
      else LeftBehind(size, front) && !Flushes(op)
  }

  /** For each single buffer size: after a close nothing is buffered if and only if no such line was left behind. */
  lemma {:induction false} BufferedAfterCloseExactly(size: nat, ops: seq<Op>)
    requires size > 0 && ClosedAfter(ops)
    ensures Run(Opened(size), ops).buffered == [] <==> !LeftBehind(size, ops)
    decreases |ops|
  {
    var front, op := ops[..|ops| - 1], ops[|ops| - 1];
    ClosedTracked(size, front);
    ClosedFront(ops);
    if ClosedAfter(front) {
      BufferedAfterCloseExactly(size, front);
      if op.LateWrite? {
        BypassExactly(Run(Opened(size), front), op.line);
      }
    } else {
      NotLeftBehindBeforeClose(size, front);
    }
  }

  lemma {:induction false} NotLeftBehindBeforeClose(size: nat, ops: seq<Op>)
    requires size > 0 && !ClosedAfter(ops)
    ensures !LeftBehind(size, ops)
    decreases |ops|
  {
    if ops != [] {
      ClosedFront(ops);
      NotLeftBehindBeforeClose(size, ops[..|ops| - 1]);
    }
  }

  /** For instance, a line that fits in the buffer stays there. */
  lemma LateLineStaysBuffered(size: nat, line: Bytes)
    requires |line| < size
    ensures Run(Opened(size), [Close, LateWrite(line)]).buffered == line + "\n"
  {
    var ops := [Close, LateWrite(line)];
    assert ops[..1] == [Close] && ops[..1][..0] == [];
    assert Run(Opened(size), [Close]) == Opened(size).(closed := true);
  }

  // ----- Rotation behind the log's back -----

  /** The bytes end where one of the lines ends, or before the first. */
  ghost predicate AtLineEnd(lines: seq<Bytes>, bytes: Bytes) {
    exists k :: 0 <= k <= |lines| && bytes == Concat(lines[..k])
  }

  /** The bytes are some of the last lines, whole. */
  ghost predicate LastLines(lines: seq<Bytes>, bytes: Bytes) {
    exists k :: 0 <= k <= |lines| && bytes == Concat(lines[k..])
  }

  /** The first n segments together end at the end of a line. */
  ghost predicate EndsWhole(s: LogState, lines: seq<Bytes>, n: nat)
    requires n <= |s.segments|
  {
    AtLineEnd(lines, Concat(s.segments[..n]))
  }

  /** Every segment ends at the end of a line, so every segment consists of whole lines. */
  ghost predicate WholeLines(s: LogState, lines: seq<Bytes>) {
    forall n :: 0 < n <= |s.segments| ==> EndsWhole(s, lines, n)
  }

  /** Every rotation of the sink alone, while the log is open, meets a buffer of whole lines. */
  ghost predicate SharedRotationsClean(size: nat, ops: seq<Op>)
    requires size > 0
    decreases |ops|
  {
    if ops == [] then true
    else
      var front := ops[..|ops| - 1];
      && SharedRotationsClean(size, front)
      && (ops[|ops| - 1].RotateShared? && !Run(Opened(size), front).closed ==>
            LastLines(LinesOf(front), Run(Opened(size), front).buffered))
  }

  lemma ConcatCut<T>(parts: seq<seq<T>>, k: nat)
    requires k <= |parts|
    ensures Concat(parts[..k]) + Concat(parts[k..]) == Concat(parts)
  {
    ConcatAppend(parts[..k], parts[k..]);
    assert parts[..k] + parts[k..] == parts;
  }

  /** Cutting the lines' bytes in two ends at a line exactly when the rest begins at one. */
  lemma CutAtLine(lines: seq<Bytes>, x: Bytes, rest: Bytes)
    requires x + rest == Concat(lines)
    ensures AtLineEnd(lines, x) <==> LastLines(lines, rest)
  {
    if k :| 0 <= k <= |lines| && x == Concat(lines[..k]) {
      ConcatCut(lines, k);
      assert rest == Concat(lines)[|x|..] == Concat(lines[k..]);
    }
    if k :| 0 <= k <= |lines| && rest == Concat(lines[k..]) {
      ConcatCut(lines, k);
      assert x == Concat(lines)[..|Concat(lines)| - |rest|] == Concat(lines[..k]);
    }
  }

  /** A later line does not change where earlier bytes end. */
  lemma EarlierLineEnds(lines: seq<Bytes>, line: Bytes, x: Bytes, rest: Bytes)
    requires line != [] && x + rest == Concat(lines)
    ensures AtLineEnd(lines + [line], x) <==> AtLineEnd(lines, x)
  {
    var more := lines + [line];
    ConcatSnoc(lines, line);
    assert more[..|more|] == more;
    if k :| 0 <= k <= |more| && x == Concat(more[..k]) {
      assert k < |more| && more[..k] == lines[..k];
    }
    if k :| 0 <= k <= |lines| && x == Concat(lines[..k]) {
      assert more[..k] == lines[..k];
    }
  }

  /** What follows the first i segments. */
  function Behind(s: LogState, i: nat): Bytes
    requires i <= |s.segments|
  {
    Concat(s.segments[i..]) + s.current + s.buffered
  }

  lemma StreamCut(s: LogState, i: nat)
    requires i <= |s.segments|
    ensures Concat(s.segments[..i]) + Behind(s, i) == Stream(s)
  {
    ConcatCut(s.segments, i);
  }

  lemma WriteKeepsWhole(s: LogState, s': LogState, lines: seq<Bytes>, line: Bytes)
    requires Stream(s) == Concat(lines) && s'.segments == s.segments && line != []
    ensures WholeLines(s', lines + [line]) <==> WholeLines(s, lines)
  {
    forall n | 0 < n <= |s.segments|
      ensures EndsWhole(s', lines + [line], n) <==> EndsWhole(s, lines, n)
    {
      StreamCut(s, n);
      EarlierLineEnds(lines, line, Concat(s.segments[..n]), Behind(s, n));
    }
  }

  lemma SameSegments(s: LogState, s': LogState, lines: seq<Bytes>)
    requires s'.segments == s.segments
    ensures WholeLines(s', lines) <==> WholeLines(s, lines)
  {
    assert forall n :: 0 < n <= |s.segments| ==> (EndsWhole(s', lines, n) <==> EndsWhole(s, lines, n));
  }

  lemma CutKeepsEnds(s: LogState, lines: seq<Bytes>, n: nat)
    requires n <= |s.segments|
    ensures EndsWhole(Cut(s), lines, n) <==> EndsWhole(s, lines, n)
  {
    assert Cut(s).segments[..n] == s.segments[..n];
  }

  lemma CutEnds(s: LogState, lines: seq<Bytes>)
    requires Stream(s) == Concat(lines)
    ensures EndsWhole(Cut(s), lines, |s.segments| + 1) <==> LastLines(lines, s.buffered)
  {
    assert Cut(s).segments[..|s.segments| + 1] == s.segments + [s.current];
    ConcatSnoc(s.segments, s.current);
    CutAtLine(lines, Concat(s.segments + [s.current]), s.buffered);
  }

  lemma CutKeepsWhole(s: LogState, lines: seq<Bytes>)
    requires Stream(s) == Concat(lines)
    ensures WholeLines(Cut(s), lines) <==> WholeLines(s, lines) && LastLines(lines, s.buffered)
  {
    var n := |s.segments|;
    CutEnds(s, lines);
    if WholeLines(Cut(s), lines) {
      assert EndsWhole(Cut(s), lines, n + 1);
      forall k | 0 < k <= n
        ensures EndsWhole(s, lines, k)
      {
        CutKeepsEnds(s, lines, k);
      }
    }
    if WholeLines(s, lines) && LastLines(lines, s.buffered) {
      forall k | 0 < k <= n + 1
        ensures EndsWhole(Cut(s), lines, k)
      {
        if k <= n {
          CutKeepsEnds(s, lines, k);
        }
      }
    }
  }

  /** Nothing buffered is no last line at all. */
  lemma NoLastLine(lines: seq<Bytes>)
    ensures LastLines(lines, [])
  {
    assert lines[|lines|..] == [] && Concat<char>([]) == [];
  }

  /**
   * At every buffer size and over every run, shared rotations and late writes included: every segment consists of whole
   * lines, if and only if every rotation of the sink alone meets a buffer of whole lines.
   */
  lemma {:induction false} SegmentsWholeExactly(size: nat, ops: seq<Op>)
    requires size > 0
    ensures WholeLines(Run(Opened(size), ops), LinesOf(ops)) <==> SharedRotationsClean(size, ops)
    decreases |ops|
  {
    if ops != [] {
      var front, op := ops[..|ops| - 1], ops[|ops| - 1];
      var s, lines := Run(Opened(size), front), LinesOf(front);
      SegmentsWholeExactly(size, front);
      LogConserves(size, front);
      ClosedTracked(size, front);
      var accepted := op.LateWrite? || (op.Log? && !s.closed);
      assert LinesOf(ops) == if accepted then lines + [op.line + "\n"] else lines;
      if accepted {
        WriteKeepsWhole(s, Apply(s, op), lines, op.line + "\n");
      } else if op.Rotate? && !s.closed {
        FlushConserves(s);
        SameSegments(s, Flushed(s), lines);
        CutKeepsWhole(Flushed(s), lines);
        NoLastLine(lines);
      } else if op.RotateShared? && !s.closed {
        CutKeepsWhole(s, lines);
      } else {
        SameSegments(s, Apply(s, op), lines);
      }
    }
  }

  /** What lies between two line ends is a stretch of the lines. */
  lemma BetweenEnds(lines: seq<Bytes>, j: nat, k: nat, bytes: Bytes)
    requires j <= |lines| && k <= |lines| && Concat(lines[..j]) + bytes == Concat(lines[..k])
    ensures bytes == if j <= k then Concat(lines[j..k]) else []
  {
    if j <= k {
      ConcatCut(lines[..k], j);
      assert lines[..k][..j] == lines[..j] && lines[..k][j..] == lines[j..k];
      assert Concat(lines[..k])[|Concat(lines[..j])|..] == bytes;
    } else {
      ConcatCut(lines[..j], k);
      assert lines[..j][..k] == lines[..k];
    }
  }

  /** In particular each segment is a stretch of the lines. */
  lemma SegmentIsLines(s: LogState, lines: seq<Bytes>, i: nat) returns (j: nat, k: nat)
    requires WholeLines(s, lines) && i < |s.segments|
    ensures j <= k <= |lines| && s.segments[i] == Concat(lines[j..k])
  {
    assert s.segments[..i + 1] == s.segments[..i] + [s.segments[i]];
    ConcatSnoc(s.segments[..i], s.segments[i]);
    assert EndsWhole(s, lines, i + 1);
    k :| 0 <= k <= |lines| && Concat(s.segments[..i + 1]) == Concat(lines[..k]);
    j := 0;
    if i > 0 {
      assert EndsWhole(s, lines, i);
      j :| 0 <= j <= |lines| && Concat(s.segments[..i]) == Concat(lines[..j]);
    }
    BetweenEnds(lines, j, k, s.segments[i]);
    if j > k {
      j := k;
    }
  }

  /** For instance with one byte too many: with a 4-byte buffer the first segment here ends inside the second line. */
  lemma SharedRotationCutsLine()
    ensures Run(Opened(4), [Log("a"), Log("bcd"), RotateShared]).segments == ["a\nbc"]
  {
    var ops := [Log("a"), Log("bcd"), RotateShared];
    assert ops[..2] == [Log("a"), Log("bcd")] && ops[..2][..1] == [Log("a")] && ops[..2][..1][..0] == [];
    var s1 := Run(Opened(4), [Log("a")]);
    assert "a" + "\n" == "a\n" && [] + "a\n" == "a\n";
    assert s1.buffered == "a\n" && s1.current == [] && !s1.closed;
    var w := BufWrite(4, [], "a\n", "bcd\n");
    assert "bcd\n"[..2] == "bc" && "bcd\n"[2..] == "d\n";
    assert [] + ("a\n" + "bc") == "a\nbc";
    assert w == BufWrite(4, "a\nbc", [], "d\n") == ("a\nbc", [] + "d\n");
    var s2 := Run(Opened(4), [Log("a"), Log("bcd")]);
    assert "bcd" + "\n" == "bcd\n" && s2 == Written(s1, "bcd\n");
    assert s2.current == "a\nbc";
  }
}

/** The 15-field JSON record of the access log (pkg/logger/accesslog/json.go) and its recovery from the line. */
module JsonLine {
  import opened Prelude
  import opened Digits
  import opened JsonLog
  import D = Dates

  // ----- Flat JSON objects -----

  /** Raw is a string written between plain quotes, without escaping. */
  datatype Val = Str(s: Bytes) | Num(n: nat) | Raw(s: Bytes)

  type Member = (Bytes, Val)

  function ShowVal(v: Val): Bytes {
    match v
    case Str(s) => Quote(s)
    case Num(n) => Decimal(n)
    case Raw(s) => "\"" + s + "\""
  }

  function ShowMember(m: Member): Bytes {
    Quote(m.0) + ":" + ShowVal(m.1)
  }

  /** Further members, each after a comma, and the closing brace. */
  function ShowTail(ms: seq<Member>): Bytes {
    if ms == [] then "}" else "," + ShowMember(ms[0]) + ShowTail(ms[1..])
  }

  function ShowObject(ms: seq<Member>): Bytes
    requires ms != []
  {
    "{" + ShowMember(ms[0]) + ShowTail(ms[1..])
  }

  /** The digits s starts with. */
  function DigitRun(s: Bytes): (k: nat)
    ensures k <= |s| && AllDigits(s[..k]) && (k < |s| ==> !IsDigit(s[k]))
  {
    if s == [] || !IsDigit(s[0]) then 0
    else
      var k := 1 + DigitRun(s[1..]);
      assert s[..k] == [s[0]] + s[1..][..k - 1];
      k
  }

  /** A string or a natural number without leading zeros. */
  function ReadVal(s: Bytes): Option<(Val, Bytes)> {
    if s == [] then None
    else if s[0] == '"' then
      match ReadString(s)
      case None => None
      case Some((v, rest)) => Some((Str(v), rest))
    else
      var k := DigitRun(s);
      if k == 0 || (k > 1 && s[0] == '0') then None else Some((Num(Parse(s[..k])), s[k..]))
  }

  function ReadMember(s: Bytes): Option<(Member, Bytes)> {
    match ReadString(s)
    case None => None
    case Some((key, rest)) =>
      if rest == [] || rest[0] != ':' then None
      else
        match ReadVal(rest[1..])
        case None => None
        case Some((v, rest')) => Some(((key, v), rest'))
  }

  /** Members up to the closing brace; the line ends there. */
  function ReadMembers(s: Bytes, fuel: nat): Option<seq<Member>>
    decreases fuel
  {
    if fuel == 0 then None
    else
      match ReadMember(s)
      case None => None
      case Some((m, rest)) =>
        if rest == "}" then Some([m])
        else if rest == [] || rest[0] != ',' then None
        else
          match ReadMembers(rest[1..], fuel - 1)
          case None => None
          case Some(ms) => Some([m] + ms)
  }

  /** A flat object; every member takes at least one byte, so the length bounds their number. */
  function ReadObject(s: Bytes): Option<seq<Member>> {
    if s == [] || s[0] != '{' then None else ReadMembers(s[1..], |s|)
  }

  lemma {:induction false} DigitRunOf(ds: Bytes, rest: Bytes)
    requires AllDigits(ds) && (rest == [] || !IsDigit(rest[0]))
    ensures DigitRun(ds + rest) == |ds|
  {
    if ds == [] {
      assert ds + rest == rest;
    } else {
      assert (ds + rest)[1..] == ds[1..] + rest;
      DigitRunOf(ds[1..], rest);
    }
  }

  lemma ValRoundTrip(v: Val, rest: Bytes)
    requires !v.Raw?
    requires rest == [] || !IsDigit(rest[0])
    ensures ReadVal(ShowVal(v) + rest) == Some((v, rest))
  {
    match v
    case Str(s) => QuoteRoundTrip(s, rest);
    case Num(n) =>
      DigitRunOf(Decimal(n), rest);
      ParseDecimal(n);
      DecimalCanonical(n);
      assert (Decimal(n) + rest)[..|Decimal(n)|] == Decimal(n);
      assert (Decimal(n) + rest)[|Decimal(n)|..] == rest;
  }

  lemma ReadMemberParts(s: Bytes, key: Bytes, tail: Bytes, v: Val, rest: Bytes)
    requires ReadString(s) == Some((key, tail)) && tail != [] && tail[0] == ':' && ReadVal(tail[1..]) == Some((v, rest))
    ensures ReadMember(s) == Some(((key, v), rest))
  {
  }

  lemma KeyedVal(key: Bytes, val: Bytes, tail: Bytes)
    ensures key + ":" + val + tail == key + (":" + (val + tail))
  {
  }

  lemma MemberRoundTrip(m: Member, rest: Bytes)
    requires !m.1.Raw?
    requires rest == [] || !IsDigit(rest[0])
    ensures ReadMember(ShowMember(m) + rest) == Some((m, rest))
  {
    var val := ShowVal(m.1) + rest;
    KeyedVal(Quote(m.0), ShowVal(m.1), rest);
    ValRoundTrip(m.1, rest);
    KeyedRoundTrip(m.0, val, m.1, rest);
  }

  lemma KeyedRoundTrip(key: Bytes, val: Bytes, v: Val, rest: Bytes)
    requires ReadVal(val) == Some((v, rest))
    ensures ReadMember(Quote(key) + (":" + val)) == Some(((key, v), rest))
  {
    QuoteRoundTrip(key, ":" + val);
    assert (":" + val)[1..] == val;
    ReadMemberParts(Quote(key) + (":" + val), key, ":" + val, v, rest);
  }

  lemma TailStarts(ms: seq<Member>)
    ensures ShowTail(ms) != [] && !IsDigit(ShowTail(ms)[0]) && |ShowTail(ms)| > |ms|
  {
    if ms != [] {
      TailStarts(ms[1..]);
    }
  }

  predicate NoRaw(ms: seq<Member>) {
    forall i :: 0 <= i < |ms| ==> !ms[i].1.Raw?
  }

  lemma ReadLast(s: Bytes, m: Member, fuel: nat)
    requires ReadMember(s) == Some((m, "}")) && fuel >= 1
    ensures ReadMembers(s, fuel) == Some([m])
  {
  }

  lemma ReadOneMore(s: Bytes, m: Member, rest: Bytes, ms: seq<Member>, fuel: nat)
    requires ReadMember(s) == Some((m, rest)) && rest != "}" && rest != [] && rest[0] == ','
    requires fuel >= 1 && ReadMembers(rest[1..], fuel - 1) == Some(ms)
    ensures ReadMembers(s, fuel) == Some([m] + ms)
  {
  }

  /** s is read member by member as ms. */
  ghost predicate ReadsAs(s: Bytes, ms: seq<Member>)
    requires ms != []
    decreases |ms|, 1
  {
    exists rest :: ReadMember(s) == Some((ms[0], rest)) && GoesOn(rest, ms)
  }

  /** What follows the first member: the closing brace, or a comma and the other members. */
  ghost predicate GoesOn(rest: Bytes, ms: seq<Member>)
    requires ms != []
    decreases |ms|, 0
  {
    if |ms| == 1 then rest == "}" else rest != [] && rest != "}" && rest[0] == ',' && ReadsAs(rest[1..], ms[1..])
  }

  lemma {:induction false} ReadsMembers(s: Bytes, ms: seq<Member>, fuel: nat)
    requires ms != [] && ReadsAs(s, ms) && fuel >= |ms|
    ensures ReadMembers(s, fuel) == Some(ms)
    decreases |ms|
  {
    var rest :| ReadMember(s) == Some((ms[0], rest)) && GoesOn(rest, ms);
    var m, more := ms[0], ms[1..];
    if |ms| == 1 {
      assert ms == [m];
      ReadLast(s, m, fuel);
    } else {
      assert ms == [m] + more;
      GoesOnWith(rest, ms, more);
      ReadsMembers(rest[1..], more, fuel - 1);
      ReadOneMore(s, m, rest, more, fuel);
    }
  }

  lemma GoesOnWith(rest: Bytes, ms: seq<Member>, more: seq<Member>)
    requires |ms| > 1 && more == ms[1..] && GoesOn(rest, ms)
    ensures rest != [] && rest != "}" && rest[0] == ',' && ReadsAs(rest[1..], more)
  {
  }

  lemma TailRest(ms: seq<Member>)
    requires ms != []
    ensures ShowTail(ms)[1..] == ShowMember(ms[0]) + ShowTail(ms[1..])
    ensures ShowTail(ms)[0] == ',' && ShowTail(ms) != "}"
  {
    AfterComma(ShowMember(ms[0]), ShowTail(ms[1..]));
  }

  lemma AfterComma(a: Bytes, b: Bytes)
    ensures var s := "," + a + b; s[0] == ',' && s[1..] == a + b && s != "}"
  {
  }

  lemma {:induction false} ShownIsRead(ms: seq<Member>)
    requires NoRaw(ms) && ms != []
    ensures ReadsAs(ShowMember(ms[0]) + ShowTail(ms[1..]), ms)
  {
    var tail := ShowTail(ms[1..]);
    TailStarts(ms[1..]);
    MemberRoundTrip(ms[0], tail);
    if |ms| > 1 {
      TailRest(ms[1..]);
      ShownIsRead(ms[1..]);
    }
    assert GoesOn(tail, ms);
  }

  lemma ReadBraced(t: Bytes)
    ensures ReadObject("{" + t) == ReadMembers(t, |t| + 1)
  {
    var s := "{" + t;
    assert s[1..] == t && s[0] == '{';
  }

  lemma ObjectRoundTrip(ms: seq<Member>)
    requires NoRaw(ms) && ms != []
    ensures ReadObject(ShowObject(ms)) == Some(ms)
  {
    var t := ShowMember(ms[0]) + ShowTail(ms[1..]);
    TailStarts(ms[1..]);
    ShownIsRead(ms);
    ReadsMembers(t, ms, |t| + 1);
    ReadBraced(t);
    Assoc("{", ShowMember(ms[0]), ShowTail(ms[1..]));
  }

  // ----- Members with raw strings -----

  /** The member a reader should see. */
  function Escapable(m: Member): (q: Member)
    ensures !q.1.Raw?
  {
    if m.1.Raw? then (m.0, Str(m.1.s)) else m
  }

  function EscapableAll(ms: seq<Member>): (qs: seq<Member>)
    ensures |qs| == |ms| && NoRaw(qs)
  {
    seq(|ms|, i requires 0 <= i < |ms| => Escapable(ms[i]))
  }

  /** The raw strings need no escape. */
  predicate RawsClean(ms: seq<Member>) {
    forall i :: 0 <= i < |ms| && ms[i].1.Raw? ==> Clean(ms[i].1.s)
  }

  lemma CleanShownAlike(m: Member)
    requires m.1.Raw? ==> Clean(m.1.s)
    ensures ShowMember(Escapable(m)) == ShowMember(m)
  {
    if m.1.Raw? {
      CleanQuote(m.1.s);
    }
  }

  lemma {:induction false} SameTail(a: seq<Member>, b: seq<Member>)
    requires |a| == |b| && forall i :: 0 <= i < |a| ==> ShowMember(a[i]) == ShowMember(b[i])
    ensures ShowTail(a) == ShowTail(b)
  {
    if a != [] {
      SameTail(a[1..], b[1..]);
    }
  }

  lemma SameObject(a: seq<Member>, b: seq<Member>)
    requires |a| == |b| > 0 && forall i :: 0 <= i < |a| ==> ShowMember(a[i]) == ShowMember(b[i])
    ensures ShowObject(a) == ShowObject(b)
  {
    SameTail(a[1..], b[1..]);
  }

  /** Clean raw strings make no difference to the object shown. */
  lemma CleanObjectShown(ms: seq<Member>)
    requires ms != [] && RawsClean(ms)
    ensures ShowObject(ms) == ShowObject(EscapableAll(ms))
  {
    forall i | 0 <= i < |ms|
      ensures ShowMember(EscapableAll(ms)[i]) == ShowMember(ms[i])
    {
      CleanShownAlike(ms[i]);
    }
    SameObject(ms, EscapableAll(ms));
  }

  lemma ReadMemberGave(s: Bytes, key: Bytes, tail: Bytes, m: Member, rest: Bytes)
    requires ReadString(s) == Some((key, tail)) && ReadMember(s) == Some((m, rest))
    ensures tail != [] && tail[0] == ':' && m.0 == key && ReadVal(tail[1..]) == Some((m.1, rest))
  {
  }

  lemma ReadValGave(s: Bytes, v: Bytes, rest: Bytes)
    requires s != [] && s[0] == '"' && ReadVal(s) == Some((Str(v), rest))
    ensures ReadString(s) == Some((v, rest))
  {
  }

  lemma ReadKeyedGave(key: Bytes, val: Bytes, m: Member, rest: Bytes)
    requires ReadMember(Quote(key) + (":" + val)) == Some((m, rest))
    ensures m.0 == key && ReadVal(val) == Some((m.1, rest))
  {
    QuoteRoundTrip(key, ":" + val);
    assert (":" + val)[1..] == val;
    ReadMemberGave(Quote(key) + (":" + val), key, ":" + val, m, rest);
  }

  lemma RawValGave(raw: Bytes, tail: Bytes, rest: Bytes)
    requires ReadVal("\"" + raw + "\"" + tail) == Some((Str(raw), rest))
    ensures Clean(raw)
  {
    ReadValGave("\"" + raw + "\"" + tail, raw, rest);
    RawValueIsClean(raw, tail);
  }

  /** When a raw member is read as itself it is clean, whatever follows it. */
  lemma RawMemberIsClean(key: Bytes, raw: Bytes, tail: Bytes, rest: Bytes)
    requires ReadMember(ShowMember((key, Raw(raw))) + tail) == Some(((key, Str(raw)), rest))
    ensures Clean(raw)
  {
    var val := "\"" + raw + "\"" + tail;
    KeyedVal(Quote(key), "\"" + raw + "\"", tail);
    ReadKeyedGave(key, val, (key, Str(raw)), rest);
    RawValGave(raw, tail, rest);
  }

  /** A member read as itself is clean, and the reader stands behind it. */
  lemma MemberReadBack(m: Member, tail: Bytes, rest: Bytes)
    requires tail == [] || !IsDigit(tail[0])
    requires ReadMember(ShowMember(m) + tail) == Some((Escapable(m), rest))
    ensures rest == tail && (m.1.Raw? ==> Clean(m.1.s))
  {
    if m.1.Raw? {
      RawMemberIsClean(m.0, m.1.s, tail, rest);
    }
    CleanShownAlike(m);
    MemberRoundTrip(Escapable(m), tail);
  }

  /** The first step of a successful reading. */
  lemma ReadMembersGave(s: Bytes, fuel: nat, out: seq<Member>) returns (rest: Bytes)
    requires ReadMembers(s, fuel) == Some(out)
    ensures fuel > 0 && out != [] && ReadMember(s) == Some((out[0], rest))
    ensures rest != "}" ==> rest != [] && rest[0] == ',' && ReadMembers(rest[1..], fuel - 1) == Some(out[1..])
  {
    rest := ReadMember(s).value.1;
    if rest != "}" {
      var more := ReadMembers(rest[1..], fuel - 1).value;
      assert out == [ReadMember(s).value.0] + more;
      assert out[1..] == more;
    }
  }

  lemma {:induction false} MembersGave(s: Bytes, fuel: nat, out: seq<Member>)
    requires ReadMembers(s, fuel) == Some(out)
    ensures out != [] && ReadsAs(s, out)
    decreases fuel
  {
    var rest := ReadMembersGave(s, fuel, out);
    var more := out[1..];
    if rest != "}" {
      MembersGave(rest[1..], fuel - 1, more);
    }
    assert GoesOn(rest, out);
  }

  lemma {:induction false} MembersReadBack(ms: seq<Member>)
    requires ms != [] && ReadsAs(ShowMember(ms[0]) + ShowTail(ms[1..]), EscapableAll(ms))
    ensures RawsClean(ms)
  {
    var qs, tail := EscapableAll(ms), ShowTail(ms[1..]);
    var rest :| ReadMember(ShowMember(ms[0]) + tail) == Some((qs[0], rest)) && GoesOn(rest, qs);
    TailStarts(ms[1..]);
    MemberReadBack(ms[0], tail, rest);
    if |ms| > 1 {
      MoreReadBack(ms, tail);
      MembersReadBack(ms[1..]);
      assert forall i :: 1 <= i < |ms| ==> ms[i] == ms[1..][i - 1];
    }
  }

  /** The members after the first are read back from behind the comma. */
  lemma MoreReadBack(ms: seq<Member>, tail: Bytes)
    requires |ms| > 1 && tail == ShowTail(ms[1..]) && GoesOn(tail, EscapableAll(ms))
    ensures ReadsAs(ShowMember(ms[1..][0]) + ShowTail(ms[1..][1..]), EscapableAll(ms[1..]))
  {
    TailRest(ms[1..]);
    BehindComma(tail, EscapableAll(ms));
    EscapableRest(ms);
  }

  lemma BehindComma(rest: Bytes, ms: seq<Member>)
    requires |ms| > 1 && GoesOn(rest, ms)
    ensures rest != [] && ReadsAs(rest[1..], ms[1..])
  {
  }

  lemma EscapableRest(ms: seq<Member>)
    requires ms != []
    ensures EscapableAll(ms)[1..] == EscapableAll(ms[1..])
  {
  }

  lemma CleanObjectReads(ms: seq<Member>)
    requires ms != [] && RawsClean(ms)
    ensures ReadObject(ShowObject(ms)) == Some(EscapableAll(ms))
  {
    CleanObjectShown(ms);
    ObjectRoundTrip(EscapableAll(ms));
  }

  lemma BracedGave(t: Bytes, out: seq<Member>)
    requires ReadObject("{" + t) == Some(out)
    ensures out != [] && ReadsAs(t, out)
  {
    ReadBraced(t);
    MembersGave(t, |t| + 1, out);
  }

  lemma ObjectReadIsClean(ms: seq<Member>)
    requires ms != [] && ReadObject(ShowObject(ms)) == Some(EscapableAll(ms))
    ensures RawsClean(ms)
  {
    Assoc("{", ShowMember(ms[0]), ShowTail(ms[1..]));
    BracedGave(ShowMember(ms[0]) + ShowTail(ms[1..]), EscapableAll(ms));
    MembersReadBack(ms);
  }

  /** An object with raw strings is read back, member by member, if and only if none of them needs an escape. */
  lemma ObjectReadBack(ms: seq<Member>)
    requires ms != []
    ensures ReadObject(ShowObject(ms)) == Some(EscapableAll(ms)) <==> RawsClean(ms)
  {
    if RawsClean(ms) {
      CleanObjectReads(ms);
    } else if ReadObject(ShowObject(ms)) == Some(EscapableAll(ms)) {
      ObjectReadIsClean(ms);
    }
  }

  // ----- The client address -----

  predicate Blank(c: char) {
    c == ' ' || c == '\t'
  }

  /** t is s without its leading and trailing blanks. */
  ghost predicate Trimmed(s: Bytes, t: Bytes) {
    exists a: nat, b: nat :: a <= b <= |s| && t == s[a..b] && TrimmedAt(s, a, b)
  }

  ghost predicate TrimmedAt(s: Bytes, a: nat, b: nat)
    requires a <= b <= |s|
  {
    && (forall i :: 0 <= i < a ==> Blank(s[i])) && (forall i :: b <= i < |s| ==> Blank(s[i]))
    && (a < b ==> !Blank(s[a]) && !Blank(s[b - 1]))
  }

  function DropLeading(s: Bytes): Bytes {
    if s != [] && Blank(s[0]) then DropLeading(s[1..]) else s
  }

  function DropTrailing(s: Bytes): Bytes {
    if s != [] && Blank(s[|s| - 1]) then DropTrailing(s[..|s| - 1]) else s
  }

  function Trim(s: Bytes): Bytes {
    DropTrailing(DropLeading(s))
  }

  lemma {:induction false} LeadingDropped(s: Bytes) returns (a: nat)
    ensures a <= |s| && DropLeading(s) == s[a..] && (a < |s| ==> !Blank(s[a])) && forall i :: 0 <= i < a ==> Blank(s[i])
  {
    if s != [] && Blank(s[0]) {
      a := LeadingDropped(s[1..]);
      assert forall i :: 0 <= i < a ==> s[i + 1] == s[1..][i];
      a := a + 1;
    } else {
      a := 0;
    }
  }

  lemma {:induction false} TrailingDropped(s: Bytes) returns (b: nat)
    ensures b <= |s| && DropTrailing(s) == s[..b] && (b > 0 ==> !Blank(s[b - 1])) && forall i :: b <= i < |s| ==> Blank(s[i])
    decreases |s|
  {
    if s != [] && Blank(s[|s| - 1]) {
      b := TrailingDropped(s[..|s| - 1]);
    } else {
      b := |s|;
    }
  }

  lemma TrimIsTrimmed(s: Bytes)
    ensures Trimmed(s, Trim(s))
  {
    var a := LeadingDropped(s);
    var rest := s[a..];
    var b := TrailingDropped(rest);
    forall i | a + b <= i < |s|
      ensures Blank(s[i])
    {
      assert s[i] == rest[i - a];
    }
    if b > 0 {
      assert rest[b - 1] == s[a + b - 1];
    }
    assert rest[..b] == s[a..a + b] && TrimmedAt(s, a, a + b);
  }

  lemma TrimmedUnique(s: Bytes, t: Bytes, t': Bytes)
    requires Trimmed(s, t) && Trimmed(s, t')
    ensures t == t'
  {
    var a: nat, b: nat :| a <= b <= |s| && t == s[a..b] && TrimmedAt(s, a, b);
    var a': nat, b': nat :| a' <= b' <= |s| && t' == s[a'..b'] && TrimmedAt(s, a', b');
  }

  function FirstEntry(xff: Bytes): Bytes {
    xff[..IndexOf(xff, ',')]
  }

  /** The first entry of X-Forwarded-For without surrounding blanks, or the peer's address when the header is absent. */
  function ClientIp(xff: Bytes, peer: Bytes): Bytes {
    if |xff| > 0 then Trim(FirstEntry(xff)) else peer
  }

  /** That piece of the header is what lies between its blanks, and nothing else does. */
  lemma ClientIpMeaning(xff: Bytes, peer: Bytes, ip: Bytes)
    requires |xff| > 0
    ensures ip == ClientIp(xff, peer) <==> Trimmed(FirstEntry(xff), ip)
  {
    TrimIsTrimmed(FirstEntry(xff));
    if Trimmed(FirstEntry(xff), ip) {
      TrimmedUnique(FirstEntry(xff), ip, Trim(FirstEntry(xff)));
    }
  }

  /** A byte that needs no escape, or a TAB that trimming removes. */
  predicate EntryByteOk(s: Bytes, i: nat)
    requires i < |s|
  {
    || (s[i] >= ' ' && s[i] != '"' && s[i] != '\\')
    || (s[i] == '\t' && ((forall j :: 0 <= j <= i ==> Blank(s[j])) || (forall j :: i <= j < |s| ==> Blank(s[j]))))
  }

  predicate EntryOk(s: Bytes) {
    forall i :: 0 <= i < |s| ==> EntryByteOk(s, i)
  }

  lemma CleanEntry(s: Bytes, a: nat, b: nat)
    requires a <= b <= |s| && TrimmedAt(s, a, b) && Clean(s[a..b])
    ensures EntryOk(s)
  {
    forall i | 0 <= i < |s|
      ensures EntryByteOk(s, i)
    {
      if a <= i < b {
        assert s[i] == s[a..b][i - a];
      }
    }
  }

  lemma EntryIsClean(s: Bytes, a: nat, b: nat)
    requires a <= b <= |s| && TrimmedAt(s, a, b) && EntryOk(s)
    ensures Clean(s[a..b])
  {
    forall i | a <= i < b
      ensures s[i] >= ' ' && s[i] != '"' && s[i] != '\\'
    {
      assert EntryByteOk(s, i) && !Blank(s[a]) && !Blank(s[b - 1]);
    }
    assert forall k :: 0 <= k < b - a ==> s[a..b][k] == s[a + k];
  }

  /** The client address needs no escape exactly when the entry has no quote, backslash or control byte but outer TABs. */
  lemma TrimClean(s: Bytes)
    ensures Clean(Trim(s)) <==> EntryOk(s)
  {
    TrimIsTrimmed(s);
    var a: nat, b: nat :| a <= b <= |s| && Trim(s) == s[a..b] && TrimmedAt(s, a, b);
    if Clean(s[a..b]) {
      CleanEntry(s, a, b);
    } else if EntryOk(s) {
      EntryIsClean(s, a, b);
    }
  }

  /** What the header, or the peer's address without it, has to be like for the client address to need no escape. */
  predicate OriginOk(xff: Bytes, peer: Bytes) {
    if |xff| > 0 then EntryOk(FirstEntry(xff)) else Clean(peer)
  }

  lemma OriginClean(xff: Bytes, peer: Bytes)
    ensures Clean(ClientIp(xff, peer)) <==> OriginOk(xff, peer)
  {
    TrimClean(FirstEntry(xff));
  }

  /** appendJSONClientIP: the client address between plain quotes. */
  method AppendJSONClientIP(dst0: Bytes, xff: Bytes, peer: Bytes) returns (dst: Bytes)
    ensures dst == dst0 + "\"" + ClientIp(xff, peer) + "\""
  {
    dst := dst0 + "\"";
    if |xff| > 0 {
      var end := |xff|;
      for i := 0 to |xff|
        invariant end == |xff| && ',' !in xff[..i]
      {
        if xff[i] == ',' {
          end := i;
          break;
        }
      }
      FirstComma(xff, end);
      ghost var entry := xff[..end];
      ghost var whole := end;
      var start := 0;
      while start < end && (xff[start] == ' ' || xff[start] == '\t')
        invariant start <= end && forall i :: 0 <= i < start ==> Blank(entry[i])
      {
        start := start + 1;
      }
      while end > start && (xff[end - 1] == ' ' || xff[end - 1] == '\t')
        invariant start <= end <= whole && forall i :: end <= i < whole ==> Blank(entry[i])
        invariant start < whole ==> !Blank(entry[start])
      {
        end := end - 1;
      }
      assert TrimmedAt(entry, start, end);
      assert entry[start..end] == xff[start..end];
      ClientIpMeaning(xff, peer, xff[start..end]);
      dst := dst + xff[start..end];
    } else {
      dst := dst + peer;
    }
    dst := dst + "\"";
  }

  lemma FirstComma(s: Bytes, end: nat)
    requires end <= |s| && ',' !in s[..end] && (end < |s| ==> s[end] == ',')
    ensures IndexOf(s, ',') == end
  {
    assert forall i :: 0 <= i < end ==> s[..end][i] == s[i];
  }

  // ----- The record -----

  datatype Record = Record(
    time: D.Time,
    remoteAddr: Bytes,
    forwardedFor: Bytes,
    peerIp: Bytes,
    remoteUser: Bytes,
    verb: Bytes,
    uri: Bytes,
    proto: Bytes,
    scheme: Bytes,
    host: Bytes,
    status: int,
    size: int,
    bytesReceived: int,
    durationUs: int,
    referer: Bytes,
    userAgent: Bytes)

  /** The library's integer printer panics on negative numbers. */
  predicate Printable(r: Record) {
    r.status >= 0 && r.size >= 0 && r.bytesReceived >= 0 && r.durationUs >= 0
  }

  function ClientIpOf(r: Record): Bytes {
    ClientIp(r.forwardedFor, r.peerIp)
  }

  /** The record as it is written: the time and the two addresses without escaping. */
  function Written(r: Record): (ms: seq<Member>)
    requires Printable(r)
    ensures |ms| == 15
  {
    [("time", Raw(D.ISOTime(r.time))), ("remote_addr", Raw(r.remoteAddr)), ("client_ip", Raw(ClientIpOf(r))),
     ("remote_user", Str(r.remoteUser)), ("method", Str(r.verb)), ("uri", Str(r.uri)), ("proto", Str(r.proto)),
     ("scheme", Str(r.scheme)), ("host", Str(r.host)), ("status", Num(r.status)), ("size", Num(r.size)),
     ("bytes_received", Num(r.bytesReceived)), ("duration_us", Num(r.durationUs)), ("referer", Str(r.referer)),
     ("user_agent", Str(r.userAgent))]
  }

  /** The record as a reader should see it. */
  function Fields(r: Record): (ms: seq<Member>)
    requires Printable(r)
    ensures |ms| == 15 && NoRaw(ms)
  {
    [("time", Str(D.ISOTime(r.time))), ("remote_addr", Str(r.remoteAddr)), ("client_ip", Str(ClientIpOf(r)))] + Written(r)[3..]
  }

  /** e is the header up to its first comma. */
  ghost predicate BeforeComma(xff: Bytes, e: Bytes) {
    (forall i :: 0 <= i < |e| ==> e[i] != ',') && (xff == e || exists rest :: xff == e + "," + rest)
  }

  /** ip is the text without the spaces and TABs around it. */
  ghost predicate Between(e: Bytes, lead: Bytes, ip: Bytes, trail: Bytes) {
    && e == lead + ip + trail
    && (forall i :: 0 <= i < |lead| ==> lead[i] == ' ' || lead[i] == '\t')
    && (forall i :: 0 <= i < |trail| ==> trail[i] == ' ' || trail[i] == '\t')
    && (ip != "" ==> ip[0] != ' ' && ip[0] != '\t' && ip[|ip| - 1] != ' ' && ip[|ip| - 1] != '\t')
  }

  /** The client of a request: the peer, or the first entry of X-Forwarded-For. */
  ghost predicate IsClient(r: Record, ip: Bytes) {
    if r.forwardedFor == "" then ip == r.peerIp
    else exists e, lead, trail :: BeforeComma(r.forwardedFor, e) && Between(e, lead, ip, trail)
  }

  lemma ClientIsFirst(r: Record)
    ensures IsClient(r, ClientIpOf(r))
  {
    if r.forwardedFor != "" {
      var e, i := FirstEntry(r.forwardedFor), IndexOf(r.forwardedFor, ',');
      assert i < |r.forwardedFor| ==> r.forwardedFor == e + "," + r.forwardedFor[i + 1..];
      assert BeforeComma(r.forwardedFor, e);
      var lead, trail := TrimmedBetween(e);
    }
  }

  lemma TrimmedBetween(e: Bytes) returns (lead: Bytes, trail: Bytes)
    ensures Between(e, lead, Trim(e), trail)
  {
    TrimIsTrimmed(e);
    var a: nat, b: nat :| a <= b <= |e| && Trim(e) == e[a..b] && TrimmedAt(e, a, b);
    lead, trail := e[..a], e[b..];
    BetweenCuts(e, a, b);
  }

  lemma BetweenCuts(e: Bytes, a: nat, b: nat)
    requires a <= b <= |e| && TrimmedAt(e, a, b)
    ensures Between(e, e[..a], e[a..b], e[b..])
  {
    assert e[..a] + e[a..b] + e[b..] == e;
    assert forall i :: 0 <= i < a ==> Blank(e[i]);
    assert forall i :: 0 <= i < |e| - b ==> e[b..][i] == e[b + i] && Blank(e[b + i]);
  }

  /** The fields in order, each from the request's own value. */
  lemma FieldsInOrder(r: Record)
    requires Printable(r)
    ensures var ms := Fields(r);
            && ms[0] == ("time", Str(D.ISOTime(r.time)))
            && ms[1] == ("remote_addr", Str(r.remoteAddr))
            && ms[2].0 == "client_ip" && ms[2].1.Str? && IsClient(r, ms[2].1.s)
            && ms[3] == ("remote_user", Str(r.remoteUser))
            && ms[4] == ("method", Str(r.verb))
            && ms[5] == ("uri", Str(r.uri))
            && ms[6] == ("proto", Str(r.proto))
            && ms[7] == ("scheme", Str(r.scheme))
    ensures var ms := Fields(r);
            && ms[8] == ("host", Str(r.host))
            && ms[9] == ("status", Num(r.status))
            && ms[10] == ("size", Num(r.size))
            && ms[11] == ("bytes_received", Num(r.bytesReceived))
            && ms[12] == ("duration_us", Num(r.durationUs))
            && ms[13] == ("referer", Str(r.referer))
            && ms[14] == ("user_agent", Str(r.userAgent))
  {
    ClientIsFirst(r);
  }

  /** A key as the source writes it: plain between quotes. */
  function PlainKey(key: Bytes): Bytes {
    "\"" + key + "\":"
  }

  lemma KeyedMember(m: Member)
    requires Clean(m.0)
    ensures ShowMember(m) == PlainKey(m.0) + ShowVal(m.1)
  {
    CleanQuote(m.0);
  }

  lemma DigitsClean(s: Bytes)
    requires AllDigits(s)
    ensures Clean(s)
  {
  }

  lemma SmallClean(n: nat)
    ensures n < 100 ==> Clean(D.Uint2(n))
    ensures n < 10000 ==> Clean(D.Uint4(n))
  {
    if n < 100 {
      D.Uint2Small(n);
      DigitsClean(Low(n, 2));
    }
    if n < 10000 {
      D.Uint4Small(n);
      DigitsClean(Low(n, 4));
    }
  }

  lemma JoinClean(a: Bytes, b: Bytes)
    requires Clean(a) && Clean(b)
    ensures Clean(a + b)
  {
  }

  /** The time of every request from the years 0 to 9999 needs no escape. */
  lemma ISOTimeClean(t: D.Time)
    requires D.ValidTime(t)
    ensures Clean(D.ISOTime(t))
  {
    ISODateClean(t);
    ISOClockClean(t);
    ISOOffsetClean(t.offset);
    JoinClean(D.ISODate(t), "T");
    JoinClean(D.ISODate(t) + "T", D.ISOClock(t));
    JoinClean(D.ISODate(t) + "T" + D.ISOClock(t), D.ISOOffset(t.offset));
  }

  lemma ISODateClean(t: D.Time)
    requires D.ValidTime(t)
    ensures Clean(D.ISODate(t))
  {
    SmallClean(t.year);
    SmallClean(t.month);
    SmallClean(t.day);
  }

  lemma ISOClockClean(t: D.Time)
    requires D.ValidTime(t)
    ensures Clean(D.ISOClock(t))
  {
    SmallClean(t.hour);
    SmallClean(t.minute);
    SmallClean(t.second);
  }

  lemma ISOOffsetClean(offset: int)
    requires -86400 < offset < 86400
    ensures Clean(D.ISOOffset(offset))
  {
    SmallClean(D.Abs(offset) / 3600);
    SmallClean(D.Abs(offset) % 3600 / 60);
  }

  /** The members before position k are written; the tail of the others is still missing. */
  ghost predicate WrittenTo(dst0: Bytes, dst: Bytes, ms: seq<Member>, k: nat) {
    1 <= k <= |ms| && dst + ShowTail(ms[k..]) == dst0 + ShowObject(ms)
  }

  lemma WriteNext(dst0: Bytes, dst: Bytes, ms: seq<Member>, k: nat)
    requires WrittenTo(dst0, dst, ms, k) && k < |ms|
    ensures WrittenTo(dst0, dst + ("," + ShowMember(ms[k])), ms, k + 1)
  {
    assert ms[k..][1..] == ms[k + 1..];
    Assoc(dst, "," + ShowMember(ms[k]), ShowTail(ms[k + 1..]));
  }

  predicate CleanKeys(ms: seq<Member>) {
    forall k :: 0 <= k < |ms| ==> Clean(ms[k].0)
  }

  lemma NamesClean()
    ensures Clean("time") && Clean("remote_addr") && Clean("client_ip") && Clean("remote_user") && Clean("method")
  {
  }

  lemma MoreNamesClean()
    ensures Clean("uri") && Clean("proto") && Clean("scheme") && Clean("host") && Clean("status")
    ensures Clean("size") && Clean("bytes_received") && Clean("duration_us") && Clean("referer") && Clean("user_agent")
  {
  }

  lemma WrittenKeysClean(r: Record)
    requires Printable(r)
    ensures CleanKeys(Written(r))
  {
    NamesClean();
    MoreNamesClean();
  }

  lemma JoinMember(dst: Bytes, key: Bytes, val: Bytes)
    ensures dst + ("," + key) + val == dst + ("," + (key + val))
  {
  }

  method AppendKey(dst0: Bytes, key: Bytes) returns (dst: Bytes)
    ensures dst == dst0 + ("," + PlainKey(key))
  {
    dst := dst0 + (",\"" + key + "\":");
  }

  /** The key and the escaped value of member k. */
  method AppendStr(ghost dst0: Bytes, dst: Bytes, ghost ms: seq<Member>, ghost k: nat, key: Bytes, s: Bytes) returns (r: Bytes)
    requires WrittenTo(dst0, dst, ms, k) && k < |ms| && ms[k] == (key, Str(s)) && CleanKeys(ms)
    ensures WrittenTo(dst0, r, ms, k + 1)
  {
    r := AppendKey(dst, key);
    r := AppendJSONString(r, s);
    JoinMember(dst, PlainKey(key), Quote(s));
    KeyedMember(ms[k]);
    WriteNext(dst0, dst, ms, k);
  }

  /** The key and the decimal value of member k. */
  method AppendNum(ghost dst0: Bytes, dst: Bytes, ghost ms: seq<Member>, ghost k: nat, key: Bytes, n: int) returns (r: Option<Bytes>)
    requires WrittenTo(dst0, dst, ms, k) && k < |ms| && CleanKeys(ms)
    requires n >= 0 ==> ms[k] == (key, Num(n))
    ensures r.Some? <==> n >= 0
    ensures r.Some? ==> WrittenTo(dst0, r.value, ms, k + 1)
  {
    var keyed := AppendKey(dst, key);
    r := AppendUint(keyed, n);
    if n >= 0 {
      JoinMember(dst, PlainKey(key), Decimal(n));
      KeyedMember(ms[k]);
      WriteNext(dst0, dst, ms, k);
    }
  }

  /** A piece between plain quotes behind its key, as member k. */
  lemma RawMemberWritten(dst0: Bytes, dst: Bytes, ms: seq<Member>, k: nat, raw: Bytes)
    requires WrittenTo(dst0, dst, ms, k) && k < |ms| && ms[k].1 == Raw(raw) && Clean(ms[k].0)
    ensures WrittenTo(dst0, dst + ("," + PlainKey(ms[k].0)) + "\"" + raw + "\"", ms, k + 1)
  {
    var keyed := dst + ("," + PlainKey(ms[k].0));
    Assoc(keyed, "\"", raw);
    Assoc(keyed, "\"" + raw, "\"");
    JoinMember(dst, PlainKey(ms[k].0), "\"" + raw + "\"");
    KeyedMember(ms[k]);
    WriteNext(dst0, dst, ms, k);
  }

  /** The key and the client address as member k. */
  method AppendOriginIp(ghost dst0: Bytes, dst: Bytes, ghost ms: seq<Member>, ghost k: nat, xff: Bytes, peer: Bytes) returns (r: Bytes)
    requires WrittenTo(dst0, dst, ms, k) && k < |ms| && ms[k] == ("client_ip", Raw(ClientIp(xff, peer))) && CleanKeys(ms)
    ensures WrittenTo(dst0, r, ms, k + 1)
  {
    RawMemberWritten(dst0, dst, ms, k, ClientIp(xff, peer));
    r := AppendKey(dst, "client_ip");
    r := AppendJSONClientIP(r, xff, peer);
  }

  /** The key and a value between plain quotes, as member k. */
  method AppendRaw(ghost dst0: Bytes, dst: Bytes, ghost ms: seq<Member>, ghost k: nat, key: Bytes, raw: Bytes) returns (r: Bytes)
    requires WrittenTo(dst0, dst, ms, k) && k < |ms| && ms[k] == (key, Raw(raw)) && CleanKeys(ms)
    ensures WrittenTo(dst0, r, ms, k + 1)
  {
    RawMemberWritten(dst0, dst, ms, k, raw);
    r := AppendKey(dst, key);
    r := r + "\"" + raw + "\"";
  }

  /** The opening brace and the time. */
  method AppendTime(dst0: Bytes, t: D.Time, ghost ms: seq<Member>) returns (dst: Bytes)
    requires ms != [] && ms[0] == ("time", Raw(D.ISOTime(t))) && CleanKeys(ms)
    ensures WrittenTo(dst0, dst, ms, 1)
  {
    dst := dst0 + "{\"time\":\"";
    dst := D.AppendISOTime(dst, t);
    dst := dst + "\"";
    FirstMember(dst0, D.ISOTime(t), ms);
  }

  lemma FirstMember(dst0: Bytes, time: Bytes, ms: seq<Member>)
    requires ms != [] && ms[0] == ("time", Raw(time)) && CleanKeys(ms)
    ensures WrittenTo(dst0, dst0 + "{\"time\":\"" + time + "\"", ms, 1)
  {
    KeyedMember(ms[0]);
    assert "{\"time\":\"" == "{" + PlainKey("time") + "\"";
    var m := ShowMember(ms[0]);
    assert dst0 + ("{" + PlainKey("time") + "\"") + time + "\"" == dst0 + ("{" + m);
    Assoc(dst0, "{" + m, ShowTail(ms[1..]));
  }

  /** Negative numbers set to zero. */
  function Clipped(r: Record): (p: Record)
    ensures Printable(p) && (Printable(r) ==> p == r)
  {
    r.(status := if r.status < 0 then 0 else r.status,
       size := if r.size < 0 then 0 else r.size,
       bytesReceived := if r.bytesReceived < 0 then 0 else r.bytesReceived,
       durationUs := if r.durationUs < 0 then 0 else r.durationUs)
  }

  /** appendJSONLog: the line is the flat object of the 15 fields, as they are written; it panics on negative numbers. */
  method AppendJSONLog(dst0: Bytes, r: Record) returns (res: Option<Bytes>)
    ensures res == if Printable(r) then Some(dst0 + ShowObject(Written(r))) else None
  {
    ghost var ms := Written(Clipped(r));
    WrittenKeysClean(Clipped(r));
    var dst := AppendText(dst0, r, ms);
    res := AppendStatus(dst0, dst, r, ms);
    if res.None? {
      return;
    }
    res := AppendTraffic(dst0, res.value, r, ms);
    if res.None? {
      return;
    }
    dst := AppendHeaders(dst0, res.value, r, ms);
    AllWritten(dst0, dst, ms);
    res := Some(dst + "}");
  }

  lemma AllWritten(dst0: Bytes, dst: Bytes, ms: seq<Member>)
    requires WrittenTo(dst0, dst, ms, |ms|)
    ensures dst + "}" == dst0 + ShowObject(ms)
  {
    assert ms[|ms|..] == [];
  }

  /** The nine fields before the numbers. */
  method AppendText(dst0: Bytes, r: Record, ghost ms: seq<Member>) returns (dst: Bytes)
    requires |ms| == 15 && CleanKeys(ms)
    requires ms[0] == ("time", Raw(D.ISOTime(r.time))) && ms[1] == ("remote_addr", Raw(r.remoteAddr))
    requires ms[2] == ("client_ip", Raw(ClientIpOf(r))) && ms[3] == ("remote_user", Str(r.remoteUser))
    requires ms[4] == ("method", Str(r.verb)) && ms[5] == ("uri", Str(r.uri)) && ms[6] == ("proto", Str(r.proto))
    requires ms[7] == ("scheme", Str(r.scheme)) && ms[8] == ("host", Str(r.host))
    ensures WrittenTo(dst0, dst, ms, 9)
  {
    dst := AppendTime(dst0, r.time, ms);
    dst := AppendAddresses(dst0, dst, r, ms);
    dst := AppendRequest(dst0, dst, r, ms);
    dst := AppendOrigin(dst0, dst, r, ms);
  }

  method AppendAddresses(ghost dst0: Bytes, dst1: Bytes, r: Record, ghost ms: seq<Member>) returns (dst: Bytes)
    requires |ms| == 15 && CleanKeys(ms) && WrittenTo(dst0, dst1, ms, 1)
    requires ms[1] == ("remote_addr", Raw(r.remoteAddr)) && ms[2] == ("client_ip", Raw(ClientIpOf(r)))
    requires ms[3] == ("remote_user", Str(r.remoteUser))
    ensures WrittenTo(dst0, dst, ms, 4)
  {
    dst := AppendRaw(dst0, dst1, ms, 1, "remote_addr", r.remoteAddr);
    dst := AppendOriginIp(dst0, dst, ms, 2, r.forwardedFor, r.peerIp);
    dst := AppendStr(dst0, dst, ms, 3, "remote_user", r.remoteUser);
  }

  method AppendRequest(ghost dst0: Bytes, dst1: Bytes, r: Record, ghost ms: seq<Member>) returns (dst: Bytes)
    requires |ms| == 15 && CleanKeys(ms) && WrittenTo(dst0, dst1, ms, 4)
    requires ms[4] == ("method", Str(r.verb)) && ms[5] == ("uri", Str(r.uri)) && ms[6] == ("proto", Str(r.proto))
    ensures WrittenTo(dst0, dst, ms, 7)
  {
    dst := AppendStr(dst0, dst1, ms, 4, "method", r.verb);
    dst := AppendStr(dst0, dst, ms, 5, "uri", r.uri);
    dst := AppendStr(dst0, dst, ms, 6, "proto", r.proto);
  }

  method AppendOrigin(ghost dst0: Bytes, dst1: Bytes, r: Record, ghost ms: seq<Member>) returns (dst: Bytes)
    requires |ms| == 15 && CleanKeys(ms) && WrittenTo(dst0, dst1, ms, 7)
    requires ms[7] == ("scheme", Str(r.scheme)) && ms[8] == ("host", Str(r.host))
    ensures WrittenTo(dst0, dst, ms, 9)
  {
    dst := AppendStr(dst0, dst1, ms, 7, "scheme", r.scheme);
    dst := AppendStr(dst0, dst, ms, 8, "host", r.host);
  }

  method AppendStatus(ghost dst0: Bytes, dst1: Bytes, r: Record, ghost ms: seq<Member>) returns (res: Option<Bytes>)
    requires |ms| == 15 && CleanKeys(ms) && WrittenTo(dst0, dst1, ms, 9)
    requires r.status >= 0 ==> ms[9] == ("status", Num(r.status))
    requires r.size >= 0 ==> ms[10] == ("size", Num(r.size))
    ensures res.Some? <==> r.status >= 0 && r.size >= 0
    ensures res.Some? ==> WrittenTo(dst0, res.value, ms, 11)
  {
    res := AppendNum(dst0, dst1, ms, 9, "status", r.status);
    if res.Some? {
      res := AppendNum(dst0, res.value, ms, 10, "size", r.size);
    }
  }

  method AppendTraffic(ghost dst0: Bytes, dst1: Bytes, r: Record, ghost ms: seq<Member>) returns (res: Option<Bytes>)
    requires |ms| == 15 && CleanKeys(ms) && WrittenTo(dst0, dst1, ms, 11)
    requires r.bytesReceived >= 0 ==> ms[11] == ("bytes_received", Num(r.bytesReceived))
    requires r.durationUs >= 0 ==> ms[12] == ("duration_us", Num(r.durationUs))
    ensures res.Some? <==> r.bytesReceived >= 0 && r.durationUs >= 0
    ensures res.Some? ==> WrittenTo(dst0, res.value, ms, 13)
  {
    res := AppendNum(dst0, dst1, ms, 11, "bytes_received", r.bytesReceived);
    if res.Some? {
      res := AppendNum(dst0, res.value, ms, 12, "duration_us", r.durationUs);
    }
  }

  method AppendHeaders(ghost dst0: Bytes, dst1: Bytes, r: Record, ghost ms: seq<Member>) returns (dst: Bytes)
    requires |ms| == 15 && CleanKeys(ms) && WrittenTo(dst0, dst1, ms, 13)
    requires ms[13] == ("referer", Str(r.referer)) && ms[14] == ("user_agent", Str(r.userAgent))
    ensures WrittenTo(dst0, dst, ms, 15)
  {
    dst := AppendStr(dst0, dst1, ms, 13, "referer", r.referer);
    dst := AppendStr(dst0, dst, ms, 14, "user_agent", r.userAgent);
  }

  lemma FieldsAreEscapable(r: Record)
    requires Printable(r)
    ensures Fields(r) == EscapableAll(Written(r))
    ensures RawsClean(Written(r)) <==> Clean(D.ISOTime(r.time)) && Clean(r.remoteAddr) && Clean(ClientIpOf(r))
  {
    var ms := Written(r);
    assert ms[0].1 == Raw(D.ISOTime(r.time)) && ms[1].1 == Raw(r.remoteAddr) && ms[2].1 == Raw(ClientIpOf(r));
    assert forall i :: 3 <= i < 15 ==> !ms[i].1.Raw?;
  }

  /**
   * Parsing a written line recovers all 15 fields if and only if the printed time and the peer's address hold no quote,
   * backslash or control byte, and the first entry of X-Forwarded-For none but TABs around it.
   */
  lemma LineRecoversFields(r: Record)
    requires Printable(r)
    ensures ReadObject(ShowObject(Written(r))) == Some(Fields(r))
            <==> Clean(D.ISOTime(r.time)) && Clean(r.remoteAddr) && OriginOk(r.forwardedFor, r.peerIp)
  {
    FieldsAreEscapable(r);
    OriginClean(r.forwardedFor, r.peerIp);
    ObjectReadBack(Written(r));
  }

  /** The time is recovered up to whole minutes of its offset. */
  lemma TimeRecovered(r: Record)
    requires D.ValidTime(r.time) && Printable(r)
    ensures Clean(D.ISOTime(r.time))
    ensures D.ParseISO(Fields(r)[0].1.s) == Some(r.time.(offset := D.CutTo(r.time.offset, 60)))
  {
    ISOTimeClean(r.time);
    D.ISORoundTrip(r.time);
  }
}

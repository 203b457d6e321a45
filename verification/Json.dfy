/** JSON string literals of the access log (pkg/logger/accesslog/json.go) and the reader that inverts them. */
module JsonLog {
  import opened Prelude

  // ----- String literals -----

  const BACKSPACE: char := '\U{0008}'
  const FORM_FEED: char := '\U{000C}'

  function HexDigit(d: nat): (c: char)
    requires d < 16
  {
    if d < 10 then '0' + d as char else 'a' + (d - 10) as char
  }

  /** What appendJSONString writes for one byte. */
  function Escaped(c: char): Bytes {
    if c == '"' then "\\\""
    else if c == '\\' then "\\\\"
    else if c == BACKSPACE then "\\b"
    else if c == '\t' then "\\t"
    else if c == '\n' then "\\n"
    else if c == FORM_FEED then "\\f"
    else if c == '\r' then "\\r"
    else if c < ' ' then ['\\', 'u', '0', '0', HexDigit(c as nat / 16), HexDigit(c as nat % 16)]
    else [c]
  }

  function EscapedAll(s: Bytes): Bytes {
    if s == [] then [] else EscapedAll(s[..|s| - 1]) + Escaped(s[|s| - 1])
  }

  function Quote(s: Bytes): Bytes {
    "\"" + EscapedAll(s) + "\""
  }

  lemma EscapedMore(s: Bytes, i: nat)
    requires i < |s|
    ensures EscapedAll(s[..i + 1]) == EscapedAll(s[..i]) + Escaped(s[i])
  {
    assert s[..i + 1][..i] == s[..i];
  }

  /** appendJSONString */
  method AppendJSONString(dst0: Bytes, s: Bytes) returns (dst: Bytes)
    ensures dst == dst0 + Quote(s)
  {
    dst := dst0 + "\"";
    ghost var start := dst;
    for i := 0 to |s|
      invariant dst == start + EscapedAll(s[..i])
    {
      EscapedMore(s, i);
      Assoc(start, EscapedAll(s[..i]), Escaped(s[i]));
      dst := dst + Escaped(s[i]);
    }
    assert s[..|s|] == s;
    Assoc(dst0, "\"", EscapedAll(s));
    Assoc(dst0, "\"" + EscapedAll(s), "\"");
    dst := dst + "\"";
  }

  /** The escapes as they are written: the short form where there is one, otherwise four lower-case hexadecimal digits. */
  lemma EscapesWritten(c: char)
    ensures Escaped('"') == "\\\"" && Escaped('\\') == "\\\\" && Escaped('\t') == "\\t" && Escaped('\n') == "\\n" && Escaped('\r') == "\\r"
    ensures Escaped(8 as char) == "\\b" && Escaped(12 as char) == "\\f"
    ensures c < ' ' && c as int !in {8, 9, 10, 12, 13} ==>
              Escaped(c) == "\\u00" + ["01"[c as int / 16], "0123456789abcdef"[c as int % 16]]
    ensures c >= ' ' && c != '"' && c != '\\' ==> Escaped(c) == [c]
  {
    if c < ' ' {
      HexLetter(c as int % 16);
    }
  }

  lemma HexLetter(d: nat)
    requires d < 16
    ensures HexDigit(d) == "0123456789abcdef"[d]
  {
  }

  // ----- Reading string literals: section 7 of RFC 8259, on bytes -----

  predicate IsHex(c: char) {
    '0' <= c <= '9' || 'a' <= c <= 'f' || 'A' <= c <= 'F'
  }

  function HexValue(c: char): (d: nat)
    requires IsHex(c)
    ensures d < 16
  {
    if c <= '9' then c as nat - '0' as nat
    else if c <= 'F' then 10 + (c as nat - 'A' as nat)
    else 10 + (c as nat - 'a' as nat)
  }

  /** The bytes of a 16-bit code unit. */
  function Utf8(u: nat): (b: Bytes)
    requires u < 0x10000
    ensures 1 <= |b| <= 3
  {
    if u < 0x80 then [u as char]
    else if u < 0x800 then [(0xC0 + u / 64) as char, (0x80 + u % 64) as char]
    else [(0xE0 + u / 4096) as char, (0x80 + u / 64 % 64) as char, (0x80 + u % 64) as char]
  }

  /** The escape that starts after a backslash: what it stands for and how many bytes it takes. */
  function ReadEscape(s: Bytes): (r: Option<(Bytes, nat)>)
    ensures r.Some? ==> r.value.1 <= |s| && 1 <= |r.value.0| <= r.value.1
  {
    if s == [] then None
    else if s[0] == '"' || s[0] == '\\' || s[0] == '/' then Some(([s[0]], 1))
    else if s[0] == 'b' then Some(([BACKSPACE], 1))
    else if s[0] == 'f' then Some(([FORM_FEED], 1))
    else if s[0] == 'n' then Some((['\n'], 1))
    else if s[0] == 'r' then Some((['\r'], 1))
    else if s[0] == 't' then Some((['\t'], 1))
    else if s[0] == 'u' && |s| >= 5 && IsHex(s[1]) && IsHex(s[2]) && IsHex(s[3]) && IsHex(s[4]) then
      Some((Utf8(4096 * HexValue(s[1]) + 256 * HexValue(s[2]) + 16 * HexValue(s[3]) + HexValue(s[4])), 5))
    else None
  }

  /** The characters of a literal up to its closing quote: their value, and what follows the quote. */
  function ReadChars(s: Bytes): (r: Option<(Bytes, Bytes)>)
    ensures r.Some? ==> |r.value.0| + |r.value.1| < |s|
  {
    if s == [] then None
    else if s[0] == '"' then Some(([], s[1..]))
    else if s[0] == '\\' then
      match ReadEscape(s[1..])
      case None => None
      case Some((b, n)) =>
        (match ReadChars(s[1 + n..])
         case None => None
         case Some((v, rest)) => Some((b + v, rest)))
    else if s[0] < ' ' then None
    else
      match ReadChars(s[1..])
      case None => None
      case Some((v, rest)) => Some(([s[0]] + v, rest))
  }

  function ReadString(s: Bytes): Option<(Bytes, Bytes)> {
    if s == [] || s[0] != '"' then None else ReadChars(s[1..])
  }

  /** One escaped byte is read back as that byte. */
  lemma ReadEscaped(c: char, tail: Bytes)
    ensures ReadChars(Escaped(c) + tail) == match ReadChars(tail) case None => None case Some((v, rest)) => Some(([c] + v, rest))
  {
    var e := Escaped(c);
    var s := e + tail;
    if e == [c] {
      assert s[1..] == tail;
    } else if |e| == 2 {
      assert s[2..] == tail;
      assert s[1..][0] == e[1];
      assert ReadEscape(s[1..]) == Some(([c], 1));
    } else {
      assert s[6..] == tail;
      ReadHexEscape(c, s[1..]);
    }
  }

  lemma ReadHexEscape(c: char, s: Bytes)
    requires c < ' ' && |s| >= 5
    requires s[0] == 'u' && s[1] == '0' && s[2] == '0' && s[3] == HexDigit(c as nat / 16) && s[4] == HexDigit(c as nat % 16)
    ensures ReadEscape(s) == Some(([c], 5))
  {
    assert 16 * (c as nat / 16) + c as nat % 16 == c as nat;
  }

  lemma Assoc(a: Bytes, b: Bytes, c: Bytes)
    ensures a + b + c == a + (b + c)
  {
  }

  lemma {:induction false} EscapedFront(s: Bytes)
    requires s != []
    ensures EscapedAll(s) == Escaped(s[0]) + EscapedAll(s[1..])
    decreases |s|
  {
    var last := Escaped(s[|s| - 1]);
    if |s| == 1 {
      assert s[..0] == [] && s[1..] == [];
      assert [] + last == last && last + [] == last;
    } else {
      EscapedFront(s[..|s| - 1]);
      assert s[1..][..|s| - 2] == s[..|s| - 1][1..];
      Assoc(Escaped(s[0]), EscapedAll(s[..|s| - 1][1..]), last);
    }
  }

  lemma {:induction false} ReadEscapedAll(s: Bytes, rest: Bytes)
    ensures ReadChars(EscapedAll(s) + ("\"" + rest)) == Some((s, rest))
  {
    var q := "\"" + rest;
    if s == [] {
      assert [] + q == q && q[1..] == rest;
    } else {
      var tail := EscapedAll(s[1..]) + q;
      ReadEscapedAll(s[1..], rest);
      EscapedFront(s);
      Assoc(Escaped(s[0]), EscapedAll(s[1..]), q);
      ReadEscaped(s[0], tail);
      assert [s[0]] + s[1..] == s;
    }
  }

  /** Every byte sequence is recovered from its literal, whatever follows the literal. */
  lemma QuoteRoundTrip(s: Bytes, rest: Bytes)
    ensures ReadString(Quote(s) + rest) == Some((s, rest))
  {
    ReadEscapedAll(s, rest);
    assert (Quote(s) + rest)[1..] == EscapedAll(s) + ("\"" + rest);
  }

  predicate NoControl(s: Bytes) {
    forall i :: 0 <= i < |s| ==> s[i] >= ' '
  }

  lemma EscapedNoControl(c: char)
    ensures NoControl(Escaped(c))
  {
  }

  lemma {:induction false} EscapedAllNoControl(s: Bytes)
    ensures NoControl(EscapedAll(s))
  {
    if s != [] {
      EscapedAllNoControl(s[..|s| - 1]);
      EscapedNoControl(s[|s| - 1]);
    }
  }

  /** A literal holds no raw control byte. */
  lemma QuoteHasNoControl(s: Bytes)
    ensures NoControl(Quote(s))
  {
    EscapedAllNoControl(s);
  }

  // ----- Bytes written between quotes without escaping -----

  predicate Clean(s: Bytes) {
    forall i :: 0 <= i < |s| ==> s[i] >= ' ' && s[i] != '"' && s[i] != '\\'
  }

  lemma {:induction false} CleanQuote(s: Bytes)
    requires Clean(s)
    ensures Quote(s) == "\"" + s + "\""
    decreases |s|
  {
    CleanEscaped(s);
  }

  lemma {:induction false} CleanEscaped(s: Bytes)
    requires Clean(s)
    ensures EscapedAll(s) == s
  {
    if s != [] {
      CleanEscaped(s[..|s| - 1]);
      assert s == s[..|s| - 1] + [s[|s| - 1]];
    }
  }

  /** Reading loses length exactly where there are escapes. */
  lemma {:induction false} LosslessIsClean(s: Bytes)
    requires ReadChars(s).Some?
    requires |ReadChars(s).value.0| + |ReadChars(s).value.1| + 1 == |s|
    ensures var v := ReadChars(s).value.0; Clean(v) && v <= s
  {
    if s[0] == '\\' {
      assert false;
    } else if s[0] != '"' {
      LosslessIsClean(s[1..]);
    }
  }

  /** Unescaped bytes between quotes are read back exactly when none of them is a quote, a backslash or a control byte. */
  lemma RawReadBack(raw: Bytes, rest: Bytes)
    ensures ReadString("\"" + raw + "\"" + rest) == Some((raw, rest)) <==> Clean(raw)
  {
    var s := "\"" + raw + "\"" + rest;
    if Clean(raw) {
      CleanQuote(raw);
      QuoteRoundTrip(raw, rest);
    }
    if ReadString(s) == Some((raw, rest)) {
      LosslessIsClean(s[1..]);
    }
  }

  /** A quote within an escape is what the escape stands for. */
  lemma {:induction false} EscapedQuote(t: Bytes, k: nat)
    requires ReadEscape(t).Some? && k < ReadEscape(t).value.1 && t[k] == '"'
    ensures ReadEscape(t).value.0 == ['"']
  {
  }

  /** The first character or escape of a literal, and the rest of it. */
  lemma {:induction false} CharsStep(s: Bytes, v: Bytes, rest: Bytes) returns (head: Bytes, used: nat)
    requires ReadChars(s) == Some((v, rest)) && s[0] != '"'
    ensures 1 <= |head| <= used <= |s| && |head| <= |v| && v[..|head|] == head
    ensures ReadChars(s[used..]) == Some((v[|head|..], rest))
    ensures forall k :: 0 <= k < used && s[k] == '"' ==> k > 0 && head == ['"']
  {
    if s[0] == '\\' {
      var (b, n) := ReadEscape(s[1..]).value;
      head, used := b, 1 + n;
      forall k | 0 < k < used && s[k] == '"'
        ensures head == ['"']
      {
        EscapedQuote(s[1..], k - 1);
      }
      assert v == b + v[|b|..];
    } else {
      head, used := [s[0]], 1;
      assert v == [s[0]] + v[1..];
    }
  }

  lemma {:induction false} EndsAtQuote(s: Bytes, v: Bytes, rest: Bytes)
    requires ReadChars(s) == Some((v, rest)) && s[0] == '"'
    ensures v == [] && |rest| == |s| - 1
  {
  }

  /** A quote that is read before the closing one comes from an escape, and so stands earlier in the value. */
  lemma {:induction false} QuoteComesEarlier(s: Bytes, v: Bytes, rest: Bytes, i: nat) returns (j: nat)
    requires ReadChars(s) == Some((v, rest)) && i < |s| - |rest| - 1 && s[i] == '"'
    ensures j < i && j < |v| && v[j] == '"'
    decreases |s|
  {
    if s[0] == '"' {
      EndsAtQuote(s, v, rest);
    }
    var head, used := CharsStep(s, v, rest);
    if i < used {
      assert head[0] == '"' && v[0] == v[..|head|][0];
      j := 0;
    } else {
      assert s[i] == s[used..][i - used];
      j := QuoteComesEarlier(s[used..], v[|head|..], rest, i - used);
      j := |head| + j;
    }
  }

  /** So a value that is the text up to a quote holds no quote before the closing one. */
  lemma {:induction false} NoQuoteBefore(s: Bytes, v: Bytes, rest: Bytes, i: nat)
    requires ReadChars(s) == Some((v, rest)) && |v| < |s| && v == s[..|v|]
    requires i <= |v| < |s| - |rest| - 1
    ensures s[i] != '"'
  {
    if s[i] == '"' {
      var j := QuoteComesEarlier(s, v, rest, i);
      NoQuoteBefore(s, v, rest, j);
    }
  }

  /** Whatever comes after them, unescaped bytes between quotes are read as themselves only when they need no escape. */
  lemma {:induction false} RawValueIsClean(raw: Bytes, rest: Bytes)
    requires ReadString("\"" + raw + "\"" + rest).Some? && ReadString("\"" + raw + "\"" + rest).value.0 == raw
    ensures Clean(raw)
  {
    var s := raw + "\"" + rest;
    assert ("\"" + raw + "\"" + rest)[1..] == s;
    var rest' := ReadChars(s).value.1;
    assert s[..|raw|] == raw && s[|raw|] == '"';
    if |raw| < |s| - |rest'| - 1 {
      NoQuoteBefore(s, raw, rest', |raw|);
    }
    LosslessIsClean(s);
  }
}

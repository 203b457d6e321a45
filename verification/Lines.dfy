/** Splitting text at a separator. */
module Lines {
  import opened Prelude

  function Split(s: Bytes, c: char): (parts: seq<Bytes>)
    ensures parts != []
    decreases |s|
  {
    var i := IndexOf(s, c);
    if i == |s| then [s] else [s[..i]] + Split(s[i + 1..], c)
  }

  /** Every part but the first behind a separator. */
  function JoinTail(parts: seq<Bytes>, c: char): Bytes {
    if parts == [] then [] else [c] + parts[0] + JoinTail(parts[1..], c)
  }

  function Join(parts: seq<Bytes>, c: char): Bytes
    requires parts != []
  {
    parts[0] + JoinTail(parts[1..], c)
  }

  predicate Without(s: Bytes, c: char) {
    forall i :: 0 <= i < |s| ==> s[i] != c
  }

  lemma FindFirst(a: Bytes, c: char, rest: Bytes)
    requires Without(a, c)
    ensures IndexOf(a + [c] + rest, c) == |a|
    ensures IndexOf(a, c) == |a|
  {
    var s := a + [c] + rest;
    assert forall j :: 0 <= j < |a| ==> s[j] == a[j];
    assert s[|a|] == c;
  }

  lemma SplitOne(a: Bytes, c: char, rest: Bytes)
    requires Without(a, c)
    ensures Split(a, c) == [a]
    ensures Split(a + [c] + rest, c) == [a] + Split(rest, c)
  {
    FindFirst(a, c, rest);
    var s := a + [c] + rest;
    assert s[..|a|] == a && s[|a| + 1..] == rest;
  }

  /** Parts without the separator are recovered by splitting. */
  lemma {:induction false} SplitJoin(parts: seq<Bytes>, c: char)
    requires parts != [] && forall i :: 0 <= i < |parts| ==> Without(parts[i], c)
    ensures Split(Join(parts, c), c) == parts
    decreases |parts|
  {
    if |parts| == 1 {
      assert parts[0] + [] == parts[0];
      SplitOne(parts[0], c, []);
      assert parts == [parts[0]];
    } else {
      SplitJoin(parts[1..], c);
      SplitOne(parts[0], c, Join(parts[1..], c));
      JoinMore(parts, c);
      assert parts == [parts[0]] + parts[1..];
    }
  }

  lemma JoinMore(parts: seq<Bytes>, c: char)
    requires |parts| > 1
    ensures Join(parts, c) == parts[0] + [c] + Join(parts[1..], c)
  {
    var rest := parts[1..];
    assert JoinTail(rest, c) == [c] + rest[0] + JoinTail(rest[1..], c);
    assert [c] + rest[0] + JoinTail(rest[1..], c) == [c] + Join(rest, c);
    assert parts[0] + ([c] + Join(rest, c)) == parts[0] + [c] + Join(rest, c);
  }

  /** Splitting yields one piece more than there are separators. */
  lemma {:induction false} SplitCounts(s: Bytes, c: char)
    ensures |Split(s, c)| == 1 + multiset(s)[c]
    decreases |s|
  {
    var i := IndexOf(s, c);
    if i < |s| {
      assert s == s[..i] + [c] + s[i + 1..];
      CountWithout(s[..i], c);
      CountJoined(s[..i], c, s[i + 1..]);
      SplitCounts(s[i + 1..], c);
      SplitOne(s[..i], c, s[i + 1..]);
    } else {
      CountWithout(s, c);
    }
  }

  lemma CountWithout(s: Bytes, c: char)
    requires Without(s, c)
    ensures multiset(s)[c] == 0
  {
    assert c !in s;
  }

  lemma CountJoined(a: Bytes, c: char, b: Bytes)
    ensures multiset(a + [c] + b)[c] == multiset(a)[c] + 1 + multiset(b)[c]
  {
    assert multiset(a + [c] + b) == multiset(a) + multiset{c} + multiset(b);
  }

  /** Parts that hold the separator themselves split into more pieces. */
  lemma SplitMore(parts: seq<Bytes>, c: char)
    requires parts != [] && exists i :: 0 <= i < |parts| && !Without(parts[i], c)
    ensures |Split(Join(parts, c), c)| > |parts|
  {
    SplitCounts(Join(parts, c), c);
    JoinCounts(parts, c);
  }

  lemma {:induction false} JoinCounts(parts: seq<Bytes>, c: char)
    requires parts != []
    ensures multiset(Join(parts, c))[c] >= |parts| - 1
    ensures (exists i :: 0 <= i < |parts| && !Without(parts[i], c)) ==> multiset(Join(parts, c))[c] >= |parts|
    decreases |parts|
  {
    if |parts| == 1 {
      assert Join(parts, c) == parts[0];
    } else {
      JoinMore(parts, c);
      JoinCounts(parts[1..], c);
      CountJoined(parts[0], c, Join(parts[1..], c));
      if i :| 0 <= i < |parts| && !Without(parts[i], c) {
        if i > 0 {
          assert !Without(parts[1..][i - 1], c);
        }
      }
    }
  }
}

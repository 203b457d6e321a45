/** util.StringSet (pkg/util/strings.go): an ordered list of strings without duplicates. */
module StringSets {
  import opened Prelude

  /** StringSet.Append: the values that are not in the set yet, in order. */
  function AppendNew(ss: seq<string>, values: seq<string>): seq<string>
    decreases |values|
  {
    if values == [] then ss
    else AppendNew(if values[0] in ss then ss else ss + [values[0]], values[1..])
  }

  /** The elements of s, each once, in the order of their first occurrence. */
  function FirstOccurrences(s: seq<string>): (u: seq<string>)
    ensures forall x :: x in u <==> x in s
  {
    if s == [] then []
    else
      var last := s[|s| - 1];
      var u := FirstOccurrences(s[..|s| - 1]);
      assert s == s[..|s| - 1] + [last];
      if last in s[..|s| - 1] then u else u + [last]
  }

  /** The position of x's first occurrence. */
  function FirstIndex(s: seq<string>, x: string): (i: nat)
    requires x in s
    ensures i < |s| && s[i] == x && forall j :: 0 <= j < i ==> s[j] != x
  {
    if s[0] == x then 0 else 1 + FirstIndex(s[1..], x)
  }

  /** FirstOccurrences is the duplicate-free union that keeps the order of first appearance. */
  lemma {:induction false} FirstOccurrencesOrdered(s: seq<string>)
    ensures NoDup(FirstOccurrences(s))
    ensures forall i, j :: 0 <= i < j < |FirstOccurrences(s)| ==>
              FirstIndex(s, FirstOccurrences(s)[i]) < FirstIndex(s, FirstOccurrences(s)[j])
  {
    if s != [] {
      var front, last := s[..|s| - 1], s[|s| - 1];
      assert s == front + [last];
      FirstOccurrencesOrdered(front);
      var u := FirstOccurrences(front);
      forall x | x in u
        ensures FirstIndex(s, x) == FirstIndex(front, x)
      {
        FirstIndexPrefix(front, last, x);
      }
    }
  }

  lemma FirstIndexPrefix(front: seq<string>, last: string, x: string)
    requires x in front
    ensures FirstIndex(front + [last], x) == FirstIndex(front, x)
  {
    assert (front + [last])[FirstIndex(front, x)] == x;
  }

  /** Appending to a union of a yields the union of a and the appended values. */
  lemma {:induction false} AppendNewUnion(a: seq<string>, b: seq<string>)
    ensures AppendNew(FirstOccurrences(a), b) == FirstOccurrences(a + b)
    decreases |b|
  {
    if b == [] {
      assert a + b == a;
    } else {
      var a' := a + [b[0]];
      assert a'[..|a'| - 1] == a;
      assert a' + b[1..] == a + b;
      AppendNewUnion(a', b[1..]);
    }
  }

  /** The nested search loops of StringSet.Append. */
  method Append(ss: seq<string>, values: seq<string>) returns (r: seq<string>)
    ensures r == AppendNew(ss, values)
  {
    r := ss;
    for n := 0 to |values|
      invariant AppendNew(r, values[n..]) == AppendNew(ss, values)
    {
      var v := values[n];
      var found := false;
      for i := 0 to |r|
        invariant !found && v !in r[..i]
      {
        if r[i] == v {
          found := true;
          break;
        }
      }
      assert r[..|r|] == r;
      assert values[n..][1..] == values[n + 1..];
      if !found {
        r := r + [v];
      }
    }
    assert values[|values|..] == [];
  }
}

/** Right-to-left decimal printing (pkg/util/bytes.go). */
module Digits {
  import opened Arithmetic
  import opened Prelude

  function Digit(d: nat): (c: char)
    requires d < 10
    ensures '0' <= c <= '9'
  {
    '0' + d as char
  }

  predicate IsDigit(c: char) {
    '0' <= c <= '9'
  }

  function ValueOf(c: char): (d: nat)
    requires IsDigit(c)
    ensures d < 10
  {
    c as nat - '0' as nat
  }

  predicate AllDigits(s: Bytes) {
    forall i :: 0 <= i < |s| ==> IsDigit(s[i])
  }

  /** The decimal numeral of n, without leading zeros. */
  function Decimal(n: nat): (s: Bytes)
    ensures |s| > 0 && AllDigits(s)
  {
    if n < 10 then [Digit(n)] else Decimal(n / 10) + [Digit(n % 10)]
  }

  /** The number a string of digits denotes. */
  function Parse(s: Bytes): nat
    requires AllDigits(s)
  {
    if s == [] then 0 else 10 * Parse(s[..|s| - 1]) + ValueOf(s[|s| - 1])
  }

  function Pow10(k: nat): (p: nat)
    ensures p > 0
  {
    if k == 0 then 1 else 10 * Pow10(k - 1)
  }

  /** The last w digits of n, zero-padded: the numeral of n modulo 10^w in exactly w places. */
  function Low(n: nat, w: nat): (s: Bytes)
    ensures |s| == w && AllDigits(s)
  {
    if w == 0 then [] else Low(n / 10, w - 1) + [Digit(n % 10)]
  }

  lemma {:induction false} ParseDecimal(n: nat)
    ensures Parse(Decimal(n)) == n
  {
    var s := Decimal(n);
    if n >= 10 {
      ParseDecimal(n / 10);
      assert s[..|s| - 1] == Decimal(n / 10);
    } else {
      assert s[..|s| - 1] == [];
    }
  }

  /** No leading zero, except in "0" itself. */
  lemma {:induction false} DecimalCanonical(n: nat)
    ensures n > 0 ==> Decimal(n)[0] != '0'
    ensures n == 0 ==> Decimal(n) == "0"
  {
    if n >= 10 {
      DecimalCanonical(n / 10);
    }
  }

  /** The numeral of n has at most k digits exactly when n is below 10^k. */
  lemma {:induction false} DecimalLength(n: nat, k: nat)
    requires k > 0
    ensures |Decimal(n)| <= k <==> n < Pow10(k)
  {
    if n >= 10 {
      if k > 1 {
        DecimalLength(n / 10, k - 1);
      }
    } else {
      assert Pow10(k) >= 10 by {
        assert Pow10(k) == 10 * Pow10(k - 1);
      }
    }
  }

  lemma {:induction false} ParseLow(n: nat, w: nat)
    ensures Parse(Low(n, w)) == n % Pow10(w)
  {
    if w > 0 {
      ParseLow(n / 10, w - 1);
      assert Low(n, w)[..w - 1] == Low(n / 10, w - 1);
      ModStep(n, Pow10(w - 1));
    }
  }

  lemma ModStep(n: nat, m: nat)
    requires m > 0
    ensures 10 * (n / 10 % m) + n % 10 == n % (10 * m)
  {
    var q, r := n / 10 / m, n / 10 % m;
    assert n == 10 * (q * m + r) + n % 10;
    assert n == q * (10 * m) + (10 * r + n % 10);
    ModUnique(n, 10 * m, q, 10 * r + n % 10);
  }

  /** Leading padding zeros do not change the value. */
  lemma {:induction false} ParseZeros(k: nat, s: Bytes)
    requires AllDigits(s)
    ensures AllDigits(Repeat('0', k) + s) && Parse(Repeat('0', k) + s) == Parse(s)
    decreases k + |s|
  {
    var t := Repeat('0', k) + s;
    if s != [] {
      ParseZeros(k, s[..|s| - 1]);
      assert t[..|t| - 1] == Repeat('0', k) + s[..|s| - 1];
    } else if k > 0 {
      ParseZeros(k - 1, []);
      assert t[..|t| - 1] == Repeat('0', k - 1) + [];
    }
  }

  /** With enough room, the low digits are the numeral behind padding zeros. */
  lemma {:induction false} LowIsPadded(n: nat, w: nat)
    requires |Decimal(n)| <= w
    ensures Low(n, w) == Repeat('0', w - |Decimal(n)|) + Decimal(n)
  {
    if n >= 10 {
      LowIsPadded(n / 10, w - 1);
    } else {
      LowOfZero(w - 1);
      assert n / 10 == 0;
      assert Repeat('0', w - 1) + [Digit(n)] == Low(n, w);
    }
  }

  lemma {:induction false} LowOfZero(w: nat)
    ensures Low(0, w) == Repeat('0', w)
  {
    if w > 0 {
      LowOfZero(w - 1);
    }
  }

  /** What right-aligned printing leaves in a field of width w: the numeral, or its last w digits. */
  function Fitted(n: nat, w: nat): Bytes {
    if |Decimal(n)| <= w then Decimal(n) else Low(n, w)
  }

  /** The digits written into a field denote n modulo 10^w. */
  lemma FittedValue(n: nat, w: nat)
    ensures AllDigits(Fitted(n, w)) && Parse(Fitted(n, w)) == n % Pow10(w)
    ensures |Fitted(n, w)| <= w
  {
    ParseLow(n, w);
    ParseDecimal(n);
    if |Decimal(n)| <= w {
      LowIsPadded(n, w);
      ParseZeros(w - |Decimal(n)|, Decimal(n));
    }
  }

  /** Writing c just left of the part w that has been written so far. */
  lemma PutLeft(before: Bytes, i: nat, w: Bytes, tail: Bytes, c: char)
    requires i < |before|
    ensures (before[..i + 1] + w + tail)[i := c] == before[..i] + ([c] + w) + tail
  {
  }

  /** The printing loop: digits of n are written leftwards until one digit is left or the field is full. */
  method PrintLoop(dst: array<char>, lo: nat, hi: nat, n: nat) returns (i: nat, m: nat)
    requires lo <= hi <= dst.Length
    modifies dst
    ensures lo <= i <= hi && m == Shifted(n, hi - i)
    ensures dst[..] == old(dst[..])[..i] + Written(n, hi - i) + old(dst[..])[hi..]
    ensures Decimal(n) == Decimal(m) + Written(n, hi - i)
    ensures i == lo || m < 10
  {
    i, m := hi, n;
    ghost var before := dst[..];
    while i > lo && m >= 10
      invariant lo <= i <= hi && m == Shifted(n, hi - i)
      invariant dst[..] == before[..i] + Written(n, hi - i) + before[hi..]
      invariant Decimal(n) == Decimal(m) + Written(n, hi - i)
    {
      i := i - 1;
      var q := m / 10;
      PutLeft(before, i, Written(n, hi - i - 1), before[hi..], Digit(m - q * 10));
      dst[i] := Digit(m - q * 10);
      m := q;
    }
  }

  /** The field in decimal: the numeral itself, or its last hi - lo digits when the field is full. */
  lemma PrintedIsFitted(n: nat, w: nat, k: nat, m: nat)
    requires k <= w && m == Shifted(n, k) && Decimal(n) == Decimal(m) + Written(n, k) && (k == w || m < 10)
    ensures k < w ==> [Digit(m)] + Written(n, k) == Fitted(n, w)
    ensures k == w ==> Written(n, k) == Fitted(n, w)
  {
    WrittenIsLow(n, k);
  }

  /** CopyRightUint on the part dst[lo..hi] of a buffer. */
  method CopyRightUint(dst: array<char>, lo: nat, hi: nat, n: nat) returns (offset: nat)
    requires lo <= hi <= dst.Length
    modifies dst
    ensures lo <= offset <= hi
    ensures dst[..] == old(dst[..])[..offset] + Fitted(n, hi - lo) + old(dst[..])[hi..]
  {
    ghost var before := dst[..];
    var i, m := PrintLoop(dst, lo, hi, n);
    PrintedIsFitted(n, hi - lo, hi - i, m);
    if i > lo {
      i := i - 1;
      PutLeft(before, i, Written(n, hi - i - 1), before[hi..], Digit(m));
      dst[i] := Digit(m);
    }
    offset := i;
  }

  /** CopyPaddingRightUint on a whole buffer: like CopyRightUint, then filled with c up to p places. */
  method CopyPaddingRightUint(dst: array<char>, n: nat, p: int, c: char) returns (offset: nat)
    requires p <= dst.Length
    modifies dst
    ensures offset <= dst.Length
    ensures dst[..] == old(dst[..])[..offset] + Padded(Fitted(n, dst.Length), p, c)
  {
    ghost var before := dst[..];
    var i, m := PrintLoop(dst, 0, dst.Length, n);
    PrintedIsFitted(n, dst.Length, dst.Length - i, m);
    if i > 0 {
      i := i - 1;
      PutLeft(before, i, Written(n, dst.Length - i - 1), before[dst.Length..], Digit(m));
      dst[i] := Digit(m);
      ghost var w, j := Fitted(n, dst.Length), i;
      ghost var printed := dst[..];
      assert printed == before[..i] + w;
      i := PadLeft(dst, i, dst.Length - p, c);
      PadPrinted(before, printed, w, i, j, p, c);
    }
    offset := i;
  }

  /** Filling from position j down to r in front of a printed w pads it to p places. */
  lemma PadPrinted(before: Bytes, printed: Bytes, w: Bytes, r: nat, j: nat, p: int, c: char)
    requires j <= |before| && printed == before[..j] + w && |printed| == |before|
    requires p <= |before| && r == if j > |before| - p then |before| - p else j
    ensures printed[..r] + Repeat(c, j - r) + printed[j..] == before[..r] + Padded(w, p, c)
  {
    assert printed[j..] == w && printed[..r] == before[..r];
    if r == j {
      assert Repeat(c, j - r) == [];
    }
  }

  /** Fills with c leftwards from position i down to position o. */
  method PadLeft(dst: array<char>, i: nat, o: int, c: char) returns (r: nat)
    requires i <= dst.Length && o >= 0
    modifies dst
    ensures r == if i > o then o else i
    ensures dst[..] == old(dst[..])[..r] + Repeat(c, i - r) + old(dst[..])[i..]
  {
    r := i;
    ghost var before := dst[..];
    while r > o
      invariant r <= i && (r < i ==> r >= o)
      invariant dst[..] == before[..r] + Repeat(c, i - r) + before[i..]
    {
      r := r - 1;
      PutLeft(before, r, Repeat(c, i - r - 1), before[i..], c);
      dst[r] := c;
      assert [c] + Repeat(c, i - r - 1) == Repeat(c, i - r);
    }
  }

  /** s filled up with c on the left to p places. */
  function Padded(s: Bytes, p: int, c: char): Bytes {
    if |s| >= p then s else Repeat(c, p - |s|) + s
  }

  const MAX_INT: nat := 0x7fff_ffff_ffff_ffff

  /**
   * AppendPaddingUint: the numeral of n, filled up with c to p places. The source panics on other arguments, and its
   * integers end at MAX_INT.
   */
  method AppendPaddingUint(dst: Bytes, n: nat, p: int, c: char) returns (r: Bytes)
    requires n <= MAX_INT && p <= 20
    ensures r == dst + Padded(Decimal(n), p, c)
  {
    var b := new char[20];
    var off := CopyPaddingRightUint(b, n, p, c);
    assert Pow10(20) == 100_000_000_000_000_000_000 by {
      assert Pow10(5) == 100_000;
      assert Pow10(10) == 10_000_000_000;
      assert Pow10(15) == 1_000_000_000_000_000;
    }
    DecimalLength(n, 20);
    r := dst + b[off..];
  }

  /** The padded numeral has max(p, number of digits) places, and without its padding it denotes n. */
  lemma PaddedMeaning(n: nat, p: int, c: char)
    ensures var s := Padded(Decimal(n), p, c);
            && |s| == (if |Decimal(n)| >= p then |Decimal(n)| else p)
            && s[|s| - |Decimal(n)|..] == Decimal(n)
            && Parse(Decimal(n)) == n
            && (forall i :: 0 <= i < |s| - |Decimal(n)| ==> s[i] == c)
            && (c == '0' ==> AllDigits(s) && Parse(s) == n)
  {
    ParseDecimal(n);
    if |Decimal(n)| < p {
      ParseZeros(p - |Decimal(n)|, Decimal(n));
    }
  }

  /** n without its last k digits. */
  function Shifted(n: nat, k: nat): nat {
    if k == 0 then n else Shifted(n, k - 1) / 10
  }

  /** The last k digits of n, written from the right. */
  function Written(n: nat, k: nat): (s: Bytes)
    ensures |s| == k
  {
    if k == 0 then [] else [Digit(Shifted(n, k - 1) % 10)] + Written(n, k - 1)
  }

  lemma {:induction false} WrittenIsLow(n: nat, k: nat)
    ensures Written(n, k) == Low(n, k)
  {
    if k > 0 {
      WrittenIsLow(n, k - 1);
      LowFront(n, k);
    }
  }

  lemma {:induction false} LowFront(n: nat, k: nat)
    requires k > 0
    ensures Low(n, k) == [Digit(Shifted(n, k - 1) % 10)] + Low(n, k - 1)
  {
    if k > 1 {
      LowFront(n / 10, k - 1);
      ShiftedFront(n, k - 1);
    }
  }

  lemma {:induction false} ShiftedFront(n: nat, k: nat)
    requires k > 0
    ensures Shifted(n, k) == Shifted(n / 10, k - 1)
  {
    if k > 1 {
      ShiftedFront(n, k - 1);
    }
  }

  /** fasthttp.AppendUint: None stands for its panic. */
  method AppendUint(dst: Bytes, n: int) returns (r: Option<Bytes>)
    ensures r == if n < 0 then None else Some(dst + Decimal(n))
  {
    if n < 0 {
      return None;
    }
    r := Some(dst + Decimal(n));
  }
}

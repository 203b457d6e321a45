/**
 * The cache-key builder (pkg/util/cache.go). The 64-bit hash is taken to be collision-free: a key is
 * represented by the bytes that were fed to it.
 */
module CacheKeys {
  import opened Prelude

  const UINT32: nat := 0x1_0000_0000

  datatype CacheKey = CacheKey(fed: Bytes)

  /** binary.LittleEndian.PutUint32 of uint32(n): higher bits of n are cut off. */
  function LE32(n: nat): (b: Bytes)
    ensures |b| == 4
  {
    [(n % 256) as char, (n / 256 % 256) as char, (n / 256 / 256 % 256) as char, (n / 256 / 256 / 256 % 256) as char]
  }

  function FromLE32(b: Bytes): nat
    requires |b| == 4
  {
    b[0] as nat + 256 * (b[1] as nat + 256 * (b[2] as nat + 256 * b[3] as nat))
  }

  lemma LE32RoundTrip(n: nat)
    ensures FromLE32(LE32(n)) == n % UINT32
  {
    var n1 := n / 256;
    var n2 := n1 / 256;
    var n3 := n2 / 256;
    RemainderUnique(n, n3 / 256, n % 256 + 256 * (n1 % 256 + 256 * (n2 % 256 + 256 * (n3 % 256))));
  }

  lemma RemainderUnique(n: nat, q: nat, r: nat)
    requires n == UINT32 * q + r && r < UINT32
    ensures n % UINT32 == r
  {
  }

  /** The bytes the hash receives when the fields are written one after the other. */
  function EncodeFields(fields: seq<Bytes>): Bytes {
    if fields == [] then []
    else LE32(|fields[0]|) + fields[0] + EncodeFields(fields[1..])
  }

  /** Reads length-prefixed fields back. */
  function DecodeFields(b: Bytes): Option<seq<Bytes>>
    decreases |b|
  {
    if b == [] then Some([])
    else if |b| < 4 then None
    else
      var n := FromLE32(b[..4]);
      if |b| < 4 + n then None
      else
        match DecodeFields(b[4 + n..])
        case None => None
        case Some(rest) => Some([b[4..4 + n]] + rest)
  }

  ghost predicate Short(fields: seq<Bytes>) {
    forall f :: f in fields ==> |f| < UINT32
  }

  lemma DecodeStep(f: Bytes, rest: seq<Bytes>, tail: Bytes)
    requires |f| < UINT32 && DecodeFields(tail) == Some(rest)
    ensures DecodeFields(LE32(|f|) + f + tail) == Some([f] + rest)
  {
    LE32RoundTrip(|f|);
    DecodeParts(LE32(|f|), f, tail);
  }

  lemma DecodeParts(prefix: Bytes, f: Bytes, tail: Bytes)
    requires |prefix| == 4 && FromLE32(prefix) == |f| && DecodeFields(tail).Some?
    ensures DecodeFields(prefix + f + tail) == Some([f] + DecodeFields(tail).value)
  {
    var b := prefix + f + tail;
    assert b[..4] == prefix;
    assert b[4..4 + |f|] == f;
    assert b[4 + |f|..] == tail;
  }

  lemma {:induction false} FieldsRoundTrip(fields: seq<Bytes>)
    requires Short(fields)
    ensures DecodeFields(EncodeFields(fields)) == Some(fields)
  {
    if fields != [] {
      var f, rest := fields[0], fields[1..];
      FieldsRoundTrip(rest);
      DecodeStep(f, rest, EncodeFields(rest));
      assert fields == [f] + rest;
    }
  }

  /** The length prefix makes the split between fields, and their number, part of the key. */
  lemma FieldsInjective(fs: seq<Bytes>, gs: seq<Bytes>)
    requires Short(fs) && Short(gs)
    requires EncodeFields(fs) == EncodeFields(gs)
    ensures fs == gs
  {
    FieldsRoundTrip(fs);
    FieldsRoundTrip(gs);
  }

  /** The key CachedRoute looks up for (method, path, off). */
  function QueryKey(verb: Bytes, path: Bytes, off: nat): CacheKey {
    CacheKey(EncodeFields([LE32(off), verb, path]))
  }

  /** Two lookups share a key exactly when method and path agree and the offsets agree modulo 2^32. */
  lemma QueryKeyExact(m: Bytes, p: Bytes, off: nat, m': Bytes, p': Bytes, off': nat)
    requires |m| < UINT32 && |p| < UINT32 && |m'| < UINT32 && |p'| < UINT32
    ensures QueryKey(m, p, off) == QueryKey(m', p', off') <==> m == m' && p == p' && off % UINT32 == off' % UINT32
  {
    var fs, gs := [LE32(off), m, p], [LE32(off'), m', p'];
    LE32RoundTrip(off);
    LE32RoundTrip(off');
    if QueryKey(m, p, off) == QueryKey(m', p', off') {
      FieldsInjective(fs, gs);
      assert fs[0] == gs[0] && fs[1] == gs[1] && fs[2] == gs[2];
    }
    if off % UINT32 == off' % UINT32 {
      LE32Truncates(off, off');
    }
  }

  lemma SmallMod(n: nat)
    requires n < UINT32
    ensures n % UINT32 == n
  {
  }

  /** Offsets below 2^32: the key is the lookup. */
  lemma SameKeySameLookup(m: Bytes, p: Bytes, off: nat, m': Bytes, p': Bytes, off': nat)
    requires |m| < UINT32 && |p| < UINT32 && off < UINT32 && |m'| < UINT32 && |p'| < UINT32 && off' < UINT32
    requires QueryKey(m, p, off) == QueryKey(m', p', off')
    ensures m == m' && p == p' && off == off'
  {
    SmallMod(off);
    SmallMod(off');
    QueryKeyExact(m, p, off, m', p', off');
  }

  /** uint32 cut-off: the prefix depends on n modulo 2^32 only. */
  lemma LE32Truncates(n: nat, m: nat)
    requires n % UINT32 == m % UINT32
    ensures LE32(n) == LE32(m)
  {
    LE32RoundTrip(n);
    LE32RoundTrip(m);
    FromLE32Injective(LE32(n), LE32(m));
  }

  lemma FromLE32Injective(a: Bytes, b: Bytes)
    requires |a| == |b| == 4 && FromLE32(a) == FromLE32(b)
    requires forall i :: 0 <= i < 4 ==> a[i] as nat < 256 && b[i] as nat < 256
    ensures a == b
  {
    var x, y := a[1] as nat + 256 * (a[2] as nat + 256 * a[3] as nat), b[1] as nat + 256 * (b[2] as nat + 256 * b[3] as nat);
    assert a[0] as nat + 256 * x == b[0] as nat + 256 * y;
    var x', y' := a[2] as nat + 256 * a[3] as nat, b[2] as nat + 256 * b[3] as nat;
    assert a[1] as nat + 256 * x' == b[1] as nat + 256 * y';
    assert a[0] == b[0] && a[1] == b[1] && a[2] == b[2] && a[3] == b[3];
  }

  /** CacheKeyBuilder: fields are written one at a time into the running hash. */
  class CacheKeyBuilder {
    var fed: Bytes
    ghost var fields: seq<Bytes>

    ghost predicate Valid()
      reads this
    {
      fed == EncodeFields(fields)
    }

    /** AcquireCacheKeyBuilder: an empty hash state. */
    constructor ()
      ensures Valid() && fields == []
    {
      fed, fields := [], [];
    }

    method Write(p: Bytes)
      requires Valid()
      modifies this
      ensures Valid() && fields == old(fields) + [p]
    {
      EncodeSnoc(fields, p);
      fed := fed + LE32(|p|);
      fed := fed + p;
      fields := fields + [p];
    }

    method Sum() returns (key: CacheKey)
      requires Valid()
      ensures key == CacheKey(EncodeFields(fields))
    {
      key := CacheKey(fed);
    }
  }

  lemma {:induction false} EncodeSnoc(fields: seq<Bytes>, p: Bytes)
    ensures EncodeFields(fields + [p]) == EncodeFields(fields) + LE32(|p|) + p
  {
    if fields == [] {
      assert (fields + [p])[1..] == [];
      assert EncodeFields(fields + [p]) == LE32(|p|) + p + [];
    } else {
      assert (fields + [p])[1..] == fields[1..] + [p];
      EncodeSnoc(fields[1..], p);
    }
  }
}

/** Byte-level building blocks: fixed-width integers, ULEB128 and an append-only buffer. */
module Encoding {
  import opened Words

  function Pow256(k: nat): (p: nat)
    ensures p >= 1
  {
    if k == 0 then 1 else 256 * Pow256(k - 1)
  }

  lemma Pow256Widths()
    ensures Pow256(2) == 65536 && Pow256(4) == TWO32 && Pow256(8) == TWO64
  {
    assert Pow256(2) == 65536;
    assert Pow256(4) == TWO32;
    assert Pow256(6) == 0x1_0000_0000_0000;
  }

  /** Byte `i` of `n`, least significant first; negative `n` reads as two's complement. */
  function ByteAt(n: int, i: nat): u8
    decreases i
  {
    if i == 0 then n % 256 else ByteAt(n / 256, i - 1)
  }

  /** The low `k` bytes of `n`, least significant first. */
  function LE(n: int, k: nat): Bytes {
    seq(k, i requires 0 <= i < k => ByteAt(n, i))
  }

  /** The low `k` bytes of `n`, most significant first. */
  function BE(n: int, k: nat): Bytes {
    seq(k, i requires 0 <= i < k => ByteAt(n, k - 1 - i))
  }

  function FromBE(s: Bytes): nat {
    if s == [] then 0 else 256 * FromBE(s[..|s| - 1]) + s[|s| - 1]
  }

  lemma ModSplit(n: int, m: int)
    requires m >= 1
    ensures n % (256 * m) == n % 256 + 256 * ((n / 256) % m)
  {
    var r, a := n % 256, n / 256;
    var s, b := a % m, a / m;
    assert n == 256 * m * b + (256 * s + r) by {
      assert a == m * b + s;
      assert n == 256 * (m * b + s) + r;
    }
    assert 0 <= 256 * s + r < 256 * m;
    DivModUnique(n, 256 * m, b, 256 * s + r);
  }

  lemma {:induction false} BEValue(n: int, k: nat)
    ensures FromBE(BE(n, k)) == n % Pow256(k)
    decreases k
  {
    if k > 0 {
      BEValue(n / 256, k - 1);
      ModSplit(n, Pow256(k - 1));
      forall i | 0 <= i < k - 1 ensures BE(n, k)[i] == BE(n / 256, k - 1)[i] {
        assert ByteAt(n, k - 1 - i) == ByteAt(n / 256, k - 1 - i - 1);
      }
      assert BE(n, k)[..k - 1] == BE(n / 256, k - 1);
      assert BE(n, k)[k - 1] == ByteAt(n, 0);
    }
  }

  /** A field of `k` bytes holds exactly the value modulo 256^k. */
  lemma {:induction false} LEExact(m: int, n: int, k: nat)
    ensures LE(m, k) == LE(n, k) <==> m % Pow256(k) == n % Pow256(k)
    decreases k
  {
    if k > 0 {
      LEExact(m / 256, n / 256, k - 1);
      ModSplit(m, Pow256(k - 1));
      ModSplit(n, Pow256(k - 1));
      assert LE(m, k)[1..] == LE(m / 256, k - 1) && LE(m, k)[0] == m % 256;
      assert LE(n, k)[1..] == LE(n / 256, k - 1) && LE(n, k)[0] == n % 256;
      if LE(m, k)[1..] == LE(n, k)[1..] && LE(m, k)[0] == LE(n, k)[0] {
        assert LE(m, k) == [LE(m, k)[0]] + LE(m, k)[1..] == LE(n, k);
      }
    }
  }

  /** A 64-bit field determines the unsigned word written into it. */
  lemma LE64(m: u64, n: u64)
    ensures LE(m, 8) == LE(n, 8) <==> m == n
  {
    LEExact(m, n, 8);
    Pow256Widths();
  }

  lemma SignedResidue(m: i64, n: i64)
    ensures m % TWO64 == n % TWO64 <==> m == n
  {
  }

  /** A 64-bit field determines the signed word written into it. */
  lemma LEI64(m: i64, n: i64)
    ensures LE(m, 8) == LE(n, 8) <==> m == n
  {
    LEExact(m, n, 8);
    SignedResidue(m, n);
    Pow256Widths();
  }

  /** A 32-bit field holds exactly the value modulo 2^32. */
  lemma LE32(m: int, n: int)
    ensures LE(m, 4) == LE(n, 4) <==> m % TWO32 == n % TWO32
  {
    LEExact(m, n, 4);
    Pow256Widths();
  }

  /** Unsigned LEB128: seven bits a byte, least significant first, high bit on all but the last. */
  function Uleb(n: nat): Bytes {
    if n < 128 then [n] else [n % 128 + 128] + Uleb(n / 128)
  }

  /** Reads one ULEB128 number off the front; returns it with the bytes after it. */
  function ReadUleb(s: Bytes): Option<(nat, Bytes)> {
    if s == [] then None
    else if s[0] < 128 then Some((s[0], s[1..]))
    else
      match ReadUleb(s[1..])
      case Some((hi, rest)) => Some((s[0] - 128 + 128 * hi, rest))
      case None => None
  }

  lemma {:induction false} UlebRoundTrip(n: nat, rest: Bytes)
    ensures ReadUleb(Uleb(n) + rest) == Some((n, rest))
  {
    var s := Uleb(n) + rest;
    if n < 128 {
      assert s[1..] == rest;
    } else {
      assert s[1..] == Uleb(n / 128) + rest;
      UlebRoundTrip(n / 128, rest);
    }
  }

  /** ULEB128 is prefix-free: what follows a number cannot change how it reads. */
  lemma UlebPrefixFree(m: nat, n: nat, r: Bytes, s: Bytes)
    requires Uleb(m) + r == Uleb(n) + s
    ensures m == n && r == s
  {
    UlebRoundTrip(m, r);
    UlebRoundTrip(n, s);
  }

  function Flatten(fields: seq<Bytes>): Bytes {
    if fields == [] then []
    else Flatten(fields[..|fields| - 1]) + fields[|fields| - 1]
  }

  lemma {:induction false} FlattenAppend(a: seq<Bytes>, b: seq<Bytes>)
    ensures Flatten(a + b) == Flatten(a) + Flatten(b)
  {
    if b == [] {
      assert a + b == a;
    } else {
      var init := b[..|b| - 1];
      assert (a + b)[..|a + b| - 1] == a + init;
      FlattenAppend(a, init);
    }
  }

  ghost predicate SameWidths(a: seq<Bytes>, b: seq<Bytes>) {
    |a| == |b| && forall i :: 0 <= i < |a| ==> |a[i]| == |b[i]|
  }

  /** Records with the same field widths, whatever follows them, agree field by field when their bytes do. */
  lemma {:induction false} FlattenInjective(a: seq<Bytes>, b: seq<Bytes>, r: Bytes, s: Bytes)
    requires SameWidths(a, b)
    requires Flatten(a) + r == Flatten(b) + s
    ensures a == b && r == s
  {
    if a == [] {
      assert [] + r == r && [] + s == s;
    } else {
      var n := |a| - 1;
      assert Flatten(a) + r == Flatten(a[..n]) + (a[n] + r);
      assert Flatten(b) + s == Flatten(b[..n]) + (b[n] + s);
      FlattenInjective(a[..n], b[..n], a[n] + r, b[n] + s);
      SplitConcat(a[n], r, b[n], s);
      assert a == a[..n] + [a[n]] == b[..n] + [b[n]] == b;
    }
  }

  /** The bytes of a record after its first `k` fields. */
  ghost function FlattenTo(fields: seq<Bytes>, k: nat): Bytes
    requires k <= |fields|
  {
    if k == 0 then [] else FlattenTo(fields, k - 1) + fields[k - 1]
  }

  lemma {:induction false} FlattenWhole(fields: seq<Bytes>, k: nat)
    requires k <= |fields|
    ensures FlattenTo(fields, k) == Flatten(fields[..k])
    ensures k == |fields| ==> FlattenTo(fields, k) == Flatten(fields)
  {
    assert k == |fields| ==> fields[..k] == fields;
    if k > 0 {
      FlattenWhole(fields, k - 1);
      assert fields[..k][..k - 1] == fields[..k - 1];
    }
  }

  /** Appends field `k` of a record whose first `k` fields are already in `buf`. */
  method WriteField(buf: Bytes, b: Bytes, ghost fields: seq<Bytes>, ghost k: nat) returns (out: Bytes)
    requires k < |fields| && fields[k] == b
    requires buf == FlattenTo(fields, k)
    ensures out == FlattenTo(fields, k + 1)
  {
    out := buf + b;
  }

  /** Appends `n` to `buf` seven bits at a time; the bytes are exactly the ULEB128 form of `n`. */
  method WriteUleb128(buf: Bytes, n: u64) returns (out: Bytes)
    ensures out == buf + Uleb(n)
  {
    out := buf;
    var rest: nat := n;
    while true
      invariant out + Uleb(rest) == buf + Uleb(n)
      decreases rest
    {
      ghost var before, whole := out, rest;
      var b, high := rest % 128, rest / 128;
      if high != 0 { b := b + 128; }
      rest := high;
      out := out + [b];
      if rest == 0 {
        assert Uleb(whole) == [b];
        return;
      }
      assert Uleb(whole) == [b] + Uleb(rest);
      assert before + ([b] + Uleb(rest)) == out + Uleb(rest);
    }
  }
}

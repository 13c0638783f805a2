/** Go's fixed-width integers, byte strings and the small wrappers shared by every module. */
module Words {
  const TWO32: int := 0x1_0000_0000
  const TWO63: int := 0x8000_0000_0000_0000
  const TWO64: int := 0x1_0000_0000_0000_0000
  const MAX_I64: int := 0x7FFF_FFFF_FFFF_FFFF

  type u8 = x: int | 0 <= x < 256
  type u32 = x: int | 0 <= x < 0x1_0000_0000
  type u64 = x: int | 0 <= x < 0x1_0000_0000_0000_0000
  type i64 = x: int | -0x8000_0000_0000_0000 <= x < 0x8000_0000_0000_0000

  type Bytes = seq<u8>
  /** A 32-byte SHA-256 output. */
  type Digest = s: Bytes | |s| == 32 witness seq(32, _ => 0)

  datatype Option<+T> = None | Some(value: T)
  datatype Result<+T, +E> = Ok(value: T) | Err(error: E)

  /** uint64 addition, which wraps. */
  function AddU64(x: u64, y: u64): u64 {
    if x + y < TWO64 then x + y else x + y - TWO64
  }

  /** Products and quotients of two unknowns are written as recursions, which keeps nonlinear
      arithmetic out of proofs that only pass them along. */
  function Times(x: int, n: nat): int {
    if n == 0 then 0 else x + Times(x, n - 1)
  }

  lemma {:induction false} TimesIsProduct(x: int, n: nat)
    ensures Times(x, n) == x * n
  {
    if n > 0 { TimesIsProduct(x, n - 1); }
  }

  function Quotient(n: nat, d: nat): nat
    requires d > 0
  {
    if n < d then 0 else 1 + Quotient(n - d, d)
  }

  lemma {:induction false} QuotientIsDivision(n: nat, d: nat, q: nat, r: nat)
    requires r < d && n == d * q + r
    ensures Quotient(n, d) == q
    decreases q
  {
    if q > 0 {
      assert n - d == d * (q - 1) + r;
      assert d * (q - 1) >= 0;
      QuotientIsDivision(n - d, d, q - 1, r);
    }
  }

  /** uint64 multiplication, which wraps. */
  function MulU64(x: u64, y: u64): u64 {
    Times(x, y) % TWO64
  }

  /** The int64 that has the same low 64 bits as `x`. */
  function WrapI64(x: int): i64 {
    (x + TWO63) % TWO64 - TWO63
  }

  function Pow2(n: nat): nat {
    if n == 0 then 1 else 2 * Pow2(n - 1)
  }

  lemma AllButLast<T>(s: seq<T>)
    requires s != []
    ensures s == s[..|s| - 1] + [s[|s| - 1]]
  {
  }

  lemma OneMoreTimes(n: nat, p: nat)
    ensures (n + 1) * p == n * p + p
  {
  }

  lemma {:induction false} Pow2Positive(n: nat)
    ensures Pow2(n) >= 1
  {
    if n > 0 { Pow2Positive(n - 1); }
  }

  lemma TwiceTimes(x: nat, y: nat)
    ensures (2 * x) * y == 2 * (x * y)
  {
  }

  lemma {:induction false} Pow2Adds(m: nat, n: nat)
    ensures Pow2(m) * Pow2(n) == Pow2(m + n)
  {
    if m > 0 {
      Pow2Adds(m - 1, n);
      TwiceTimes(Pow2(m - 1), Pow2(n));
    }
  }

  lemma MulMagnitude(m: int, d: int)
    requires m >= 1
    ensures d >= 1 ==> m * d >= m
    ensures d <= -1 ==> m * d <= -m
  {
    if d >= 1 {
      assert m * (d - 1) >= 0;
    } else if d <= -1 {
      assert m * (-1 - d) >= 0;
    }
  }

  lemma DivModUnique(n: int, m: int, q: int, r: int)
    requires 0 <= r < m && n == m * q + r
    ensures n % m == r && n / m == q
  {
    var q', r' := n / m, n % m;
    assert m * (q - q') == m * q - m * q' == r' - r;
    MulMagnitude(m, q - q');
  }

  lemma MulMonotone(a: nat, b: nat, c: nat)
    requires b <= c
    ensures a * b <= a * c
  {
    assert a * (c - b) >= 0;
  }

  /** Go's `<` on strings and the order used on block hashes: lexicographic, a prefix comes first. */
  predicate LexLess(a: seq<int>, b: seq<int>) {
    if b == [] then false
    else if a == [] then true
    else a[0] < b[0] || (a[0] == b[0] && LexLess(a[1..], b[1..]))
  }

  /** The order is decided at the first difference, or the shorter string is a proper prefix. */
  lemma {:induction false} LexMeaning(a: seq<int>, b: seq<int>)
    ensures LexLess(a, b) <==> exists k: nat :: LexDecides(a, b, k)
  {
    if a != [] && b != [] {
      LexMeaning(a[1..], b[1..]);
      if a[0] == b[0] {
        if k: nat :| LexDecides(a[1..], b[1..], k) { LexShift(a, b, k); assert LexDecides(a, b, k + 1); }
        if k: nat :| LexDecides(a, b, k) { LexShift(a, b, k - 1); assert LexDecides(a[1..], b[1..], k - 1); }
      } else {
        assert LexDecides(a, b, 0) <==> a[0] < b[0];
      }
    } else {
      assert LexDecides(a, b, 0) <==> b != [];
    }
  }

  /** Both start with the same `k` elements; then `a` ends or has the smaller one. */
  ghost predicate LexDecides(a: seq<int>, b: seq<int>, k: nat) {
    k <= |a| && k < |b| && a[..k] == b[..k] && (k == |a| || a[k] < b[k])
  }

  lemma LexShift(a: seq<int>, b: seq<int>, k: nat)
    requires a != [] && b != [] && a[0] == b[0]
    ensures LexDecides(a, b, k + 1) <==> LexDecides(a[1..], b[1..], k)
  {
    if k <= |a[1..]| && k < |b[1..]| {
      assert a[..k + 1] == [a[0]] + a[1..][..k] && b[..k + 1] == [b[0]] + b[1..][..k];
      if a[..k + 1] == b[..k + 1] { assert a[1..][..k] == a[..k + 1][1..] && b[1..][..k] == b[..k + 1][1..]; }
    }
  }

  lemma {:induction false} LexIrreflexive(a: seq<int>)
    ensures !LexLess(a, a)
  {
    if a != [] { LexIrreflexive(a[1..]); }
  }

  lemma {:induction false} LexTotal(a: seq<int>, b: seq<int>)
    ensures LexLess(a, b) || a == b || LexLess(b, a)
  {
    if a != [] && b != [] && a[0] == b[0] {
      LexTotal(a[1..], b[1..]);
      if a[1..] == b[1..] {
        assert a == [a[0]] + a[1..] == [b[0]] + b[1..] == b;
      }
    }
  }

  lemma {:induction false} LexTransitive(a: seq<int>, b: seq<int>, c: seq<int>)
    requires LexLess(a, b) && LexLess(b, c)
    ensures LexLess(a, c)
  {
    if a != [] && a[0] == b[0] == c[0] {
      LexTransitive(a[1..], b[1..], c[1..]);
    }
  }

  lemma LexAsymmetric(a: seq<int>, b: seq<int>)
    requires LexLess(a, b)
    ensures !LexLess(b, a)
  {
    if LexLess(b, a) {
      LexTransitive(a, b, a);
      LexIrreflexive(a);
    }
  }

  lemma ConcatAssociative<T>(a: seq<T>, b: seq<T>, c: seq<T>)
    ensures a + b + c == a + (b + c)
  {
  }

  /** Two concatenations with first parts of equal length agree part by part. */
  lemma SplitConcat<T>(a: seq<T>, b: seq<T>, c: seq<T>, d: seq<T>)
    requires a + b == c + d
    requires |a| == |c|
    ensures a == c && b == d
  {
    assert a == (a + b)[..|a|] == (c + d)[..|c|] == c;
    assert b == (a + b)[|a|..] == (c + d)[|c|..] == d;
  }

  function Reverse<T>(s: seq<T>): seq<T> {
    if s == [] then [] else [s[|s| - 1]] + Reverse(s[..|s| - 1])
  }
}

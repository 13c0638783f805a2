/** Proof of work: expected work, nonce search and validation over an abstract hash. */
module Pow {
  import opened Words
  import opened Types
  import opened Encoding

  /** Expected work of a block, 2^bits. */
  function WorkForBits(bits: u32): nat {
    var capped := if bits > MAX_DIFFICULTY_BITS then MAX_DIFFICULTY_BITS else bits;
    if capped == 0 then 0 else Pow2(capped)
  }

  lemma WorkPositive(bits: u32)
    ensures bits > 0 ==> WorkForBits(bits) > 0
  {
    Pow2Positive(if bits > MAX_DIFFICULTY_BITS then MAX_DIFFICULTY_BITS else bits);
  }

  /** The hash, read as a big-endian number, is below 2^(256 - bits). */
  predicate MeetsTarget(digest: Digest, bits: u32)
    requires bits <= MAX_DIFFICULTY_BITS
  {
    FromBE(digest) < Pow2(MAX_DIFFICULTY_BITS - bits)
  }

  /** Work is the size of the hash space over the target, so every further bit doubles it. */
  lemma WorkMeaning(bits: u32)
    requires 0 < bits <= MAX_DIFFICULTY_BITS
    ensures WorkForBits(bits) * Pow2(MAX_DIFFICULTY_BITS - bits) == Pow2(MAX_DIFFICULTY_BITS)
    ensures bits < MAX_DIFFICULTY_BITS ==> WorkForBits(bits + 1) == 2 * WorkForBits(bits)
    ensures bits == 1 ==> WorkForBits(bits) == 2
  {
    Pow2Adds(bits, MAX_DIFFICULTY_BITS - bits);
  }

  /** No bits are no work, and bits past 256 count as 256. */
  lemma WorkAtEnds(bits: u32)
    ensures WorkForBits(0) == 0
    ensures bits > MAX_DIFFICULTY_BITS ==> WorkForBits(bits) == WorkForBits(MAX_DIFFICULTY_BITS)
  {
  }

  /** A hash meets the target exactly when its value times the work stays below 2^256. */
  lemma TargetMeaning(digest: Digest, bits: u32)
    requires 0 < bits <= MAX_DIFFICULTY_BITS
    ensures MeetsTarget(digest, bits) <==> FromBE(digest) * WorkForBits(bits) < Pow2(MAX_DIFFICULTY_BITS)
  {
    WorkMeaning(bits);
    WorkPositive(bits);
    ScaledOrder(FromBE(digest), Pow2(MAX_DIFFICULTY_BITS - bits), WorkForBits(bits));
  }

  lemma ScaledOrder(x: nat, y: nat, k: nat)
    requires k > 0
    ensures x < y <==> x * k < k * y
  {
    if x < y { MulMonotone(k, x + 1, y); } else { MulMonotone(k, y, x); }
    assert k * (x + 1) == x * k + k;
    assert k * x == x * k;
  }

  /** What is hashed never includes the hash or the stored nonce. */
  function Unsealed(b: Block): Block { b.(hash := [], nonce := 0) }

  function HeaderOf(c: Config, b: Block, nonce: u64): Option<Bytes> {
    c.env.header(Unsealed(b), nonce)
  }

  /** `nonce` solves `b`. */
  predicate Solves(c: Config, b: Block, nonce: u64)
    requires b.bits <= MAX_DIFFICULTY_BITS
  {
    HeaderOf(c, b, nonce).Some? && MeetsTarget(c.env.sha(HeaderOf(c, b, nonce).value), b.bits)
  }

  /** ProofOfWork.Validate */
  function ValidatePow(c: Config, b: Block): Result<bool, Error>
    requires b.bits <= MAX_DIFFICULTY_BITS
  {
    match HeaderOf(c, b, b.nonce)
    case None => Err(HeaderFailed)
    case Some(h) =>
      if |b.hash| != 0 && b.hash != c.env.sha(h) then Ok(false)
      else Ok(MeetsTarget(c.env.sha(h), b.bits))
  }

  /** Where the search ends, one way or the other. */
  predicate Stops(c: Config, b: Block, nonce: u64)
    requires b.bits <= MAX_DIFFICULTY_BITS
  {
    HeaderOf(c, b, nonce).None? || Solves(c, b, nonce)
  }

  ghost predicate FirstStop(c: Config, b: Block, nonce: u64)
    requires b.bits <= MAX_DIFFICULTY_BITS
  {
    Stops(c, b, nonce) && forall n: u64 :: n < nonce ==> !Stops(c, b, n)
  }

  /** The search at one turn of its loop: about to try a nonce, or returned. */
  datatype Search = Trying(nonce: u64) | Returned(r: Result<(u64, Digest), Error>)

  /** One turn of the loop; the nonce after the last uint64 is zero. */
  function Turn(c: Config, b: Block, at: Search): Search
    requires b.bits <= MAX_DIFFICULTY_BITS
  {
    match at
    case Returned(_) => at
    case Trying(nonce) =>
      match HeaderOf(c, b, nonce)
      case None => Returned(Err(HeaderFailed))
      case Some(header) =>
        var sum := c.env.sha(header);
        if MeetsTarget(sum, b.bits) then Returned(Ok((nonce, sum))) else Trying(AddU64(nonce, 1))
  }

  /** The search after `k` turns from nonce zero. */
  function AfterTurns(c: Config, b: Block, k: nat): Search
    requires b.bits <= MAX_DIFFICULTY_BITS
  {
    if k == 0 then Trying(0) else Turn(c, b, AfterTurns(c, b, k - 1))
  }

  /** Searches nonces from zero and returns at the first that stops it. */
  method RunPow(c: Config, b: Block, ghost stop: u64) returns (r: Result<(u64, Digest), Error>)
    requires b.bits <= MAX_DIFFICULTY_BITS && Stops(c, b, stop)
    ensures exists k :: AfterTurns(c, b, k) == Returned(r)
    ensures r.Ok? ==> FirstStop(c, b, r.value.0) && r.value.0 <= stop && Solves(c, b, r.value.0)
    ensures r.Ok? ==> r.value.1 == c.env.sha(HeaderOf(c, b, r.value.0).value)
    ensures r.Err? ==> r.error == HeaderFailed && exists n: u64 ::
            FirstStop(c, b, n) && n <= stop && HeaderOf(c, b, n).None?
  {
    var nonce: u64 := 0;
    while true
      invariant nonce <= stop && AfterTurns(c, b, nonce) == Trying(nonce)
      invariant forall n: u64 :: n < nonce ==> !Stops(c, b, n)
      decreases stop - nonce
    {
      ghost var next := AfterTurns(c, b, nonce + 1);
      var header := HeaderOf(c, b, nonce);
      if header == None {
        assert FirstStop(c, b, nonce) && next == Returned(Err(HeaderFailed));
        return Err(HeaderFailed);
      }
      var sum := c.env.sha(header.value);
      if MeetsTarget(sum, b.bits) {
        assert next == Returned(Ok((nonce, sum)));
        return Ok((nonce, sum));
      }
      nonce := nonce + 1;
    }
  }

  lemma {:induction false} TurnsPass(c: Config, b: Block, k: nat)
    requires b.bits <= MAX_DIFFICULTY_BITS && forall n: u64 :: n < k ==> !Stops(c, b, n)
    ensures AfterTurns(c, b, k) == Trying(k % TWO64)
  {
    if k > 0 {
      TurnsPass(c, b, k - 1);
      assert !Stops(c, b, (k - 1) % TWO64);
      NextTurn(k);
    }
  }

  lemma NextTurn(k: nat)
    requires k > 0
    ensures AddU64((k - 1) % TWO64, 1) == k % TWO64
  {
  }

  lemma {:induction false} FirstStopUpTo(c: Config, b: Block, stop: u64) returns (n: u64)
    requires b.bits <= MAX_DIFFICULTY_BITS && Stops(c, b, stop)
    ensures FirstStop(c, b, n)
    decreases stop
  {
    if m: u64 :| m < stop && Stops(c, b, m) {
      n := FirstStopUpTo(c, b, m);
    } else {
      n := stop;
    }
  }

  /** The loop returns if and only if some nonce stops it, and then by the turn of the first such nonce. */
  lemma SearchEndsIff(c: Config, b: Block)
    requires b.bits <= MAX_DIFFICULTY_BITS
    ensures (exists k :: AfterTurns(c, b, k).Returned?) <==> exists n: u64 :: Stops(c, b, n)
    ensures forall n: u64 :: FirstStop(c, b, n) ==>
                               AfterTurns(c, b, n) == Trying(n) && AfterTurns(c, b, n + 1).Returned?
  {
    forall n: u64 | FirstStop(c, b, n)
      ensures AfterTurns(c, b, n) == Trying(n) && AfterTurns(c, b, n + 1).Returned?
    {
      TurnsPass(c, b, n);
    }
    if stop: u64 :| Stops(c, b, stop) {
      var n := FirstStopUpTo(c, b, stop);
      var last: int := n as int + 1;
      assert AfterTurns(c, b, last).Returned?;
    } else {
      forall k: nat ensures AfterTurns(c, b, k).Trying? { TurnsPass(c, b, k); }
    }
  }

  /** Validation passes exactly when the header encodes, its hash is the stored one if there is one, and the hash times
      the work is below 2^256. */
  lemma ValidatePowIff(c: Config, b: Block)
    requires 0 < b.bits <= MAX_DIFFICULTY_BITS
    ensures ValidatePow(c, b) == Ok(true) <==>
            && HeaderOf(c, b, b.nonce).Some?
            && (|b.hash| > 0 ==> b.hash == c.env.sha(HeaderOf(c, b, b.nonce).value))
            && FromBE(c.env.sha(HeaderOf(c, b, b.nonce).value)) * WorkForBits(b.bits) < Pow2(MAX_DIFFICULTY_BITS)
  {
    if HeaderOf(c, b, b.nonce).Some? { TargetMeaning(c.env.sha(HeaderOf(c, b, b.nonce).value), b.bits); }
  }

  /** A block sealed with what the search returns passes validation. */
  lemma MinedPowIsValid(c: Config, b: Block, nonce: u64)
    requires b.bits <= MAX_DIFFICULTY_BITS && Solves(c, b, nonce)
    ensures var sealed := b.(nonce := nonce, hash := c.env.sha(HeaderOf(c, b, nonce).value));
            ValidatePow(c, sealed) == Ok(true)
  {
    var sealed := b.(nonce := nonce, hash := c.env.sha(HeaderOf(c, b, nonce).value));
    assert Unsealed(sealed) == Unsealed(b);
  }
}

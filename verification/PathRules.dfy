/** Validation of a whole path from genesis: headers, difficulty, time and ledger. */
module PathRules {
  import opened Words
  import opened Types
  import opened Ledger
  import opened Difficulty
  import opened TimeRules
  import opened Pow

  /** What replaying a path yields. */
  datatype View = View(state: State, work: nat)

  /** Header rules of `b` on top of `parents`. */
  function HeaderCheck(c: Config, parents: seq<Block>, b: Block, clock: Clock): Option<Error> {
    var p := c.params;
    if parents == [] then
      if b.height != 0 || |b.prevHash| != 0 then Some(BadGenesisHeader)
      else if b.version != BlockVersionForHeight(p, 0) then Some(BadVersion)
      else None
    else
      var prev := parents[|parents| - 1];
      if b.height != AddU64(prev.height, 1) then Some(BadHeightLinkage)
      else if b.prevHash != prev.hash then Some(BadPrevHashLinkage)
      else
        var t := TimeCheck(p, parents, b, clock);
        if t.Some? then t
        else if p.difficultyEnable && NextBits(p, parents) == 0 then Some(DifficultyCalcFailed)
        else if p.difficultyEnable && b.bits != NextBits(p, parents) then Some(BadDifficulty)
        else if b.version != BlockVersionForHeight(p, b.height) then Some(BadVersion)
        else None
  }

  /** `b` on top of the view `v` of its parents. */
  function Extend(c: Config, v: View, parents: seq<Block>, b: Block, clock: Clock): Result<View, Error> {
    var e := HeaderCheck(c, parents, b, clock);
    if e.Some? then Err(e.value)
    else
      var a := ApplyBlock(c, v.state, b);
      if a.error.Some? then Err(a.error.value)
      else Ok(View(a.state, v.work + WorkForBits(b.bits)))
  }

  /** Replays a path from no accounts: the first header or ledger error stops it. */
  function Replay(c: Config, path: seq<Block>, clock: Clock): Result<View, Error> {
    if path == [] then Ok(View(map[], 0))
    else
      var n := |path| - 1;
      match Replay(c, path[..n], clock)
      case Err(e) => Err(e)
      case Ok(v) => Extend(c, v, path[..n], path[n], clock)
  }

  function PathWork(path: seq<Block>): nat {
    if path == [] then 0 else PathWork(path[..|path| - 1]) + WorkForBits(path[|path| - 1].bits)
  }

  // ----- the loop of computeCanonicalForTipLocked after the ancestor walk -----

  method CheckHeader(c: Config, path: seq<Block>, i: nat, now: i64) returns (error: Option<Error>)
    requires i < |path|
    ensures error == HeaderCheck(c, path[..i], path[i], At(now))
  {
    var b := path[i];
    if i == 0 {
      if b.height != 0 || |b.prevHash| != 0 { return Some(BadGenesisHeader); }
      if b.version != BlockVersionForHeight(c.params, 0) { return Some(BadVersion); }
      return None;
    }
    var prev := path[i - 1];
    if b.height != AddU64(prev.height, 1) { return Some(BadHeightLinkage); }
    if b.prevHash != prev.hash { return Some(BadPrevHashLinkage); }
    error := ValidateBlockTime(c.params, path, i, now);
    if error.Some? { return error; }
    if c.params.difficultyEnable {
      var expected := NextBits(c.params, path[..i]);
      if expected == 0 { return Some(DifficultyCalcFailed); }
      if b.bits != expected { return Some(BadDifficulty); }
    }
    if b.version != BlockVersionForHeight(c.params, b.height) { return Some(BadVersion); }
    return None;
  }

  method ExtendView(c: Config, v: View, path: seq<Block>, i: nat, now: i64) returns (r: Result<View, Error>)
    requires i < |path|
    ensures r == Extend(c, v, path[..i], path[i], At(now))
  {
    var e := CheckHeader(c, path, i, now);
    if e.Some? { return Err(e.value); }
    var state;
    state, e := ApplyBlockToState(c, v.state, path[i]);
    if e.Some? { return Err(e.value); }
    return Ok(View(state, v.work + WorkForBits(path[i].bits)));
  }

  method ReplayPath(c: Config, path: seq<Block>, now: i64) returns (r: Result<View, Error>)
    ensures r == Replay(c, path, At(now))
  {
    var v := View(map[], 0);
    for i := 0 to |path|
      invariant Replay(c, path[..i], At(now)) == Ok(v)
    {
      var next := ExtendView(c, v, path, i, now);
      ReplayNext(c, path, i, At(now));
      if next.Err? {
        ReplayStops(c, path, i + 1, At(now));
        return next;
      }
      v := next.value;
    }
    assert path[..|path|] == path;
    return Ok(v);
  }

  lemma ReplayNext(c: Config, path: seq<Block>, i: nat, clock: Clock)
    requires i < |path| && Replay(c, path[..i], clock).Ok?
    ensures Replay(c, path[..i + 1], clock) == Extend(c, Replay(c, path[..i], clock).value, path[..i], path[i], clock)
  {
    var upTo := path[..i + 1];
    assert upTo[..|upTo| - 1] == path[..i] && upTo[|upTo| - 1] == path[i];
  }

  lemma ReplayAppend(c: Config, path: seq<Block>, b: Block, clock: Clock)
    requires Replay(c, path, clock).Ok?
    ensures Replay(c, path + [b], clock) == Extend(c, Replay(c, path, clock).value, path, b, clock)
  {
    assert (path + [b])[..|path + [b]| - 1] == path;
  }

  lemma ReplayAppendOk(c: Config, path: seq<Block>, b: Block, clock: Clock, before: View, after: View)
    requires Replay(c, path, clock) == Ok(before) && Extend(c, before, path, b, clock) == Ok(after)
    ensures Replay(c, path + [b], clock) == Ok(after)
  {
    ReplayAppend(c, path, b, clock);
  }

  lemma ExtendOk(c: Config, before: State, work: nat, parents: seq<Block>, b: Block, clock: Clock, after: State)
    requires HeaderCheck(c, parents, b, clock).None? && ApplyBlock(c, before, b) == Applied(after, None)
    ensures Extend(c, View(before, work), parents, b, clock) == Ok(View(after, work + WorkForBits(b.bits)))
  {
  }

  /** One more valid block on a replayed path. */
  lemma ReplayGrows(c: Config, path: seq<Block>, b: Block, clock: Clock, before: State, work: nat, after: State)
    requires Replay(c, path, clock) == Ok(View(before, work))
    requires HeaderCheck(c, path, b, clock).None? && ApplyBlock(c, before, b) == Applied(after, None)
    ensures Replay(c, path + [b], clock) == Ok(View(after, work + WorkForBits(b.bits)))
  {
    ExtendOk(c, before, work, path, b, clock, after);
    ReplayAppendOk(c, path, b, clock, View(before, work), View(after, work + WorkForBits(b.bits)));
  }

  lemma ReplayLast(c: Config, path: seq<Block>, init: seq<Block>, b: Block, clock: Clock, before: State, work: nat,
                   after: State)
    requires path == init + [b] && Replay(c, init, clock) == Ok(View(before, work))
    requires HeaderCheck(c, init, b, clock).None? && ApplyBlock(c, before, b) == Applied(after, None)
    ensures Replay(c, path, clock) == Ok(View(after, work + WorkForBits(b.bits)))
  {
    ReplayGrows(c, init, b, clock, before, work, after);
  }

  lemma {:induction false} ReplayStops(c: Config, path: seq<Block>, k: nat, clock: Clock)
    requires k <= |path| && Replay(c, path[..k], clock).Err?
    ensures Replay(c, path, clock) == Replay(c, path[..k], clock)
    decreases |path|
  {
    if k == |path| {
      assert path[..k] == path;
    } else {
      var init := path[..|path| - 1];
      assert init[..k] == path[..k];
      ReplayStops(c, init, k, clock);
    }
  }

  // ----- what an accepted path satisfies -----

  ghost predicate Accepted(c: Config, path: seq<Block>, clock: Clock) {
    path != [] && Replay(c, path, clock).Ok?
  }

  lemma AcceptedHeader(c: Config, path: seq<Block>, i: nat, clock: Clock)
    requires Accepted(c, path, clock) && i < |path|
    ensures HeaderCheck(c, path[..i], path[i], clock).None?
  {
    if Replay(c, path[..i + 1], clock).Err? { ReplayStops(c, path, i + 1, clock); }
    if Replay(c, path[..i], clock).Err? { ReplayStops(c, path, i, clock); }
    ReplayNext(c, path, i, clock);
  }

  lemma LastBlock(c: Config, path: seq<Block>, clock: Clock)
    requires Accepted(c, path, clock)
    ensures var n := |path| - 1;
            && Replay(c, path[..n], clock).Ok?
            && HeaderCheck(c, path[..n], path[n], clock).None?
            && ApplyBlock(c, Replay(c, path[..n], clock).value.state, path[n]).error.None?
  {
  }

  /** The state and work of an accepted path are the ledger replay and the summed work. */
  lemma {:induction false} ReplayValue(c: Config, path: seq<Block>, clock: Clock)
    requires Replay(c, path, clock).Ok?
    ensures ApplyBlocks(c, path) == Applied(Replay(c, path, clock).value.state, None)
    ensures Replay(c, path, clock).value.work == PathWork(path)
  {
    if path != [] { ReplayValue(c, path[..|path| - 1], clock); }
  }

  lemma {:induction false} HeightIsIndex(c: Config, path: seq<Block>, i: nat, clock: Clock)
    requires Accepted(c, path, clock) && i < |path|
    requires forall j :: 0 < j < |path| ==> path[j].height != 0
    ensures path[i].height == i
  {
    AcceptedHeader(c, path, i, clock);
    if i > 0 { HeightIsIndex(c, path, i - 1, clock); }
  }

  lemma ChainIsLinked(c: Config, path: seq<Block>, clock: Clock)
    requires Accepted(c, path, clock)
    ensures forall i :: 0 < i < |path| ==> path[i].prevHash == path[i - 1].hash
  {
    forall i | 0 < i < |path| ensures path[i].prevHash == path[i - 1].hash { AcceptedHeader(c, path, i, clock); }
  }

  lemma AcceptedTimesIncrease(c: Config, path: seq<Block>, clock: Clock)
    requires Accepted(c, path, clock)
    ensures TimesIncrease(path)
  {
    forall i | 0 < i < |path| ensures path[i - 1].timestamp < path[i].timestamp {
      AcceptedHeader(c, path, i, clock);
    }
  }

  /** On every accepted chain the median of the past is the middle timestamp of the window, at most the parent's. */
  lemma ChainMedian(c: Config, path: seq<Block>, clock: Clock, i: nat)
    requires Accepted(c, path, clock) && 0 < i < |path|
    ensures var lo := WindowStart(c.params, i - 1);
            MedianAt(c.params, path, i - 1)
                == path[lo + (i - lo) / 2].timestamp <= path[i - 1].timestamp < path[i].timestamp
  {
    AcceptedTimesIncrease(c, path, clock);
    MedianIsMiddle(c.params, path, i - 1);
  }

  /** The bits of every block are the next bits of the blocks before it. */
  lemma ChainBits(c: Config, path: seq<Block>, clock: Clock, i: nat)
    requires Accepted(c, path, clock) && 0 < i < |path| && c.params.difficultyEnable
    ensures path[i].bits == NextBits(c.params, path[..i]) > 0
  {
    AcceptedHeader(c, path, i, clock);
  }

  /** With retargeting on, the bits of an accepted chain stay in range and move by at most the maximum step. */
  lemma {:induction false} ChainDifficulty(c: Config, path: seq<Block>, clock: Clock, i: nat)
    requires Accepted(c, path, clock) && i < |path|
    requires ParamsOk(c.params) && c.params.difficultyEnable && InRange(c.params, path[0].bits)
    ensures InRange(c.params, path[i].bits)
    ensures i > 0 ==> path[i - 1].bits - c.params.difficultyMaxStep <= path[i].bits
                      <= path[i - 1].bits + c.params.difficultyMaxStep
  {
    if i > 0 {
      ChainDifficulty(c, path, clock, i - 1);
      ChainBits(c, path, clock, i);
      assert path[..i][|path[..i]| - 1] == path[i - 1];
      NextBitsStep(c.params, path[..i]);
    }
  }

  /** With retargeting on, the blocks of the first window have the bits of genesis. */
  lemma {:induction false} FirstWindowKeepsBits(c: Config, path: seq<Block>, clock: Clock, i: nat)
    requires Accepted(c, path, clock) && i < |path| && i <= c.params.difficultyWindow
    requires ParamsOk(c.params) && c.params.difficultyEnable && InRange(c.params, path[0].bits)
    ensures path[i].bits == path[0].bits
  {
    if i > 0 {
      FirstWindowKeepsBits(c, path, clock, i - 1);
      ChainBits(c, path, clock, i);
      assert path[..i][|path[..i]| - 1] == path[i - 1];
      NextBitsCarries(c.params, path[..i]);
    }
  }

  // ----- how branches weigh -----

  lemma {:induction false} PathWorkJoins(p: seq<Block>, q: seq<Block>)
    ensures PathWork(p + q) == PathWork(p) + PathWork(q)
  {
    if q == [] {
      assert p + q == p;
    } else {
      var n := |q| - 1;
      assert (p + q)[..|p + q| - 1] == p + q[..n] && (p + q)[|p + q| - 1] == q[n];
      PathWorkJoins(p, q[..n]);
    }
  }

  lemma {:induction false} PathWorkBound(path: seq<Block>, m: u32)
    requires 0 < m <= MAX_DIFFICULTY_BITS && forall i :: 0 <= i < |path| ==> path[i].bits <= m
    ensures PathWork(path) <= |path| * Pow2(m)
  {
    if path != [] {
      var n := |path| - 1;
      PathWorkBound(path[..n], m);
      assert path[n].bits <= m;
      WorkGrows(path[n].bits, m);
      OneMoreTimes(n, Pow2(m));
    }
  }

  lemma {:induction false} WorkGrows(bits: u32, m: u32)
    requires bits <= m <= MAX_DIFFICULTY_BITS && 0 < m
    ensures WorkForBits(bits) <= WorkForBits(m) == Pow2(m)
    decreases m - bits
  {
    Pow2Positive(m);
    if 0 < bits < m { WorkGrows(bits + 1, m); }
  }

  /** A block with `j` bits more outweighs up to 2^j blocks on the same parent, and ties with exactly 2^j of them: two
      blocks weigh as much as one with one bit more. */
  lemma OneOutweighs(common: seq<Block>, many: seq<Block>, one: Block, m: u32, j: nat)
    requires 0 < m && one.bits == m + j <= MAX_DIFFICULTY_BITS
    requires |many| <= Pow2(j) && forall i :: 0 <= i < |many| ==> many[i].bits <= m
    ensures PathWork(common + [one]) >= PathWork(common + many)
    ensures |many| < Pow2(j) ==> PathWork(common + [one]) > PathWork(common + many)
    ensures |many| == Pow2(j) && (forall i :: 0 <= i < |many| ==> many[i].bits == m) ==>
              PathWork(common + [one]) == PathWork(common + many)
  {
    PathWorkJoins(common, [one]);
    PathWorkJoins(common, many);
    WeighsPow2(one);
    ManyWeigh(many, m, j);
  }

  lemma ManyWeigh(many: seq<Block>, m: u32, j: nat)
    requires 0 < m && m + j <= MAX_DIFFICULTY_BITS
    requires |many| <= Pow2(j) && forall i :: 0 <= i < |many| ==> many[i].bits <= m
    ensures PathWork(many) <= Pow2(m + j) && (|many| < Pow2(j) ==> PathWork(many) < Pow2(m + j))
    ensures |many| == Pow2(j) && (forall i :: 0 <= i < |many| ==> many[i].bits == m) ==> PathWork(many) == Pow2(m + j)
  {
    PathWorkBound(many, m);
    Pow2Adds(j, m);
    Pow2Positive(m);
    ScaledCount(|many|, Pow2(j), Pow2(m));
    if forall i :: 0 <= i < |many| ==> many[i].bits == m { PathWorkEven(many, m); }
  }

  lemma WeighsPow2(one: Block)
    requires 0 < one.bits <= MAX_DIFFICULTY_BITS
    ensures PathWork([one]) == Pow2(one.bits)
  {
    assert [one][..0] == [];
  }

  lemma ScaledCount(n: nat, k: nat, p: nat)
    requires n <= k && p >= 1
    ensures n * p <= k * p && (n < k ==> n * p < k * p)
  {
    MulMonotone(p, n, k);
    if n < k { MulMonotone(p, n + 1, k); }
  }

  lemma {:induction false} PathWorkEven(path: seq<Block>, m: u32)
    requires 0 < m <= MAX_DIFFICULTY_BITS && forall i :: 0 <= i < |path| ==> path[i].bits == m
    ensures PathWork(path) == |path| * Pow2(m)
  {
    if path != [] {
      var n := |path| - 1;
      PathWorkEven(path[..n], m);
      assert path[n].bits == m;
      OneMoreTimes(n, Pow2(m));
    }
  }

  // ----- the rules as one statement -----

  /** Block `i` of the path is in its place. */
  ghost predicate InPlace(c: Config, path: seq<Block>, i: nat)
    requires i < |path|
  {
    var b := path[i];
    && b.version == (if c.params.merkleEnable && b.height >= c.params.merkleActivationHeight then 2 else 1)
    && if i == 0 then b.height == 0 && b.prevHash == []
       else
         var prev := path[i - 1];
         && b.height == (prev.height + 1) % TWO64 && b.prevHash == prev.hash
         && b.timestamp > prev.timestamp && b.timestamp > MedianAt(c.params, path[..i], i - 1)
         && (c.params.difficultyEnable ==> b.bits == NextBits(c.params, path[..i]) > 0)
  }

  lemma HeaderIff(c: Config, path: seq<Block>, i: nat)
    requires i < |path|
    ensures HeaderCheck(c, path[..i], path[i], Unbounded).None? <==> InPlace(c, path, i)
  {
    if i > 0 {
      assert path[..i][|path[..i]| - 1] == path[i - 1];
      NextU64(path[i - 1].height);
    }
  }

  lemma NextU64(h: u64)
    ensures AddU64(h, 1) == (h + 1) % TWO64
  {
  }

  ghost predicate AllInPlace(c: Config, path: seq<Block>) {
    forall i :: 0 <= i < |path| ==> InPlace(c, path, i)
  }

  lemma InPlaceOfPrefix(c: Config, path: seq<Block>)
    requires path != []
    ensures var n := |path| - 1; AllInPlace(c, path) <==> AllInPlace(c, path[..n]) && InPlace(c, path, n)
  {
    var n := |path| - 1;
    forall i | 0 <= i < n ensures InPlace(c, path, i) <==> InPlace(c, path[..n], i) {
      assert path[..n][..i] == path[..i];
    }
  }

  lemma LastIff(c: Config, path: seq<Block>)
    requires path != []
    ensures var n := |path| - 1;
            Replay(c, path, Unbounded).Ok? <==>
            && Replay(c, path[..n], Unbounded).Ok? && InPlace(c, path, n)
            && ApplyBlock(c, Replay(c, path[..n], Unbounded).value.state, path[n]).error.None?
  {
    HeaderIff(c, path, |path| - 1);
  }

  /** A path is accepted, the wall clock aside, exactly when every block is in its place and the ledger replays. */
  lemma {:induction false} AcceptedIff(c: Config, path: seq<Block>)
    ensures Replay(c, path, Unbounded).Ok? <==> AllInPlace(c, path) && ApplyBlocks(c, path).error.None?
  {
    if path != [] {
      var init := path[..|path| - 1];
      AcceptedIff(c, init);
      InPlaceOfPrefix(c, path);
      LastIff(c, path);
      if Replay(c, init, Unbounded).Ok? { ReplayValue(c, init, Unbounded); }
    }
  }

  // ----- the wall clock -----

  predicate NearEnough(p: ConsensusParams, b: Block, now: i64) {
    p.maxTimeDrift > 0 ==> b.timestamp <= WrapI64(now + p.maxTimeDrift)
  }

  ghost predicate DriftOk(p: ConsensusParams, path: seq<Block>, now: i64) {
    forall i :: 0 < i < |path| ==> NearEnough(p, path[i], now)
  }

  lemma HeaderClock(c: Config, parents: seq<Block>, b: Block, now: i64)
    ensures HeaderCheck(c, parents, b, At(now)).None? <==>
            HeaderCheck(c, parents, b, Unbounded).None? && (parents != [] ==> NearEnough(c.params, b, now))
  {
  }

  lemma ExtendClock(c: Config, v: View, parents: seq<Block>, b: Block, now: i64)
    ensures Extend(c, v, parents, b, At(now)).Ok? <==>
            Extend(c, v, parents, b, Unbounded).Ok? && (parents != [] ==> NearEnough(c.params, b, now))
    ensures Extend(c, v, parents, b, At(now)).Ok? ==>
            Extend(c, v, parents, b, At(now)) == Extend(c, v, parents, b, Unbounded)
  {
    HeaderClock(c, parents, b, now);
  }

  /** The clock can only reject: a path is accepted at `now` exactly when it is accepted without a clock and
      none of its timestamps is too far in the future; the view is the same. */
  lemma {:induction false} ClockOnlyRejects(c: Config, path: seq<Block>, now: i64)
    ensures Replay(c, path, At(now)).Ok? <==> Replay(c, path, Unbounded).Ok? && DriftOk(c.params, path, now)
    ensures Replay(c, path, At(now)).Ok? ==> Replay(c, path, At(now)) == Replay(c, path, Unbounded)
  {
    if path != [] {
      var n := |path| - 1;
      ClockOnlyRejects(c, path[..n], now);
      DriftStep(c.params, path, now);
      var below := Replay(c, path[..n], Unbounded);
      if below.Ok? { ExtendClock(c, below.value, path[..n], path[n], now); }
    }
  }

  lemma DriftStep(p: ConsensusParams, path: seq<Block>, now: i64)
    requires path != []
    ensures DriftOk(p, path, now) <==>
            DriftOk(p, path[..|path| - 1], now) && (|path| > 1 ==> NearEnough(p, path[|path| - 1], now))
  {
    var init := path[..|path| - 1];
    if DriftOk(p, path, now) {
      forall i | 0 < i < |init| ensures NearEnough(p, init[i], now) { assert init[i] == path[i]; }
    }
    if DriftOk(p, init, now) && (|path| > 1 ==> NearEnough(p, path[|path| - 1], now)) {
      forall i | 0 < i < |path| ensures NearEnough(p, path[i], now) {
        if i < |init| { assert init[i] == path[i]; }
      }
    }
  }

  lemma DriftGrows(p: ConsensusParams, path: seq<Block>, now: i64, later: i64)
    requires now <= later && -TWO63 <= now + p.maxTimeDrift && later + p.maxTimeDrift <= MAX_I64
    requires DriftOk(p, path, now)
    ensures DriftOk(p, path, later)
  {
    assert WrapI64(now + p.maxTimeDrift) == now + p.maxTimeDrift;
    assert WrapI64(later + p.maxTimeDrift) == later + p.maxTimeDrift;
    forall i | 0 < i < |path| ensures NearEnough(p, path[i], later) {
      assert NearEnough(p, path[i], now);
    }
  }

  /** Once accepted, a path is accepted at another clock if and only if that clock's bound is past its timestamps; it is
      at every later one whose bound does not wrap. */
  lemma AcceptanceIsStable(c: Config, path: seq<Block>, now: i64, later: i64)
    requires Replay(c, path, At(now)).Ok?
    ensures Replay(c, path, At(later)) == Replay(c, path, At(now)) <==> DriftOk(c.params, path, later)
    ensures now <= later && -TWO63 <= now + c.params.maxTimeDrift && later + c.params.maxTimeDrift <= MAX_I64 ==>
              Replay(c, path, At(later)) == Replay(c, path, At(now))
  {
    ClockOnlyRejects(c, path, now);
    ClockOnlyRejects(c, path, later);
    if now <= later && -TWO63 <= now + c.params.maxTimeDrift && later + c.params.maxTimeDrift <= MAX_I64 {
      DriftGrows(c.params, path, now, later);
    }
  }

  /** Where it goes wrong: at the last int64 the bound wraps, and every chain of today is in the future. */
  lemma LastClockRejects(c: Config, path: seq<Block>)
    requires c.params.maxTimeDrift > 0 && |path| > 1 && path[1].timestamp >= 0
    ensures Replay(c, path, At(MAX_I64)).Err?
  {
    ClockOnlyRejects(c, path, MAX_I64);
    assert WrapI64(MAX_I64 + c.params.maxTimeDrift) < 0;
    assert !NearEnough(c.params, path[1], MAX_I64);
  }
}

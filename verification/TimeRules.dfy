/** Block timestamps: strictly increasing, above the median of the recent past, not far in the future. */
module TimeRules {
  import opened Words
  import opened Types
  import Sorting

  /** The local wall clock, or no wall-clock bound at all. */
  datatype Clock = At(now: i64) | Unbounded

  predicate Earlier(a: i64, b: i64) { a < b }

  lemma TimeOrder()
    ensures Sorting.StrictWeak(Earlier)
  {
  }

  /** sort.Slice on integers: the ascending rearrangement, of which there is one. */
  function Sort(s: seq<i64>): seq<i64> {
    if s == [] then [] else Sorting.Insert(Earlier, s[0], Sort(s[1..]))
  }

  lemma {:induction false} SortFacts(s: seq<i64>)
    ensures Sorting.Ordered(Earlier, Sort(s)) && multiset(Sort(s)) == multiset(s) && |Sort(s)| == |s|
  {
    if s != [] {
      SortFacts(s[1..]);
      TimeOrder();
      Sorting.InsertKeepsOrder(Earlier, s[0], Sort(s[1..]));
      Sorting.InsertPermutes(Earlier, s[0], Sort(s[1..]));
      assert s == [s[0]] + s[1..];
    }
  }

  lemma {:induction false} SortOfAscending(s: seq<i64>)
    requires Sorting.Strict(Earlier, s)
    ensures Sort(s) == s
  {
    if s != [] { SortOfAscending(s[1..]); }
  }

  function Window(p: ConsensusParams): nat {
    if p.medianTimePastWindow <= 0 then 11 else p.medianTimePastWindow
  }

  function Start(p: ConsensusParams, endIdx: nat): nat {
    if endIdx < Window(p) - 1 then 0 else endIdx - (Window(p) - 1)
  }

  function Timestamps(path: seq<Block>): seq<i64> {
    seq(|path|, i requires 0 <= i < |path| => path[i].timestamp)
  }

  /** Median timestamp of the window of blocks that ends at `endIdx`. */
  function MedianAt(p: ConsensusParams, path: seq<Block>, endIdx: int): i64 {
    if endIdx < 0 then 0
    else
      var lo, hi := Start(p, endIdx), if endIdx + 1 <= |path| then endIdx + 1 else |path|;
      if lo >= hi then 0
      else
        var ts := Timestamps(path[lo..hi]);
        SortFacts(ts);
        Sort(ts)[|ts| / 2]
  }

  method WindowTimes(path: seq<Block>, start: nat, endIdx: nat) returns (ts: seq<i64>)
    ensures var hi := if endIdx + 1 <= |path| then endIdx + 1 else |path|;
            ts == if start >= hi then [] else Timestamps(path[start..hi])
  {
    ts := [];
    var i := start;
    while i <= endIdx && i < |path|
      invariant i == start || (start < i <= endIdx + 1 && i <= |path|)
      invariant |ts| == i - start && forall k ::
                0 <= k < |ts| ==> start + k < |path| && ts[k] == path[start + k].timestamp
    {
      ts := ts + [path[i].timestamp];
      i := i + 1;
    }
  }

  method MedianTimePast(p: ConsensusParams, path: seq<Block>, endIdx: int) returns (median: i64)
    ensures median == MedianAt(p, path, endIdx)
  {
    var window: int := p.medianTimePastWindow;
    if window <= 0 { window := 11; }
    if endIdx < 0 { return 0; }
    var start := endIdx - (window - 1);
    if start < 0 { start := 0; }
    var ts := WindowTimes(path, start, endIdx);
    if |ts| == 0 { return 0; }
    SortFacts(ts);
    var sorted := Sort(ts);
    return sorted[|sorted| / 2];
  }

  /** The time rules for `b` on top of `parents`. */
  function TimeCheck(p: ConsensusParams, parents: seq<Block>, b: Block, clock: Clock): Option<Error>
    requires parents != []
  {
    if b.timestamp <= parents[|parents| - 1].timestamp then Some(TimestampNotIncreasing)
    else if b.timestamp <= MedianAt(p, parents, |parents| - 1) then Some(TimestampTooOld)
    else if clock.At? && p.maxTimeDrift > 0 && b.timestamp > WrapI64(clock.now + p.maxTimeDrift) then
      Some(TimestampTooFarInFuture)
    else None
  }

  /** validateBlockTime: an index outside the path, or genesis, has nothing to check. */
  method ValidateBlockTime(p: ConsensusParams, path: seq<Block>, idx: int, now: i64) returns (error: Option<Error>)
    ensures error == if 0 < idx < |path| then TimeCheck(p, path[..idx], path[idx], At(now)) else None
  {
    if idx <= 0 || idx >= |path| { return None; }
    var prev, cur := path[idx - 1], path[idx];
    if cur.timestamp <= prev.timestamp { return Some(TimestampNotIncreasing); }
    var mtp := MedianTimePast(p, path, idx - 1);
    MedianOfPrefix(p, path, idx - 1, idx);
    if cur.timestamp <= mtp { return Some(TimestampTooOld); }
    if p.maxTimeDrift > 0 && cur.timestamp > WrapI64(now + p.maxTimeDrift) { return Some(TimestampTooFarInFuture); }
    return None;
  }

  ghost predicate TimesIncrease(path: seq<Block>) {
    forall i :: 0 < i < |path| ==> path[i - 1].timestamp < path[i].timestamp
  }

  lemma {:induction false} TimesIncreaseFar(path: seq<Block>, i: nat, j: nat)
    requires TimesIncrease(path) && i < j < |path|
    ensures path[i].timestamp < path[j].timestamp
    decreases j
  {
    if i < j - 1 { TimesIncreaseFar(path, i, j - 1); }
  }

  lemma WindowAscends(path: seq<Block>, lo: nat, hi: nat)
    requires TimesIncrease(path) && lo < hi <= |path|
    ensures Sort(Timestamps(path[lo..hi])) == Timestamps(path[lo..hi])
  {
    var ts := Timestamps(path[lo..hi]);
    forall i, j | 0 <= i < j < |ts| ensures Earlier(ts[i], ts[j]) {
      TimesIncreaseFar(path, lo + i, lo + j);
    }
    SortOfAscending(ts);
  }

  /** Where the window of `n` blocks that ends at `endIdx` starts: eleven blocks unless a positive number is set. */
  function WindowStart(p: ConsensusParams, endIdx: nat): nat {
    var n := if p.medianTimePastWindow > 0 then p.medianTimePastWindow else 11;
    if endIdx + 1 <= n then 0 else endIdx + 1 - n
  }

  lemma MedianOfAscending(p: ConsensusParams, path: seq<Block>, endIdx: nat)
    requires TimesIncrease(path) && endIdx < |path|
    ensures var lo := WindowStart(p, endIdx);
            MedianAt(p, path, endIdx) == path[lo + (endIdx + 1 - lo) / 2].timestamp
  {
    var lo := WindowStart(p, endIdx);
    assert lo == Start(p, endIdx);
    WindowAscends(path, lo, endIdx + 1);
    var ts := Timestamps(path[lo..endIdx + 1]);
    assert ts[|ts| / 2] == path[lo + |ts| / 2].timestamp;
  }

  /** With increasing timestamps the median is the middle block of the window, and never above the parent's. */
  lemma MedianIsMiddle(p: ConsensusParams, path: seq<Block>, endIdx: nat)
    requires TimesIncrease(path) && endIdx < |path|
    ensures var lo := WindowStart(p, endIdx);
            && MedianAt(p, path, endIdx) == path[lo + (endIdx + 1 - lo) / 2].timestamp
            && MedianAt(p, path, endIdx) <= path[endIdx].timestamp
  {
    var mid := WindowStart(p, endIdx) + (endIdx + 1 - WindowStart(p, endIdx)) / 2;
    MedianOfAscending(p, path, endIdx);
    if mid < endIdx { TimesIncreaseFar(path, mid, endIdx); }
  }

  lemma MedianOfPrefix(p: ConsensusParams, path: seq<Block>, endIdx: int, k: nat)
    requires endIdx < k <= |path|
    ensures MedianAt(p, path, endIdx) == MedianAt(p, path[..k], endIdx)
  {
    if endIdx >= 0 {
      assert path[Start(p, endIdx)..endIdx + 1] == path[..k][Start(p, endIdx)..endIdx + 1];
    }
  }
}

/** The transaction and address indexes over the canonical chain. */
module Indexes {
  import opened Words
  import opened Types
  import opened TxRules
  import opened NoReplay
  import Ledger
  import Merkle

  datatype TxLocation = TxLocation(height: u64, blockHash: Bytes, index: nat)

  datatype AddressEntry = AddressEntry(
    txid: string, location: TxLocation, from: string, to: string, amount: u64, fee: u64, nonce: u64)

  type TxIndex = map<string, TxLocation>
  type AddressIndex = map<string, seq<AddressEntry>>

  function LocationOf(p: Posted): TxLocation { TxLocation(p.height, p.hash, p.index) }

  function PostedId(c: Config, p: Posted): Option<string> { TxId(c, p.tx, p.height) }

  function EntryOf(c: Config, p: Posted): Option<AddressEntry> {
    match (PostedId(c, p), FromAddress(c.env, p.tx))
    case (Some(id), Some(from)) =>
      Some(AddressEntry(id, LocationOf(p), from, p.tx.toAddress, p.tx.amount, p.tx.fee, p.tx.nonce))
    case _ => None
  }

  function EntriesFor(idx: AddressIndex, a: string): seq<AddressEntry> {
    if a in idx then idx[a] else []
  }

  function StepTx(c: Config, idx: TxIndex, p: Posted): TxIndex {
    match PostedId(c, p)
    case Some(id) => idx[id := LocationOf(p)]
    case None => idx
  }

  function File(idx: AddressIndex, a: string, e: AddressEntry): AddressIndex {
    idx[a := EntriesFor(idx, a) + [e]]
  }

  /** An entry tells the transfer's id, place, sender, recipient, amount, fee and nonce. */
  lemma EntryMeaning(c: Config, p: Posted)
    ensures EntryOf(c, p).Some? <==> TxId(c, p.tx, p.height).Some? && FromAddress(c.env, p.tx).Some?
    ensures EntryOf(c, p).Some? ==>
              var e := EntryOf(c, p).value;
              && TxId(c, p.tx, p.height) == Some(e.txid) && FromAddress(c.env, p.tx) == Some(e.from)
              && e.location == TxLocation(p.height, p.hash, p.index)
              && e.to == p.tx.toAddress && e.amount == p.tx.amount && e.fee == p.tx.fee && e.nonce == p.tx.nonce
  {
  }

  /** Filed under the sender, and under the recipient when that is someone else. */
  function StepAddress(c: Config, idx: AddressIndex, p: Posted): AddressIndex {
    match EntryOf(c, p)
    case None => idx
    case Some(e) =>
      var filed := File(idx, e.from, e);
      if e.to != e.from then File(filed, e.to, e) else filed
  }

  /** `step` over `ps` from left to right. */
  function Fold<S, P>(step: (S, P) -> S, s: S, ps: seq<P>): S {
    if ps == [] then s else step(Fold(step, s, ps[..|ps| - 1]), ps[|ps| - 1])
  }

  lemma {:induction false} FoldAppend<S, P>(step: (S, P) -> S, s: S, a: seq<P>, b: seq<P>)
    ensures Fold(step, Fold(step, s, a), b) == Fold(step, s, a + b)
    decreases |b|
  {
    if b == [] {
      assert a + b == a;
    } else {
      var n := |b| - 1;
      FoldAppend(step, s, a, b[..n]);
      assert (a + b)[..|a| + n] == a + b[..n];
    }
  }

  function TxStep(c: Config): (TxIndex, Posted) -> TxIndex {
    (idx: TxIndex, p: Posted) => StepTx(c, idx, p)
  }

  function AddressStep(c: Config): (AddressIndex, Posted) -> AddressIndex {
    (idx: AddressIndex, p: Posted) => StepAddress(c, idx, p)
  }

  function FoldTx(c: Config, idx: TxIndex, ts: seq<Posted>): TxIndex { Fold(TxStep(c), idx, ts) }

  function FoldAddress(c: Config, idx: AddressIndex, ts: seq<Posted>): AddressIndex { Fold(AddressStep(c), idx, ts) }

  /** The indexes rebuilt from a chain. */
  function TxIndexOf(c: Config, blocks: seq<Block>): TxIndex { FoldTx(c, map[], History(blocks)) }

  function AddressIndexOf(c: Config, blocks: seq<Block>): AddressIndex { FoldAddress(c, map[], History(blocks)) }

  lemma FoldSingle<S, P>(step: (S, P) -> S, s: S, p: P)
    ensures Fold(step, s, [p]) == step(s, p)
  {
    assert [p][..0] == [];
    assert Fold(step, s, []) == s;
  }

  /** Indexing from transaction `i` on is indexing it and then the rest. */
  lemma IndexNext(c: Config, b: Block, i: nat, ti: TxIndex, ai: AddressIndex)
    requires i < |b.txs|
    ensures var p := Posted(b.txs[i], b.height, b.hash, i);
            && FoldTx(c, ti, PostedFrom(b, i))
               == FoldTx(c, if b.txs[i].kind.Transfer? then StepTx(c, ti, p) else ti, PostedFrom(b, i + 1))
            && FoldAddress(c, ai, PostedFrom(b, i))
               == FoldAddress(c, if b.txs[i].kind.Transfer? then StepAddress(c, ai, p) else ai, PostedFrom(b, i + 1))
  {
    FoldAppend(TxStep(c), ti, PostedAt(b, i), PostedFrom(b, i + 1));
    FoldAppend(AddressStep(c), ai, PostedAt(b, i), PostedFrom(b, i + 1));
    FoldSingle(TxStep(c), ti, Posted(b.txs[i], b.height, b.hash, i));
    FoldSingle(AddressStep(c), ai, Posted(b.txs[i], b.height, b.hash, i));
  }

  /** Indexing one block on top of the indexes of a chain gives the indexes of the longer chain. */
  lemma IncrementalIndex(c: Config, blocks: seq<Block>, b: Block)
    ensures FoldTx(c, TxIndexOf(c, blocks), PostedFrom(b, 0)) == TxIndexOf(c, blocks + [b])
    ensures FoldAddress(c, AddressIndexOf(c, blocks), PostedFrom(b, 0)) == AddressIndexOf(c, blocks + [b])
  {
    FoldAppend(TxStep(c), map[], History(blocks), PostedFrom(b, 0));
    FoldAppend(AddressStep(c), map[], History(blocks), PostedFrom(b, 0));
    assert (blocks + [b])[..|blocks|] == blocks;
  }

  /** Transactions of a block, in order, into the transaction index. */
  method IndexTxsForBlock(c: Config, idx0: TxIndex, b: Block) returns (idx: TxIndex)
    ensures idx == FoldTx(c, idx0, PostedFrom(b, 0))
  {
    idx := idx0;
    for i := 0 to |b.txs|
      invariant FoldTx(c, idx, PostedFrom(b, i)) == FoldTx(c, idx0, PostedFrom(b, 0))
    {
      var tx := b.txs[i];
      IndexNext(c, b, i, idx, map[]);
      if tx.kind == Transfer {
        var id := TxId(c, tx, b.height);
        if id.Some? { idx := idx[id.value := TxLocation(b.height, b.hash, i)]; }
      }
    }
  }

  method IndexAddressTx(c: Config, idx0: AddressIndex, tx: Transaction, loc: TxLocation) returns (idx: AddressIndex)
    ensures idx == StepAddress(c, idx0, Posted(tx, loc.height, loc.blockHash, loc.index))
  {
    idx := idx0;
    var id := TxId(c, tx, loc.height);
    if id.None? { return; }
    var from := FromAddress(c.env, tx);
    if from.None? { return; }
    var entry := AddressEntry(id.value, loc, from.value, tx.toAddress, tx.amount, tx.fee, tx.nonce);
    idx := File(idx, from.value, entry);
    if tx.toAddress != from.value { idx := File(idx, tx.toAddress, entry); }
  }

  method IndexAddressTxsForBlock(c: Config, idx0: AddressIndex, b: Block) returns (idx: AddressIndex)
    ensures idx == FoldAddress(c, idx0, PostedFrom(b, 0))
  {
    idx := idx0;
    for i := 0 to |b.txs|
      invariant FoldAddress(c, idx, PostedFrom(b, i)) == FoldAddress(c, idx0, PostedFrom(b, 0))
    {
      var tx := b.txs[i];
      IndexNext(c, b, i, map[], idx);
      if tx.kind == Transfer {
        idx := IndexAddressTx(c, idx, tx, TxLocation(b.height, b.hash, i));
      }
    }
  }

  method ReindexAllTxs(c: Config, blocks: seq<Block>) returns (idx: TxIndex)
    ensures idx == TxIndexOf(c, blocks)
  {
    idx := map[];
    for i := 0 to |blocks|
      invariant idx == TxIndexOf(c, blocks[..i])
    {
      idx := IndexTxsForBlock(c, idx, blocks[i]);
      IncrementalIndex(c, blocks[..i], blocks[i]);
      assert blocks[..i + 1] == blocks[..i] + [blocks[i]];
    }
    assert blocks[..|blocks|] == blocks;
  }

  method ReindexAllAddressTxs(c: Config, blocks: seq<Block>) returns (idx: AddressIndex)
    ensures idx == AddressIndexOf(c, blocks)
  {
    idx := map[];
    for i := 0 to |blocks|
      invariant idx == AddressIndexOf(c, blocks[..i])
    {
      idx := IndexAddressTxsForBlock(c, idx, blocks[i]);
      IncrementalIndex(c, blocks[..i], blocks[i]);
      assert blocks[..i + 1] == blocks[..i] + [blocks[i]];
    }
    assert blocks[..|blocks|] == blocks;
  }

  // ----- what the indexes mean -----

  ghost predicate HasId(c: Config, ts: seq<Posted>, id: string) {
    exists k :: 0 <= k < |ts| && PostedId(c, ts[k]) == Some(id)
  }

  /** Every id that occurs is indexed. */
  lemma {:induction false} PostedIsIndexed(c: Config, ts: seq<Posted>, k: nat, id: string)
    requires k < |ts| && PostedId(c, ts[k]) == Some(id)
    ensures id in FoldTx(c, map[], ts)
  {
    var n := |ts| - 1;
    if k < n { PostedIsIndexed(c, ts[..n], k, id); }
  }

  /** An indexed id is the id of a transfer and leads to the place of that transfer. */
  lemma {:induction false} IndexedIsPosted(c: Config, ts: seq<Posted>, id: string) returns (k: nat)
    requires id in FoldTx(c, map[], ts)
    ensures k < |ts| && PostedId(c, ts[k]) == Some(id) && FoldTx(c, map[], ts)[id] == LocationOf(ts[k])
  {
    var n := |ts| - 1;
    var last := PostedId(c, ts[n]);
    if last == Some(id) {
      k := n;
    } else {
      k := IndexedIsPosted(c, ts[..n], id);
    }
  }

  lemma TxIndexMeaning(c: Config, ts: seq<Posted>, id: string)
    ensures id in FoldTx(c, map[], ts) <==> HasId(c, ts, id)
  {
    if id in FoldTx(c, map[], ts) {
      var k := IndexedIsPosted(c, ts, id);
    }
    if HasId(c, ts, id) {
      var k :| 0 <= k < |ts| && PostedId(c, ts[k]) == Some(id);
      PostedIsIndexed(c, ts, k, id);
    }
  }

  /** The history of an address: the transfers it sent or received, oldest first. */
  function AddressHistory(c: Config, ts: seq<Posted>, a: string): seq<AddressEntry> {
    if ts == [] then []
    else
      var e := EntryOf(c, ts[|ts| - 1]);
      AddressHistory(c, ts[..|ts| - 1], a) + if e.Some? && (e.value.from == a || e.value.to == a) then [e.value] else []
  }

  lemma {:induction false} AddressIndexMeaning(c: Config, ts: seq<Posted>, a: string)
    ensures EntriesFor(FoldAddress(c, map[], ts), a) == AddressHistory(c, ts, a)
  {
    if ts != [] {
      AddressIndexMeaning(c, ts[..|ts| - 1], a);
    }
  }

  // ----- lookups -----

  /** Blocks sit at their own height. */
  ghost predicate AtHeights(blocks: seq<Block>) {
    forall i :: 0 <= i < |blocks| ==> blocks[i].height == i
  }

  /** `p` is transfer number `p.index` of the block at its height. */
  ghost predicate PlacedOn(blocks: seq<Block>, p: Posted) {
    && p.height < |blocks|
    && blocks[p.height].hash == p.hash
    && p.index < |blocks[p.height].txs|
    && blocks[p.height].txs[p.index] == p.tx
  }

  lemma {:induction false} PostedArePlaced(b: Block, i: nat, k: nat)
    requires k < |PostedFrom(b, i)|
    ensures var p := PostedFrom(b, i)[k];
            p.height == b.height && p.hash == b.hash && p.index < |b.txs| && b.txs[p.index] == p.tx
                && p.tx.kind.Transfer?
    decreases |b.txs| - i
  {
    if k >= |PostedAt(b, i)| { PostedArePlaced(b, i + 1, k - |PostedAt(b, i)|); }
  }

  lemma {:induction false} HistoryIsPlaced(blocks: seq<Block>, k: nat)
    requires AtHeights(blocks) && k < |History(blocks)|
    ensures PlacedOn(blocks, History(blocks)[k]) && History(blocks)[k].tx.kind.Transfer?
    decreases |blocks|
  {
    var n := |blocks| - 1;
    var m := |History(blocks[..n])|;
    if k < m {
      HistoryIsPlaced(blocks[..n], k);
    } else {
      PostedArePlaced(blocks[n], 0, k - m);
    }
  }

  method TxByID(c: Config, txIndex: TxIndex, blocks: seq<Block>, txid: string)
    returns (r: Option<(Transaction, TxLocation)>)
    requires AtHeights(blocks) && txIndex == TxIndexOf(c, blocks)
    ensures r.Some? <==> HasId(c, History(blocks), txid)
    ensures r.Some? ==> exists k :: 0 <= k < |History(blocks)| && PostedId(c, History(blocks)[k]) == Some(txid)
                                    && r.value == (History(blocks)[k].tx, LocationOf(History(blocks)[k]))
  {
    ghost var ts := History(blocks);
    TxIndexMeaning(c, ts, txid);
    if txid !in txIndex { return None; }
    var loc := txIndex[txid];
    ghost var k := IndexedIsPosted(c, ts, txid);
    HistoryIsPlaced(blocks, k);
    if loc.height >= |blocks| || loc.index < 0 { return None; }
    var b := blocks[loc.height];
    if loc.index >= |b.txs| { return None; }
    if b.hash != loc.blockHash { return None; }
    return Some((b.txs[loc.index], loc));
  }

  /** With unique ids the lookup finds each canonical transfer and nothing else. */
  lemma EveryTransferIsFound(c: Config, blocks: seq<Block>, k: nat)
    requires Ledger.ApplyBlocks(c, blocks).error.None? && JsonSeparates(c.env)
    requires Merkle.NoCollisions(c.env.sha, Preimages(c, History(blocks)))
    requires k < |History(blocks)|
    ensures var p := History(blocks)[k];
            PostedId(c, p).Some? && PostedId(c, p).value in TxIndexOf(c, blocks)
                && TxIndexOf(c, blocks)[PostedId(c, p).value] == LocationOf(p)
  {
    var ts := History(blocks);
    ChainSequenced(c, blocks);
    SequencedAt(c, ts, k);
    var id := PostedId(c, ts[k]).value;
    PostedIsIndexed(c, ts, k, id);
    var l := IndexedIsPosted(c, ts, id);
    if l < k {
      TxIdsUnique(c, blocks, l, k);
    } else if k < l {
      TxIdsUnique(c, blocks, k, l);
    }
  }

  // ----- pages of an address history -----

  datatype Page = Page(entries: seq<AddressEntry>, next: nat, more: bool)

  function Limited(limit: int): nat {
    if limit <= 0 then 50 else if limit > 200 then 200 else limit
  }

  function Min(a: nat, b: nat): nat { if a <= b then a else b }

  /** The page of `all` (oldest first) that starts `cursor` items from the newest. */
  function PageOf(all: seq<AddressEntry>, limit: int, cursor: int): Page {
    if all == [] then Page([], 0, false)
    else
      var start := if cursor < 0 then 0 else cursor;
      if start >= |all| then Page([], start, false)
      else
        var hi := |all| - start;
        var n := Min(Limited(limit), hi);
        Page(Reverse(all[hi - n..hi]), start + n, start + n < |all|)
  }

  lemma {:induction false} ReverseTail(s: seq<AddressEntry>, lo: nat, hi: nat)
    requires lo < hi <= |s|
    ensures Reverse(s[lo..hi]) == Reverse(s[lo + 1..hi]) + [s[lo]]
    decreases hi - lo
  {
    if lo + 1 == hi {
      assert s[lo..hi] == [s[lo]];
      assert s[lo + 1..hi] == [];
      assert [s[lo]][..0] == [];
    } else {
      ReverseTail(s, lo, hi - 1);
      assert s[lo..hi][..hi - lo - 1] == s[lo..hi - 1];
      assert s[lo + 1..hi][..hi - lo - 2] == s[lo + 1..hi - 1];
    }
  }

  lemma {:induction false} ReverseSplit(s: seq<AddressEntry>, lo: nat)
    requires lo <= |s|
    ensures Reverse(s) == Reverse(s[lo..]) + Reverse(s[..lo])
    decreases |s| - lo
  {
    if lo == |s| {
      assert s[..lo] == s && s[lo..] == [];
    } else {
      ReverseSplit(s, lo + 1);
      ReverseTail(s, lo, |s|);
      assert s[lo..] == s[lo..|s|] && s[lo + 1..] == s[lo + 1..|s|];
      assert s[..lo + 1][..lo] == s[..lo];
    }
  }

  /** The entries below position `hi`, newest first, at most `lim` of them. */
  method CollectDown(all: seq<AddressEntry>, hi: nat, lim: nat) returns (out: seq<AddressEntry>)
    requires hi <= |all|
    ensures |out| == Min(lim, hi) && out == Reverse(all[hi - Min(lim, hi)..hi])
  {
    out := [];
    var i := hi - 1;
    while i >= 0 && |out| < lim
      invariant -1 <= i < hi && |out| == hi - 1 - i && |out| <= lim
      invariant out == Reverse(all[i + 1..hi])
    {
      ReverseTail(all, i, hi);
      out := out + [all[i]];
      i := i - 1;
    }
  }

  method AddressTxs(addressIndex: AddressIndex, address: string, limit: int, cursor: int) returns (p: Page)
    ensures p == PageOf(EntriesFor(addressIndex, address), limit, cursor)
  {
    var all := EntriesFor(addressIndex, address);
    if |all| == 0 { return Page([], 0, false); }
    var lim := limit;
    if lim <= 0 { lim := 50; }
    if lim > 200 { lim := 200; }
    var cur := cursor;
    if cur < 0 { cur := 0; }
    var start := |all| - 1 - cur;
    if start < 0 { return Page([], cur, false); }
    var out := CollectDown(all, |all| - cur, lim);
    var next := cur + |out|;
    var more := |all| - 1 - next >= 0;
    assert more <==> next < |all|;
    return Page(out, next, more);
  }

  /** Following cursors while more pages are promised. */
  ghost function FollowPages(all: seq<AddressEntry>, limit: int, cursor: nat): seq<AddressEntry>
    decreases |all| - cursor
  {
    var p := PageOf(all, limit, cursor);
    if p.more then p.entries + FollowPages(all, limit, p.next) else p.entries
  }

  lemma {:induction false} ReverseLength(s: seq<AddressEntry>)
    ensures |Reverse(s)| == |s|
  {
    if s != [] { ReverseLength(s[..|s| - 1]); }
  }

  /** A page takes the newest remaining entries and leaves the older ones. */
  lemma PageSplits(all: seq<AddressEntry>, limit: int, cursor: nat)
    requires cursor < |all|
    ensures var p := PageOf(all, limit, cursor);
            && cursor < p.next <= |all| && (p.more <==> p.next < |all|)
            && |p.entries| == p.next - cursor
            && p.next == Min(cursor + (if limit <= 0 then 50 else if limit > 200 then 200 else limit), |all|)
            && Reverse(all[..|all| - cursor]) == p.entries + Reverse(all[..|all| - p.next])
  {
    var hi := |all| - cursor;
    var n := Min(Limited(limit), hi);
    var rest := all[..hi];
    ReverseSplit(rest, hi - n);
    ReverseLength(all[hi - n..hi]);
    assert rest[hi - n..] == all[hi - n..hi] && rest[..hi - n] == all[..hi - n];
  }

  lemma {:induction false} PagesCover(all: seq<AddressEntry>, limit: int, cursor: nat)
    requires cursor <= |all|
    ensures FollowPages(all, limit, cursor) == Reverse(all[..|all| - cursor])
    decreases |all| - cursor
  {
    if cursor < |all| {
      var p := PageOf(all, limit, cursor);
      PageSplits(all, limit, cursor);
      if p.more {
        PagesCover(all, limit, p.next);
      } else {
        assert all[..|all| - p.next] == [];
      }
    }
  }

  /** Paging through an address with any limit yields its whole history, newest first, each entry once. */
  lemma PagingIsComplete(c: Config, blocks: seq<Block>, a: string, limit: int)
    ensures FollowPages(EntriesFor(AddressIndexOf(c, blocks), a), limit, 0)
            == Reverse(AddressHistory(c, History(blocks), a))
  {
    AddressIndexMeaning(c, History(blocks), a);
    var all := AddressHistory(c, History(blocks), a);
    PagesCover(all, limit, 0);
    assert all[..|all|] == all;
  }
}

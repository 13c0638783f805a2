/** The pool of pending transfers and its index by sender and nonce. */
module Mempools {
  import opened Words
  import opened Types
  import opened TxRules
  import Hex
  import Sorting

  datatype Entry = Entry(tx: Transaction, txid: string, received: int)

  type Entries = map<string, Entry>
  type NonceIndex = map<string, map<u64, string>>

  datatype PoolError =
    | NoTxId | NoSender | SpamDetected | DuplicateTransaction | NonceTaken | PoolFull
    | NothingToReplace | FeeNotHigher | ReplacementExists

  const DEFAULT_SIZE: int := 10_000
  const MAX_FEE: u64 := TWO64 - 1

  // ----- coherence -----

  /** What the index names for a sender and nonce. */
  function At(index: NonceIndex, from: string, n: u64): Option<string> {
    if from in index && n in index[from] then Some(index[from][n]) else None
  }

  /** An entry is filed under its own nonempty id, and the index names it for its sender and nonce. */
  ghost predicate EntryOk(env: Env, entries: Entries, index: NonceIndex, id: string)
    requires id in entries
  {
    var e := entries[id];
    && id != "" && e.txid == id && FromAddress(env, e.tx).Some?
    && At(index, FromAddress(env, e.tx).value, e.tx.nonce) == Some(id)
  }

  /** What the index names is an entry of that sender and nonce. */
  ghost predicate NameOk(env: Env, entries: Entries, index: NonceIndex, from: string, n: u64) {
    At(index, from, n).Some? ==>
      var id := At(index, from, n).value;
      id in entries && SentBy(env, entries[id].tx, from) && entries[id].tx.nonce == n
  }

  ghost predicate NoEmptyRows(index: NonceIndex) { forall from :: from in index ==> index[from] != map[] }

  /** Entries and index agree, both ways. */
  ghost predicate Coherent(env: Env, entries: Entries, index: NonceIndex) {
    && (forall id {:trigger EntryOk(env, entries, index, id)} :: id in entries ==> EntryOk(env, entries, index, id))
    && (forall from, n :: NameOk(env, entries, index, from, n))
    && NoEmptyRows(index)
  }

  /** At most one pending transaction for a sender and nonce. */
  lemma OnePerNonce(env: Env, entries: Entries, index: NonceIndex, id1: string, id2: string)
    requires Coherent(env, entries, index) && id1 in entries && id2 in entries
    requires FromAddress(env, entries[id1].tx) == FromAddress(env, entries[id2].tx)
             && entries[id1].tx.nonce == entries[id2].tx.nonce
    ensures id1 == id2
  {
    assert EntryOk(env, entries, index, id1) && EntryOk(env, entries, index, id2);
  }

  lemma RowWithin(env: Env, entries: Entries, index1: NonceIndex, index2: NonceIndex, from: string)
    requires Coherent(env, entries, index1) && Coherent(env, entries, index2) && from in index1
    ensures from in index2 && forall n :: n in index1[from] ==> n in index2[from] && index2[from][n] == index1[from][n]
  {
    forall n | n in index1[from] ensures At(index2, from, n) == Some(index1[from][n]) {
      assert NameOk(env, entries, index1, from, n);
      assert EntryOk(env, entries, index2, index1[from][n]);
    }
    var n :| n in index1[from];
    assert At(index2, from, n).Some?;
    forall n | n in index1[from] ensures n in index2[from] && index2[from][n] == index1[from][n] {
      assert At(index2, from, n) == Some(index1[from][n]);
    }
  }

  /** The index is a function of the entries: whatever sequence of operations led to them. */
  lemma IndexIsDetermined(env: Env, entries: Entries, index1: NonceIndex, index2: NonceIndex)
    requires Coherent(env, entries, index1) && Coherent(env, entries, index2)
    ensures index1 == index2
  {
    forall from | from in index1 ensures from in index2 && index1[from] == index2[from] {
      RowWithin(env, entries, index1, index2, from);
      RowWithin(env, entries, index2, index1, from);
    }
    forall from | from in index2 ensures from in index1 { RowWithin(env, entries, index2, index1, from); }
  }

  /** The ids of a sender's transactions with nonce `n` and later. */
  function FromNonce(env: Env, entries: Entries, from: string, n: u64): set<string> {
    set id | id in entries && SentBy(env, entries[id].tx, from) && entries[id].tx.nonce >= n
  }

  /** The ids of a sender's transactions after nonce `n`. */
  function After(env: Env, entries: Entries, from: string, n: u64): set<string> {
    set id | id in entries && SentBy(env, entries[id].tx, from) && entries[id].tx.nonce > n
  }

  // ----- ids -----

  function Ids(txids: seq<string>): set<string> { set id | id in txids }

  ghost predicate Distinct(txids: seq<string>) { forall i, j :: 0 <= i < j < |txids| ==> txids[i] != txids[j] }

  /** unicode.IsSpace */
  predicate IsSpace(ch: char) {
    var n := ch as int;
    9 <= n <= 13 || n == 32 || n == 0x85 || n == 0xA0 || n == 0x1680 || 0x2000 <= n <= 0x200A
    || n == 0x2028 || n == 0x2029 || n == 0x202F || n == 0x205F || n == 0x3000
  }

  predicate Blank(s: string) { forall i :: 0 <= i < |s| ==> IsSpace(s[i]) }

  /** The zero value of the parameters, which asks for the legacy id. */
  const ZERO_PARAMS := ConsensusParams(false, 0, 0, 0, 0, 0, 0, 0, 0, 0, false, 0, false, 0, MonetaryPolicy(0, 0, 0, 0))

  /** TxIDHexForConsensus under the parameters a call brings along. */
  function IdUnder(env: Env, p: ConsensusParams, tx: Transaction, height: u64): Option<string> {
    TxId(Config(env, p, 0), tx, height)
  }

  /** TxIDHex */
  function LegacyId(env: Env, tx: Transaction): Option<string> {
    match env.legacyPreimage(tx)
    case Some(pre) => Some(Hex.Encode(env.sha(pre)))
    case None => None
  }

  /** The caller's id, or the transaction's own when the caller's is blank. */
  function KeyFor(env: Env, given: string, tx: Transaction, p: ConsensusParams, height: u64): (k: Option<string>)
    ensures k.Some? ==> k.value != ""
    ensures k.None? <==> Blank(given) && IdUnder(env, p, tx, height).None?
  {
    if !Blank(given) then Some(given) else IdUnder(env, p, tx, height)
  }

  /** Under a node's own parameters the pool's id of a transaction is its id on the chain at that height. */
  lemma PoolIdIsChainId(c: Config, tx: Transaction, height: u64)
    ensures KeyFor(c.env, "", tx, c.params, height) == TxId(c, tx, height)
  {
  }

  /** The id under which both calls file a transaction; zero parameters at height zero mean the legacy form. */
  method ChooseKey(env: Env, given: string, tx: Transaction, p: ConsensusParams, height: u64)
    returns (key: Option<string>)
    ensures key == KeyFor(env, given, tx, p, height)
  {
    if !Blank(given) { return Some(given); }
    if p == ZERO_PARAMS && height == 0 { return LegacyId(env, tx); }
    return IdUnder(env, p, tx, height);
  }

  // ----- orders for the listings -----

  predicate HigherFee(a: Entry, b: Entry) { a.tx.fee > b.tx.fee || (a.tx.fee == b.tx.fee && a.received < b.received) }

  predicate LowerNonce(a: Entry, b: Entry) { a.tx.nonce < b.tx.nonce }

  /** A higher fee comes first, and of equal fees the one received first. */
  ghost predicate ByFallingFee(out: seq<Entry>) {
    forall i, j :: 0 <= i < j < |out| ==>
                     || out[i].tx.fee > out[j].tx.fee
                     || (out[i].tx.fee == out[j].tx.fee && out[i].received <= out[j].received)
  }

  lemma FeeOrder()
    ensures Sorting.StrictWeak(HigherFee)
  {
  }

  lemma NonceOrder()
    ensures Sorting.StrictWeak(LowerNonce)
  {
  }

  // ----- removing and filing -----

  function IdsAt(row: map<u64, string>, nonces: set<u64>): set<string> { set n | n in nonces && n in row :: row[n] }

  /** `row` lists `gone` under the nonces above `nonce`, no id twice. */
  ghost predicate RowLists(row: map<u64, string>, gone: set<string>, nonce: u64) {
    && gone <= IdsAt(row, row.Keys)
    && (forall n :: n in row ==> (row[n] in gone <==> n > nonce))
    && (forall m, n :: m in row && n in row && row[m] == row[n] ==> m == n)
  }

  lemma RowListsSender(env: Env, entries: Entries, index: NonceIndex, from: string, nonce: u64)
    requires Coherent(env, entries, index)
    ensures if from in index then RowLists(index[from], After(env, entries, from, nonce), nonce)
            else After(env, entries, from, nonce) == {}
  {
    forall id | id in After(env, entries, from, nonce)
      ensures from in index && id in IdsAt(index[from], index[from].Keys)
    {
      assert EntryOk(env, entries, index, id);
      assert entries[id].tx.nonce in index[from];
    }
    if from in index {
      forall n | n in index[from]
        ensures index[from][n] in entries && SentBy(env, entries[index[from][n]].tx, from)
                && entries[index[from][n]].tx.nonce == n
      {
        assert NameOk(env, entries, index, from, n);
      }
    }
  }

  lemma VisitEnds(gone: set<string>, row: map<u64, string>, nonce: u64)
    requires RowLists(row, gone, nonce)
    ensures gone - IdsAt(row, row.Keys) == {} == Ids([]) && gone - IdsAt(row, {}) == gone
  {
  }

  /** A sender's row names exactly its entries. */
  lemma RowIsSender(env: Env, entries: Entries, index: NonceIndex, from: string)
    requires Coherent(env, entries, index)
    ensures forall id :: id in entries && SentBy(env, entries[id].tx, from) ==>
                           from in index && entries[id].tx.nonce in index[from]
                               && index[from][entries[id].tx.nonce] == id && entries[id].txid == id
    ensures from in index ==> forall n :: n in index[from] ==>
                                            index[from][n] in entries && SentBy(env, entries[index[from][n]].tx, from)
                                            && entries[index[from][n]].tx.nonce == n
                                               && entries[index[from][n]].txid == index[from][n]
  {
    forall id | id in entries ensures EntryOk(env, entries, index, id) {}
    if from in index {
      forall n | n in index[from] ensures NameOk(env, entries, index, from, n) {}
    }
  }

  /** One turn of the loop over a row: what is gone from the pool and what has been reported. */
  lemma VisitOne(entries: Entries, gone: set<string>, row: map<u64, string>, todo: set<u64>, n: u64, nonce: u64,
                 evicted: seq<string>)
    requires RowLists(row, gone, nonce) && n in todo && todo <= row.Keys && Ids(evicted) == gone - IdsAt(row, todo)
    ensures var before, after := entries - (gone - IdsAt(row, todo)), entries - (gone - IdsAt(row, todo - {n}));
            after == if n > nonce then before - {row[n]} else before
    ensures gone - IdsAt(row, todo - {n}) == if n > nonce then Ids(evicted + [row[n]]) else Ids(evicted)
    ensures Distinct(evicted) ==> Distinct(evicted + [row[n]])
  {
    assert IdsAt(row, todo - {n}) == IdsAt(row, todo) - {row[n]};
    assert row[n] in IdsAt(row, todo);
    assert row[n] !in Ids(evicted);
    assert Ids(evicted + [row[n]]) == Ids(evicted) + {row[n]};
    DropOne(entries, gone, IdsAt(row, todo), row[n]);
  }

  /** The index without one sender and nonce, if that is where `txid` is; empty rows go. */
  function Unfiled(index: NonceIndex, from: string, nonce: u64, txid: string): NonceIndex {
    if from !in index then index
    else
      var row: map<u64, string> :=
        if nonce in index[from] && index[from][nonce] == txid then index[from] - {nonce} else index[from];
      if row == map[] then index - {from} else index[from := row]
  }

  lemma MinusBoth(entries: Entries, a: set<string>, b: set<string>)
    ensures entries - a - b == entries - (a + b)
  {
  }

  lemma DropNone(entries: Entries)
    ensures entries - {} == entries
  {
  }

  lemma DropOne(entries: Entries, gone: set<string>, todo: set<string>, id: string)
    requires id in todo
    ensures entries - (gone - (todo - {id})) == if id in gone then entries - (gone - todo) - {id}
            else entries - (gone - todo)
  {
    if id in gone {
      assert gone - (todo - {id}) == gone - todo + {id};
      MinusBoth(entries, gone - todo, {id});
    } else {
      assert gone - (todo - {id}) == gone - todo;
    }
  }

  lemma DropNext(entries: Entries, txids: seq<string>, i: nat)
    requires i < |txids|
    ensures entries - Ids(txids[..i + 1]) == entries - Ids(txids[..i]) - {txids[i]}
  {
    assert txids[..i + 1] == txids[..i] + [txids[i]];
    assert Ids(txids[..i + 1]) == Ids(txids[..i]) + {txids[i]};
    MinusBoth(entries, Ids(txids[..i]), {txids[i]});
  }

  lemma FewerEntries(entries: Entries, ids: set<string>)
    ensures |entries - ids| <= |entries|
    ensures (exists id :: id in ids && id in entries) ==> |entries - ids| < |entries|
  {
    assert (entries - ids).Keys == entries.Keys - ids;
    assert |entries.Keys| == |entries.Keys - ids| + |entries.Keys * ids|;
    if id :| id in ids && id in entries { assert id in entries.Keys * ids; }
  }

  lemma UnfiledAt(index: NonceIndex, from: string, nonce: u64, txid: string, a: string, n: u64)
    ensures At(Unfiled(index, from, nonce, txid), a, n)
            == if a == from && n == nonce && At(index, from, nonce) == Some(txid) then None else At(index, a, n)
  {
    if from in index && a == from && n != nonce {
      var row: map<u64, string> := if At(index, from, nonce) == Some(txid) then index[from] - {nonce} else index[from];
      assert n in row <==> n in index[from];
    }
  }

  lemma RemovalKeepsCoherence(env: Env, entries: Entries, index: NonceIndex, txid: string, from: string)
    requires Coherent(env, entries, index) && txid in entries && SentBy(env, entries[txid].tx, from)
    ensures Coherent(env, entries - {txid}, Unfiled(index, from, entries[txid].tx.nonce, txid))
  {
    var nonce := entries[txid].tx.nonce;
    var left, after := entries - {txid}, Unfiled(index, from, nonce, txid);
    forall id | id in left ensures EntryOk(env, left, after, id) {
      assert EntryOk(env, entries, index, id);
      UnfiledAt(index, from, nonce, txid, FromAddress(env, entries[id].tx).value, entries[id].tx.nonce);
    }
    forall a, n ensures NameOk(env, left, after, a, n) {
      assert NameOk(env, entries, index, a, n);
      assert EntryOk(env, entries, index, txid);
      UnfiledAt(index, from, nonce, txid, a, n);
    }
  }

  /** An entry and every later nonce of its sender. */
  function Dependents(env: Env, entries: Entries, txid: string): set<string>
    requires txid in entries
  {
    match FromAddress(env, entries[txid].tx)
    case None => {txid}
    case Some(from) => FromNonce(env, entries, from, entries[txid].tx.nonce)
  }

  /** A sender's nonces from `n` on: the one at `n`, if there is one, and those after it. */
  lemma FromNonceSplit(env: Env, entries: Entries, index: NonceIndex, from: string, n: u64)
    requires Coherent(env, entries, index)
    ensures match At(index, from, n)
            case None => FromNonce(env, entries, from, n) == After(env, entries, from, n)
            case Some(id) =>
              id in entries && FromNonce(env, entries, from, n) == {id} + After(env, entries - {id}, from, n)
  {
    assert NameOk(env, entries, index, from, n);
    forall id | id in FromNonce(env, entries, from, n) && entries[id].tx.nonce == n
      ensures At(index, from, n) == Some(id)
    {
      assert EntryOk(env, entries, index, id);
    }
  }

  lemma DependentsSplit(env: Env, entries: Entries, index: NonceIndex, txid: string)
    requires Coherent(env, entries, index) && txid in entries
    ensures FromAddress(env, entries[txid].tx).Some? && txid in Dependents(env, entries, txid)
    ensures var e := entries[txid];
            entries - {txid} - After(env, entries - {txid}, FromAddress(env, e.tx).value, e.tx.nonce)
                == entries - Dependents(env, entries, txid)
  {
    assert EntryOk(env, entries, index, txid);
    var e := entries[txid];
    var from := FromAddress(env, e.tx).value;
    FromNonceSplit(env, entries, index, from, e.tx.nonce);
    MinusBoth(entries, {txid}, After(env, entries - {txid}, from, e.tx.nonce));
  }

  /** The index with `txid` named for a sender and nonce. */
  function Filed(index: NonceIndex, from: string, nonce: u64, txid: string): NonceIndex {
    index[from := (if from in index then index[from] else map[])[nonce := txid]]
  }

  lemma InsertionKeepsCoherence(env: Env, entries: Entries, index: NonceIndex, e: Entry, from: string)
    requires Coherent(env, entries, index) && e.txid != "" && SentBy(env, e.tx, from)
    requires e.txid !in entries && At(index, from, e.tx.nonce).None?
    ensures Coherent(env, entries[e.txid := e], Filed(index, from, e.tx.nonce, e.txid))
  {
    var more, after := entries[e.txid := e], Filed(index, from, e.tx.nonce, e.txid);
    forall a, n ensures At(after, a, n) == if a == from && n == e.tx.nonce then Some(e.txid) else At(index, a, n) {}
    forall id | id in more ensures EntryOk(env, more, after, id) {
      if id != e.txid { assert EntryOk(env, entries, index, id); }
    }
    forall a, n ensures NameOk(env, more, after, a, n) {
      assert NameOk(env, entries, index, a, n);
    }
  }

  lemma PrependId(id: string, rest: seq<string>)
    requires id !in Ids(rest) && Distinct(rest)
    ensures Ids([id] + rest) == {id} + Ids(rest) && Distinct([id] + rest)
  {
    forall j | 0 <= j < |rest| ensures rest[j] != id { assert rest[j] in Ids(rest); }
  }

  lemma IdsAreNonempty(env: Env, entries: Entries, index: NonceIndex)
    requires Coherent(env, entries, index)
    ensures "" !in entries
  {
    assert "" in entries ==> EntryOk(env, entries, index, "");
  }

  /** Eviction with dependents takes the entry and the sender's entries of later nonces, and no other. */
  lemma DependentsMeaning(env: Env, entries: Entries, index: NonceIndex, txid: string, id: string)
    requires Coherent(env, entries, index) && txid in entries
    ensures id in Dependents(env, entries, txid) <==>
            || id == txid
            || (&& id in entries && FromAddress(env, entries[id].tx) == FromAddress(env, entries[txid].tx)
                && entries[id].tx.nonce > entries[txid].tx.nonce)
  {
    DependentsSplit(env, entries, index, txid);
    if id in Dependents(env, entries, txid) && entries[id].tx.nonce == entries[txid].tx.nonce {
      OnePerNonce(env, entries, index, txid, id);
    }
  }

  // ----- when a transaction is refused -----

  /** A pending entry of this sender and nonce. */
  predicate Holds(env: Env, entries: Entries, id: string, from: string, n: u64) {
    id in entries && SentBy(env, entries[id].tx, from) && entries[id].tx.nonce == n
  }

  /** The index names exactly the pending entry of a sender and nonce. */
  lemma SlotMeaning(env: Env, entries: Entries, index: NonceIndex, from: string, n: u64)
    requires Coherent(env, entries, index)
    ensures forall id :: Holds(env, entries, id, from, n) <==> At(index, from, n) == Some(id)
  {
    assert NameOk(env, entries, index, from, n);
    forall id | Holds(env, entries, id, from, n) ensures At(index, from, n) == Some(id) {
      assert EntryOk(env, entries, index, id);
    }
  }

  ghost predicate Taken(env: Env, entries: Entries, from: string, n: u64) {
    exists id :: Holds(env, entries, id, from, n)
  }

  /** Every fee is the largest uint64, which the search for a cheapest entry passes over. */
  ghost predicate AllPriceless(entries: Entries) { forall id :: id in entries ==> entries[id].tx.fee == MAX_FEE }

  ghost predicate Cheapest(entries: Entries, id: string) {
    id in entries && forall k :: k in entries ==> entries[id].tx.fee <= entries[k].tx.fee
  }

  ghost function AddRefusal(env: Env, maxSize: int, entries: Entries, tx: Transaction, key: Option<string>,
                            spam: bool): Option<PoolError>
  {
    if key.None? then Some(NoTxId)
    else if FromAddress(env, tx).None? then Some(NoSender)
    else if spam then Some(SpamDetected)
    else if key.value in entries then Some(DuplicateTransaction)
    else if Taken(env, entries, FromAddress(env, tx).value, tx.nonce) then Some(NonceTaken)
    else if |entries| >= maxSize && AllPriceless(entries) then Some(PoolFull)
    else None
  }

  ghost function ReplaceRefusal(env: Env, entries: Entries, tx: Transaction, key: Option<string>): Option<PoolError> {
    if key.None? then Some(NoTxId)
    else if FromAddress(env, tx).None? then Some(NoSender)
    else
      var from := FromAddress(env, tx).value;
      if !Taken(env, entries, from, tx.nonce) then Some(NothingToReplace)
      else if exists id :: Holds(env, entries, id, from, tx.nonce) && tx.fee <= entries[id].tx.fee then
        Some(FeeNotHigher)
      else None
  }

  class Mempool {
    const env: Env
    const maxSize: int
    var entries: Entries
    var bySenderNonce: NonceIndex

    ghost predicate Valid()
      reads this
    {
      Coherent(env, entries, bySenderNonce) && (|entries| <= maxSize || entries == map[])
    }

    /** NewMempoolWithAI takes the size as given. */
    constructor WithSize(env: Env, maxSize: int)
      ensures Valid() && entries == map[] && bySenderNonce == map[]
      ensures this.env == env && this.maxSize == maxSize
    {
      this.env, this.maxSize := env, maxSize;
      entries, bySenderNonce := map[], map[];
    }

    /** NewMempool replaces a size that is not positive. */
    constructor (env: Env, maxSize: int)
      ensures Valid() && entries == map[] && bySenderNonce == map[]
      ensures this.env == env && this.maxSize == (if maxSize <= 0 then 10_000 else maxSize)
    {
      this.env, this.maxSize := env, if maxSize <= 0 then DEFAULT_SIZE else maxSize;
      entries, bySenderNonce := map[], map[];
    }

    method Unindex(from: string, nonce: u64, txid: string)
      modifies `bySenderNonce
      ensures bySenderNonce == Unfiled(old(bySenderNonce), from, nonce, txid)
    {
      if from in bySenderNonce {
        var row: map<u64, string> := bySenderNonce[from];
        if nonce in row && row[nonce] == txid { row := row - {nonce}; }
        if |row| == 0 {
          bySenderNonce := bySenderNonce - {from};
        } else {
          bySenderNonce := bySenderNonce[from := row];
        }
      }
    }

    /** removeLocked: exactly this entry goes, with its index row when that becomes empty. */
    method RemoveLocked(txid: string)
      requires Valid()
      modifies this
      ensures Valid() && entries == old(entries) - {txid}
    {
      if txid !in entries { return; }
      assert EntryOk(env, entries, bySenderNonce, txid);
      RemovalKeepsCoherence(env, entries, bySenderNonce, txid, FromAddress(env, entries[txid].tx).value);
      FewerEntries(entries, {txid});
      var e := entries[txid];
      entries := entries - {txid};
      var from := FromAddress(env, e.tx);
      if from.None? { return; }
      Unindex(from.value, e.tx.nonce, txid);
    }

    /** Remove */
    method Remove(txid: string)
      requires Valid()
      modifies this
      ensures Valid() && entries == old(entries) - {txid}
    {
      RemoveLocked(txid);
    }

    method RemoveMany(txids: seq<string>)
      requires Valid()
      modifies this
      ensures Valid() && entries == old(entries) - Ids(txids)
    {
      for i := 0 to |txids|
        invariant Valid() && entries == old(entries) - Ids(txids[..i])
      {
        RemoveLocked(txids[i]);
        DropNext(old(entries), txids, i);
      }
      assert txids[..|txids|] == txids;
    }

    /** lowestFeeLocked: some entry of least fee; the empty id when every fee is the largest uint64. */
    method LowestFee() returns (id: string)
      ensures id == "" <==> forall k :: k in entries && k != "" ==> entries[k].tx.fee == MAX_FEE
      ensures id != "" ==> id in entries && forall k ::
              k in entries && k != "" ==> entries[id].tx.fee <= entries[k].tx.fee
    {
      var lowest := MAX_FEE;
      id := "";
      var todo := entries.Keys - {""};
      while todo != {}
        invariant todo <= entries.Keys
        invariant id == "" ==> lowest == MAX_FEE
        invariant id != "" ==> id in entries && lowest == entries[id].tx.fee < MAX_FEE
        invariant forall k :: k in entries && k != "" && k !in todo ==> lowest <= entries[k].tx.fee
        decreases todo
      {
        var k :| k in todo;
        todo := todo - {k};
        if entries[k].tx.fee < lowest { lowest, id := entries[k].tx.fee, k; }
      }
    }

    /** The loop over the whole pool that drops the later nonces of a sender. */
    method RemoveLater(from: string, nonce: u64)
      requires Valid()
      modifies this
      ensures Valid() && entries == old(entries) - After(env, old(entries), from, nonce)
    {
      ghost var gone := After(env, entries, from, nonce);
      var todo := entries.Keys;
      DropNone(entries);
      assert gone - todo == {};
      while todo != {}
        invariant Valid() && todo <= old(entries).Keys && entries == old(entries) - (gone - todo)
        decreases todo
      {
        var id :| id in todo;
        DropOne(old(entries), gone, todo, id);
        todo := todo - {id};
        if SentBy(env, entries[id].tx, from) && entries[id].tx.nonce > nonce { RemoveLocked(id); }
      }
      assert gone - todo == gone;
    }

    /** evictWithDependentsLocked: the entry and every later nonce of its sender, nothing else. */
    method EvictWithDependents(txid: string)
      requires Valid()
      modifies this
      ensures Valid()
      ensures txid !in old(entries) ==> entries == old(entries)
      ensures txid in old(entries) ==> entries == old(entries) - Dependents(env, old(entries), txid)
    {
      if txid !in entries { return; }
      DependentsSplit(env, entries, bySenderNonce, txid);
      var victim := entries[txid];
      RemoveLocked(txid);
      var from := FromAddress(env, victim.tx);
      if from.None? { return; }
      RemoveLater(from.value, victim.tx.nonce);
    }

    /** The loop over a sender's index row that drops and reports the later nonces. */
    method EvictLater(from: string, nonce: u64) returns (evicted: seq<string>)
      requires Valid()
      modifies this
      ensures Valid() && entries == old(entries) - After(env, old(entries), from, nonce)
      ensures Ids(evicted) == After(env, old(entries), from, nonce) && Distinct(evicted)
    {
      evicted := [];
      ghost var gone := After(env, entries, from, nonce);
      RowListsSender(env, entries, bySenderNonce, from, nonce);
      DropNone(entries);
      if from !in bySenderNonce { return; }
      var row := bySenderNonce[from];
      var todo := row.Keys;
      VisitEnds(gone, row, nonce);
      while todo != {}
        invariant Valid() && todo <= row.Keys && entries == old(entries) - (gone - IdsAt(row, todo))
        invariant Ids(evicted) == gone - IdsAt(row, todo) && Distinct(evicted)
        decreases todo
      {
        var n :| n in todo;
        VisitOne(old(entries), gone, row, todo, n, nonce, evicted);
        todo := todo - {n};
        if n > nonce {
          evicted := evicted + [row[n]];
          RemoveLocked(row[n]);
        }
      }
    }

    /** evictBySenderNonceLocked: a sender's entries from `nonce` on go, and their ids are reported once each. */
    method EvictBySenderNonce(from: string, nonce: u64) returns (evicted: seq<string>)
      requires Valid()
      modifies this
      ensures Valid() && entries == old(entries) - FromNonce(env, old(entries), from, nonce)
      ensures Ids(evicted) == FromNonce(env, old(entries), from, nonce) && Distinct(evicted)
    {
      FromNonceSplit(env, entries, bySenderNonce, from, nonce);
      var first := At(bySenderNonce, from, nonce);
      if first.None? {
        evicted := EvictLater(from, nonce);
      } else {
        RemoveLocked(first.value);
        ghost var later := After(env, entries, from, nonce);
        MinusBoth(old(entries), {first.value}, later);
        assert first.value !in later;
        var rest := EvictLater(from, nonce);
        evicted := [first.value] + rest;
        PrependId(first.value, rest);
      }
    }

    method Index(from: string, nonce: u64, txid: string)
      modifies `bySenderNonce
      ensures bySenderNonce == Filed(old(bySenderNonce), from, nonce, txid)
    {
      if from !in bySenderNonce { bySenderNonce := bySenderNonce[from := map[]]; }
      var row: map<u64, string> := bySenderNonce[from];
      bySenderNonce := bySenderNonce[from := row[nonce := txid]];
    }

    /** The write of a new entry and its index row. */
    method Insert(e: Entry, from: string)
      requires Valid() && e.txid != "" && SentBy(env, e.tx, from) && e.txid !in entries
      requires At(bySenderNonce, from, e.tx.nonce).None? && |entries| < maxSize
      modifies this
      ensures Valid() && entries == old(entries)[e.txid := e]
    {
      InsertionKeepsCoherence(env, entries, bySenderNonce, e, from);
      entries := entries[e.txid := e];
      Index(from, e.tx.nonce, e.txid);
    }

    /** Makes room in a full pool: one cheapest entry goes, with its later nonces. */
    method MakeRoom() returns (ghost victim: string, ok: bool)
      requires Valid() && |entries| >= maxSize
      modifies this
      ensures Valid() && (ok <==> !AllPriceless(old(entries)))
      ensures !ok ==> entries == old(entries) && bySenderNonce == old(bySenderNonce)
      ensures ok ==> && Cheapest(old(entries), victim)
                     && entries == old(entries) - Dependents(env, old(entries), victim)
                     && |entries| < maxSize
    {
      IdsAreNonempty(env, entries, bySenderNonce);
      var lowest := LowestFee();
      victim, ok := lowest, lowest != "";
      if ok {
        DependentsSplit(env, entries, bySenderNonce, lowest);
        FewerEntries(entries, Dependents(env, entries, lowest));
        EvictWithDependents(lowest);
      }
    }

    /** AddWithTxID: refused exactly as `AddRefusal` says, with nothing changed; otherwise the entry joins the
        pool, which when full first gives up one cheapest entry and its later nonces. */
    method AddWithTxID(tx: Transaction, given: string, p: ConsensusParams, height: u64, spam: bool, received: int)
      returns (id: string, error: Option<PoolError>)
      requires Valid()
      modifies this
      ensures Valid()
      ensures error == AddRefusal(env, maxSize, old(entries), tx, KeyFor(env, given, tx, p, height), spam)
      ensures error.Some? ==> entries == old(entries) && bySenderNonce == old(bySenderNonce)
      ensures error == Some(NonceTaken) ==>
                id in entries && FromAddress(env, entries[id].tx) == FromAddress(env, tx)
                    && entries[id].tx.nonce == tx.nonce
      ensures error.None? || error == Some(DuplicateTransaction) ==> KeyFor(env, given, tx, p, height) == Some(id)
      ensures error.Some? && error != Some(DuplicateTransaction) && error != Some(NonceTaken) ==> id == ""
      ensures error.None? && |old(entries)| < maxSize ==> entries == old(entries)[id := Entry(tx, id, received)]
      ensures error.None? && |old(entries)| >= maxSize ==>
                exists victim :: Cheapest(old(entries), victim)
                                 && entries == (old(entries) - Dependents(env, old(entries), victim))
                                               [id := Entry(tx, id, received)]
    {
      var key := ChooseKey(env, given, tx, p, height);
      if key.None? { return "", Some(NoTxId); }
      var from := FromAddress(env, tx);
      if from.None? { return "", Some(NoSender); }
      if spam { return "", Some(SpamDetected); }
      if key.value in entries { return key.value, Some(DuplicateTransaction); }
      SlotMeaning(env, entries, bySenderNonce, from.value, tx.nonce);
      var existing := At(bySenderNonce, from.value, tx.nonce);
      if existing.Some? { return existing.value, Some(NonceTaken); }
      if |entries| >= maxSize {
        ghost var victim; var ok;
        victim, ok := MakeRoom();
        if !ok { return "", Some(PoolFull); }
      }
      SlotMeaning(env, entries, bySenderNonce, from.value, tx.nonce);
      Insert(Entry(tx, key.value, received), from.value);
      return key.value, None;
    }

    /** The locked part of ReplaceByFeeWithTxID, for a transaction with id `key` by `from`. */
    method ReplaceAt(tx: Transaction, key: string, from: string, received: int)
      returns (id: string, replaced: bool, evicted: seq<string>, error: Option<PoolError>)
      requires Valid() && key != "" && FromAddress(env, tx) == Some(from)
      modifies this
      ensures Valid()
      ensures replaced <==> ReplaceRefusal(env, old(entries), tx, Some(key)).None?
      ensures !replaced ==> entries == old(entries) && bySenderNonce == old(bySenderNonce) && evicted == [] && id == ""
                            && error == ReplaceRefusal(env, old(entries), tx, Some(key))
      ensures replaced ==>
                && id == key && Distinct(evicted) && Ids(evicted) == FromNonce(env, old(entries), from, tx.nonce)
                && var rest := old(entries) - Ids(evicted);
                   if key in rest then error == Some(ReplacementExists) && entries == rest
                   else error.None? && entries == rest[key := Entry(tx, key, received)]
    {
      SlotMeaning(env, entries, bySenderNonce, from, tx.nonce);
      var existing := At(bySenderNonce, from, tx.nonce);
      if existing.None? { return "", false, [], Some(NothingToReplace); }
      if tx.fee <= entries[existing.value].tx.fee { return "", false, [], Some(FeeNotHigher); }
      FewerEntries(entries, FromNonce(env, entries, from, tx.nonce));
      evicted := EvictBySenderNonce(from, tx.nonce);
      id, replaced := key, true;
      if key in entries { return id, replaced, evicted, Some(ReplacementExists); }
      SlotMeaning(env, entries, bySenderNonce, from, tx.nonce);
      Insert(Entry(tx, key, received), from);
      error := None;
    }

    /** ReplaceByFeeWithTxID: only a strictly higher fee replaces; then the sender's entries from that nonce on
        go and are reported, and the new one takes the nonce unless its id is taken by another entry. */
    method ReplaceByFeeWithTxID(tx: Transaction, given: string, p: ConsensusParams, height: u64, received: int)
      returns (id: string, replaced: bool, evicted: seq<string>, error: Option<PoolError>)
      requires Valid()
      modifies this
      ensures Valid()
      ensures replaced <==> ReplaceRefusal(env, old(entries), tx, KeyFor(env, given, tx, p, height)).None?
      ensures !replaced ==> entries == old(entries) && bySenderNonce == old(bySenderNonce) && evicted == [] && id == ""
                            && error == ReplaceRefusal(env, old(entries), tx, KeyFor(env, given, tx, p, height))
      ensures replaced ==>
                && KeyFor(env, given, tx, p, height) == Some(id)
                && Distinct(evicted)
                && Ids(evicted) == FromNonce(env, old(entries), FromAddress(env, tx).value, tx.nonce)
                && var rest := old(entries) - Ids(evicted);
                   if id in rest then error == Some(ReplacementExists) && entries == rest
                   else error.None? && entries == rest[id := Entry(tx, id, received)]
    {
      var key := ChooseKey(env, given, tx, p, height);
      if key.None? { return "", false, [], Some(NoTxId); }
      var from := FromAddress(env, tx);
      if from.None? { return "", false, [], Some(NoSender); }
      id, replaced, evicted, error := ReplaceAt(tx, key.value, from.value, received);
    }

    /** EntriesSortedByFeeDesc: every entry once, by falling fee and then by time received. */
    method EntriesSortedByFeeDesc() returns (out: seq<Entry>)
      requires Valid()
      ensures Sorting.Ordered(HigherFee, out) && |out| == |entries| && ByFallingFee(out)
      ensures forall e :: e in out <==> e.txid in entries && entries[e.txid] == e
    {
      out := [];
      var todo := entries.Keys;
      while todo != {}
        invariant todo <= entries.Keys && |out| + |todo| == |entries.Keys|
        invariant Sorting.Ordered(HigherFee, out)
        invariant forall e :: e in out <==> e.txid in entries && e.txid !in todo && entries[e.txid] == e
        decreases todo
      {
        var id :| id in todo;
        assert EntryOk(env, entries, bySenderNonce, id);
        todo := todo - {id};
        FeeOrder();
        Sorting.InsertKeepsOrder(HigherFee, entries[id], out);
        Sorting.InsertPermutes(HigherFee, entries[id], out);
        Sorting.InsertMembers(HigherFee, entries[id], out);
        out := Sorting.Insert(HigherFee, entries[id], out);
      }
    }

    /** PendingForSender: the sender's entries, by strictly rising nonce. */
    method PendingForSender(from: string) returns (out: seq<Entry>)
      requires Valid()
      ensures forall i, j :: 0 <= i < j < |out| ==> out[i].tx.nonce < out[j].tx.nonce
      ensures forall e :: e in out <==> e.txid in entries && entries[e.txid] == e && SentBy(env, e.tx, from)
    {
      out := [];
      RowIsSender(env, entries, bySenderNonce, from);
      if from !in bySenderNonce { return; }
      var row := bySenderNonce[from];
      var todo := row.Keys;
      while todo != {}
        invariant todo <= row.Keys && Sorting.Strict(LowerNonce, out)
        invariant forall e :: e in out <==> && e.txid in entries && entries[e.txid] == e
                                            && SentBy(env, e.tx, from) && e.tx.nonce !in todo
        decreases todo
      {
        var n :| n in todo;
        todo := todo - {n};
        if row[n] in entries {
          NonceOrder();
          Sorting.InsertKeepsStrict(LowerNonce, entries[row[n]], out);
          Sorting.InsertMembers(LowerNonce, entries[row[n]], out);
          out := Sorting.Insert(LowerNonce, entries[row[n]], out);
        }
      }
    }
  }
}

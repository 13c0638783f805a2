/** Finality checkpoints by height, and their binary file form. */
module Checkpoints {
  import opened Words
  import opened Encoding
  import Hex

  datatype Checkpoint = Checkpoint(height: u64, blockHash: string, rawHash: Bytes, timestamp: int, stateRoot: Bytes)

  type Table = map<u64, Checkpoint>

  const HASH_LEN := 32

  /** Height, raw hash, 16-bit length and state root. */
  function RecordBytes(h: u64, cp: Checkpoint): Bytes {
    BE(h, 8) + cp.rawHash + BE(|cp.stateRoot|, 2) + cp.stateRoot
  }

  /** The records of heights `h` to `latest`, lowest first. */
  function EncodeFrom(m: Table, h: nat, latest: u64): Bytes
    decreases latest + 1 - h
  {
    if h > latest then []
    else (if h in m then RecordBytes(h, m[h]) else []) + EncodeFrom(m, h + 1, latest)
  }

  /** A record read back: the time of creation is not stored. */
  function Restored(h: u64, rawHash: Bytes, stateRoot: Bytes): Checkpoint {
    Checkpoint(h, Hex.Encode(rawHash), rawHash, 0, stateRoot)
  }

  lemma {:induction false} FromBEBound(s: Bytes)
    ensures FromBE(s) < Pow256(|s|)
  {
    if s != [] {
      FromBEBound(s[..|s| - 1]);
    }
  }

  /** binary.BigEndian.Uint64 */
  function Uint64(s: Bytes): u64
    requires |s| == 8
  {
    FromBEBound(s);
    Pow256Widths();
    FromBE(s)
  }

  /** Reads records until the bytes run out or one is cut short. */
  function DecodeRecords(data: Bytes, m: Table): Table
    decreases |data|
  {
    if |data| < 42 then m
    else
      var h, len := Uint64(data[..8]), FromBE(data[40..42]);
      if |data| < 42 + len then m
      else DecodeRecords(data[42 + len..], m[h := Restored(h, data[8..40], data[42..42 + len])])
  }

  /** Every entry is filed under its own height. */
  ghost predicate OwnHeights(m: Table) { forall h :: h in m ==> m[h].height == h }

  lemma {:induction false} DecodedOwnHeights(data: Bytes, m: Table)
    requires OwnHeights(m)
    ensures OwnHeights(DecodeRecords(data, m))
    decreases |data|
  {
    if |data| >= 42 {
      var h, len := Uint64(data[..8]), FromBE(data[40..42]);
      if |data| >= 42 + len {
        DecodedOwnHeights(data[42 + len..], m[h := Restored(h, data[8..40], data[42..42 + len])]);
      }
    }
  }

  class CheckpointSystem {
    var checkpoints: Table
    var latest: u64
    const interval: u64

    ghost predicate Valid() reads this { OwnHeights(checkpoints) }

    /** `latest` is an upper bound of the heights present. */
    ghost predicate Bounded() reads this {
      forall h :: h in checkpoints ==> h <= latest
    }

    constructor (interval: u64)
      ensures Valid() && Bounded() && checkpoints == map[] && latest == 0
    {
      checkpoints, latest, this.interval := map[], 0, interval;
    }

    method CreateCheckpoint(height: u64, blockHash: Bytes, stateRoot: Bytes, now: int) returns (cp: Checkpoint)
      requires Valid()
      modifies this
      ensures Valid() && (old(Bounded()) ==> Bounded())
      ensures cp == Checkpoint(height, Hex.Encode(blockHash), blockHash, now, stateRoot)
      ensures checkpoints == old(checkpoints)[height := cp]
      ensures latest == if height > old(latest) then height else old(latest)
    {
      cp := Checkpoint(height, Hex.Encode(blockHash), blockHash, now, stateRoot);
      checkpoints := checkpoints[height := cp];
      if height > latest { latest := height; }
    }

    /** Keeps the strictly newer of two checkpoints for a height. */
    method AddCheckpoint(cp: Checkpoint)
      requires Valid()
      modifies this
      ensures Valid() && (old(Bounded()) ==> Bounded())
      ensures cp.height in checkpoints
      ensures checkpoints.Keys == old(checkpoints).Keys + {cp.height}
      ensures forall h :: h in old(checkpoints) && h != cp.height ==> checkpoints[h] == old(checkpoints)[h]
      ensures cp.height !in old(checkpoints) ==> checkpoints[cp.height] == cp
      ensures cp.height in old(checkpoints) ==>
                var kept := old(checkpoints)[cp.height];
                checkpoints[cp.height] == if cp.timestamp > kept.timestamp then cp else kept
      ensures latest == if cp.height > old(latest) then cp.height else old(latest)
    {
      if cp.height in checkpoints {
        if cp.timestamp > checkpoints[cp.height].timestamp {
          checkpoints := checkpoints[cp.height := cp];
        }
      } else {
        checkpoints := checkpoints[cp.height := cp];
      }
      if cp.height > latest { latest := cp.height; }
    }

    /** The counter wraps and the loop never ends when `latest` is 2^64 - 1. */
    method BinaryEncode() returns (data: Bytes)
      requires latest < TWO64 - 1
      ensures data == FileBytes(checkpoints, latest)
      ensures EncoderAfter(checkpoints, latest, latest + 1) == (latest + 1, data)
    {
      data := BE(latest, 8);
      var h := 0;
      while h <= latest
        invariant 0 <= h <= latest + 1 && EncoderAfter(checkpoints, latest, h) == (h, data)
      {
        ghost var before := data;
        if h in checkpoints {
          var cp := checkpoints[h];
          data := data + BE(h, 8);
          data := data + cp.rawHash;
          data := data + BE(|cp.stateRoot|, 2);
          data := data + cp.stateRoot;
          assert data == before + RecordBytes(h, cp);
        } else {
          assert data == before + [];
        }
        h := h + 1;
      }
      EncoderEndsIff(checkpoints, latest);
    }

    method BinaryDecode(data: Bytes) returns (ok: bool)
      modifies this
      ensures ok <==> |data| >= 8
      ensures !ok ==> checkpoints == old(checkpoints) && latest == old(latest)
      ensures ok ==> latest == Uint64(data[..8]) && checkpoints == DecodeRecords(data[8..], old(checkpoints))
      ensures old(Valid()) ==> Valid()
    {
      if |data| < 8 { return false; }
      if Valid() { DecodedOwnHeights(data[8..], checkpoints); }
      latest := Uint64(data[..8]);
      var offset := 8;
      while offset < |data|
        invariant 8 <= offset <= |data|
        invariant DecodeRecords(data[offset..], checkpoints) == DecodeRecords(data[8..], old(checkpoints))
        invariant latest == Uint64(data[..8])
        decreases |data| - offset
      {
        ghost var rest := data[offset..];
        ghost var start := offset;
        if offset + 10 > |data| { return true; }
        assert data[offset..offset + 8] == rest[..8];
        var height := Uint64(data[offset..offset + 8]);
        offset := offset + 8;
        if offset + HASH_LEN > |data| { return true; }
        var blockHash := data[offset..offset + HASH_LEN];
        assert blockHash == rest[8..40];
        offset := offset + HASH_LEN;
        if offset + 2 > |data| { return true; }
        var stateLen := FromBE(data[offset..offset + 2]);
        assert data[offset..offset + 2] == rest[40..42];
        offset := offset + 2;
        if offset + stateLen > |data| { return true; }
        var stateRoot := data[offset..offset + stateLen];
        assert stateRoot == rest[42..42 + stateLen];
        offset := offset + stateLen;
        assert data[offset..] == rest[42 + stateLen..];
        checkpoints := checkpoints[height := Restored(height, blockHash, stateRoot)];
      }
      return true;
    }
  }

  /** Hashes of 32 bytes and state roots whose length fits 16 bits. */
  ghost predicate Encodable(m: Table) {
    forall h :: h in m ==> |m[h].rawHash| == HASH_LEN && |m[h].stateRoot| < 65536
  }

  lemma Slices(a: Bytes, b: Bytes, c: Bytes, d: Bytes, rest: Bytes)
    requires |a| == 8 && |b| == 32 && |c| == 2
    ensures var s := a + b + c + d + rest;
            && s[..8] == a && s[8..40] == b && s[40..42] == c
            && s[42..42 + |d|] == d && s[42 + |d|..] == rest
  {
  }

  lemma WordRoundTrip(h: u64, len: nat)
    requires len < 65536
    ensures Uint64(BE(h, 8)) == h && FromBE(BE(len, 2)) == len
  {
    BEValue(h, 8);
    BEValue(len, 2);
    Pow256Widths();
  }

  lemma DecodeOne(h: u64, cp: Checkpoint, rest: Bytes, m: Table)
    requires |cp.rawHash| == HASH_LEN && |cp.stateRoot| < 65536
    ensures DecodeRecords(RecordBytes(h, cp) + rest, m) ==
            DecodeRecords(rest, m[h := Restored(h, cp.rawHash, cp.stateRoot)])
  {
    Slices(BE(h, 8), cp.rawHash, BE(|cp.stateRoot|, 2), cp.stateRoot, rest);
    WordRoundTrip(h, |cp.stateRoot|);
  }

  /** What decoding restores: every height up to `latest`, its hash and its state root. */
  ghost function RestoredTable(m: Table, from: nat, latest: u64): Table {
    map h | h in m && from <= h <= latest :: Restored(h, m[h].rawHash, m[h].stateRoot)
  }

  lemma RestoredStep(m: Table, h: u64, latest: u64, into: Table)
    requires h <= latest
    ensures h in m ==> into[h := Restored(h, m[h].rawHash, m[h].stateRoot)] + RestoredTable(m, h + 1, latest)
                       == into + RestoredTable(m, h, latest)
    ensures h !in m ==> RestoredTable(m, h + 1, latest) == RestoredTable(m, h, latest)
  {
  }

  lemma {:induction false} DecodeEncoded(m: Table, h: nat, latest: u64, into: Table)
    requires Encodable(m)
    ensures DecodeRecords(EncodeFrom(m, h, latest), into) == into + RestoredTable(m, h, latest)
    decreases latest + 1 - h
  {
    if h > latest {
      assert RestoredTable(m, h, latest) == map[];
    } else {
      var rest := EncodeFrom(m, h + 1, latest);
      RestoredStep(m, h, latest, into);
      if h in m {
        assert EncodeFrom(m, h, latest) == RecordBytes(h, m[h]) + rest;
        DecodeOne(h, m[h], rest, into);
        DecodeEncoded(m, h + 1, latest, into[h := Restored(h, m[h].rawHash, m[h].stateRoot)]);
      } else {
        assert EncodeFrom(m, h, latest) == rest;
        DecodeEncoded(m, h + 1, latest, into);
      }
    }
  }

  /** Whatever the bytes, decoding yields 32-byte hashes and state roots under 65536 bytes. */
  lemma {:induction false} DecodedIsEncodable(data: Bytes, m: Table)
    requires Encodable(m)
    ensures Encodable(DecodeRecords(data, m))
    decreases |data|
  {
    if |data| >= 42 {
      var h, len := Uint64(data[..8]), FromBE(data[40..42]);
      FromBEBound(data[40..42]);
      Pow256Widths();
      if |data| >= 42 + len {
        DecodedIsEncodable(data[42 + len..], m[h := Restored(h, data[8..40], data[42..42 + len])]);
      }
    }
  }

  ghost function FileBytes(m: Table, latest: u64): Bytes {
    BE(latest, 8) + EncodeFrom(m, 0, latest)
  }

  lemma FileParts(m: Table, latest: u64)
    ensures var data := FileBytes(m, latest);
            |data| >= 8 && Uint64(data[..8]) == latest && data[8..] == EncodeFrom(m, 0, latest)
  {
    assert FileBytes(m, latest)[..8] == BE(latest, 8);
    WordRoundTrip(latest, 0);
  }

  /** Every entry as a file would give it back: the time of creation is not stored. */
  ghost function Reloaded(m: Table): Table { map h | h in m :: Restored(h, m[h].rawHash, m[h].stateRoot) }

  ghost predicate UpTo(m: Table, latest: u64) { forall h :: h in m ==> h <= latest }

  /** Encoding a table and decoding it into an empty system restores `latest`, and restores every height with its hash
      and state root if and only if each entry has a 32-byte hash and a state root whose length fits 16 bits, and no
      height is above `latest`. */
  lemma CheckpointRoundTrip(m: Table, latest: u64)
    ensures var data := FileBytes(m, latest);
            && |data| >= 8
            && Uint64(data[..8]) == latest
            && (DecodeRecords(data[8..], map[]) == Reloaded(m) <==> Encodable(m) && UpTo(m, latest))
  {
    FileParts(m, latest);
    var records := EncodeFrom(m, 0, latest);
    if Encodable(m) {
      DecodeEncoded(m, 0, latest, map[]);
      assert map[] + RestoredTable(m, 0, latest) == RestoredTable(m, 0, latest);
      RestoredIsReloadedIff(m, latest);
    } else if DecodeRecords(records, map[]) == Reloaded(m) {
      DecodedIsEncodable(records, map[]);
      ReloadedEncodable(m);
      assert false;
    }
  }

  lemma RestoredIsReloadedIff(m: Table, latest: u64)
    ensures RestoredTable(m, 0, latest) == Reloaded(m) <==> UpTo(m, latest)
  {
    if RestoredTable(m, 0, latest) == Reloaded(m) {
      forall h | h in m ensures h <= latest { assert h in Reloaded(m); }
    }
  }

  lemma ReloadedEncodable(m: Table)
    ensures Encodable(Reloaded(m)) <==> Encodable(m)
  {
    forall h | h in m ensures Reloaded(m)[h].rawHash == m[h].rawHash && Reloaded(m)[h].stateRoot == m[h].stateRoot {}
  }

  /** Two tables that agree at every height on height, hash and state root. */
  ghost predicate Agree(m: Table, n: Table) {
    && m.Keys == n.Keys
    && forall h :: h in m ==> && m[h].height == n[h].height
                              && m[h].rawHash == n[h].rawHash
                              && m[h].stateRoot == n[h].stateRoot
  }

  /** What a valid system saves agrees with what an empty one loads, under the same condition. */
  lemma SavedIsLoaded(m: Table, latest: u64)
    requires OwnHeights(m)
    ensures var data := FileBytes(m, latest);
            |data| >= 8 && Uint64(data[..8]) == latest
    ensures var loaded := DecodeRecords(FileBytes(m, latest)[8..], map[]);
            OwnHeights(loaded) && (Agree(loaded, m) <==> Encodable(m) && UpTo(m, latest))
  {
    FileParts(m, latest);
    CheckpointRoundTrip(m, latest);
    var loaded := DecodeRecords(FileBytes(m, latest)[8..], map[]);
    DecodedOwnHeights(FileBytes(m, latest)[8..], map[]);
    if Agree(loaded, m) {
      DecodedIsEncodable(FileBytes(m, latest)[8..], map[]);
      AgreeEncodable(loaded, m);
      DecodeEncoded(m, 0, latest, map[]);
      assert loaded == map[] + RestoredTable(m, 0, latest);
      forall h | h in m ensures h <= latest { assert h in loaded; }
    }
  }

  lemma AgreeEncodable(m: Table, n: Table)
    requires Agree(m, n) && Encodable(m)
    ensures Encodable(n)
  {
    forall h | h in n ensures |n[h].rawHash| == HASH_LEN && |n[h].stateRoot| < 65536 { assert h in m.Keys; }
  }

  // ----- where it goes wrong -----

  /** A checkpoint with a 31-byte hash is not what is loaded. */
  lemma ShortHashIsLost(cp: Checkpoint)
    requires cp.height == 0 && |cp.rawHash| == 31
    ensures var data := FileBytes(map[0 := cp], 0);
            |data| >= 8 && DecodeRecords(data[8..], map[]) != Reloaded(map[0 := cp])
  {
    var m: Table := map[0 := cp];
    CheckpointRoundTrip(m, 0);
    assert 0 in m && !Encodable(m);
  }

  /** A system at height `high` loads the file an older one saved at height `low`: it keeps its own checkpoint but takes
      the older height, and what it saves in turn has lost the checkpoint. */
  method OlderFileLosesLater(low: u64, high: u64, lowHash: Bytes, highHash: Bytes, root: Bytes, now: int)
    returns (system: CheckpointSystem, reloaded: CheckpointSystem)
    requires low < high && |lowHash| == |highHash| == HASH_LEN && |root| < 65536
    ensures system.checkpoints.Keys == {low, high} && system.latest == low
    ensures reloaded.checkpoints.Keys == {low} && reloaded.latest == low
  {
    var older := SystemAt(low, lowHash, root, now);
    var file := older.BinaryEncode();
    system := SystemAt(high, highHash, root, now);
    OlderFile(low, high, older.checkpoints, system.checkpoints);
    var ok := system.BinaryDecode(file);
    var resaved := system.BinaryEncode();
    reloaded := SystemFrom(resaved);
  }

  method SystemAt(height: u64, hash: Bytes, root: Bytes, now: int) returns (system: CheckpointSystem)
    ensures fresh(system) && system.latest == height
    ensures system.checkpoints == map[height := Checkpoint(height, Hex.Encode(hash), hash, now, root)]
  {
    system := new CheckpointSystem(1);
    var cp := system.CreateCheckpoint(height, hash, root, now);
  }

  method SystemFrom(data: Bytes) returns (system: CheckpointSystem)
    requires |data| >= 8
    ensures fresh(system) && system.latest == Uint64(data[..8]) && system.checkpoints == DecodeRecords(data[8..], map[])
  {
    system := new CheckpointSystem(1);
    var ok := system.BinaryDecode(data);
  }

  lemma OlderFile(low: u64, high: u64, older: Table, own: Table)
    requires low < high && older.Keys == {low} && own.Keys == {high} && Encodable(older) && Encodable(own)
    ensures var file := FileBytes(older, low);
            && |file| >= 8 && Uint64(file[..8]) == low
            && var both := DecodeRecords(file[8..], own);
               var resaved := FileBytes(both, low);
               && both.Keys == {low, high}
               && |resaved| >= 8 && Uint64(resaved[..8]) == low && DecodeRecords(resaved[8..], map[]).Keys == {low}
  {
    Loads(older, low, own);
    Loads(DecodeRecords(FileBytes(older, low)[8..], own), low, map[]);
  }

  /** Loading the file of an encodable table adds its heights up to `latest`. */
  lemma Loads(m: Table, latest: u64, into: Table)
    requires Encodable(m)
    ensures |FileBytes(m, latest)| >= 8 && Uint64(FileBytes(m, latest)[..8]) == latest
    ensures var loaded := DecodeRecords(FileBytes(m, latest)[8..], into);
            loaded.Keys == into.Keys + set h | h in m && h <= latest
    ensures Encodable(into) ==> Encodable(DecodeRecords(FileBytes(m, latest)[8..], into))
  {
    FileParts(m, latest);
    DecodeEncoded(m, 0, latest, into);
    if Encodable(into) { DecodedIsEncodable(FileBytes(m, latest)[8..], into); }
  }

  /** The table of that system satisfies everything but the bound on its heights. */
  lemma OlderFileTable(low: u64, high: u64, m: Table)
    requires low < high && high in m && OwnHeights(m) && Encodable(m)
    ensures |FileBytes(m, low)| >= 8 && DecodeRecords(FileBytes(m, low)[8..], map[]) != Reloaded(m)
  {
    CheckpointRoundTrip(m, low);
  }

  // ----- termination of the encoder -----

  /** One turn of the encoder's loop, with its uint64 counter; past `latest` the loop has ended. */
  function EncoderTurn(m: Table, latest: u64, at: (u64, Bytes)): (u64, Bytes) {
    var (h, data) := at;
    if h > latest then at else (AddU64(h, 1), data + if h in m then RecordBytes(h, m[h]) else [])
  }

  function EncoderAfter(m: Table, latest: u64, k: nat): (u64, Bytes) {
    if k == 0 then (0, BE(latest, 8)) else EncoderTurn(m, latest, EncoderAfter(m, latest, k - 1))
  }

  /** The counter counts the turns as long as it does not wrap. */
  lemma {:induction false} EncoderCounts(m: Table, latest: u64, k: nat)
    ensures k <= latest + 1 && k < TWO64 ==>
              && EncoderAfter(m, latest, k).0 == k
              && EncoderAfter(m, latest, k).1 + EncodeFrom(m, k, latest) == FileBytes(m, latest)
    ensures latest == TWO64 - 1 ==> EncoderAfter(m, latest, k).0 <= latest
  {
    if k > 0 {
      EncoderCounts(m, latest, k - 1);
      if k <= latest + 1 && k < TWO64 {
        var one := if k - 1 in m then RecordBytes(k - 1, m[k - 1]) else [];
        ConcatAssociative(EncoderAfter(m, latest, k - 1).1, one, EncodeFrom(m, k, latest));
      }
    }
  }

  /** The loop over the heights ends if and only if `latest` is not the last uint64; then with the bytes of the file. */
  lemma EncoderEndsIff(m: Table, latest: u64)
    ensures (exists k :: EncoderAfter(m, latest, k).0 > latest) <==> latest < TWO64 - 1
    ensures latest < TWO64 - 1 ==> EncoderAfter(m, latest, latest + 1) == (latest + 1, FileBytes(m, latest))
  {
    EncoderCounts(m, latest, latest + 1);
    if latest < TWO64 - 1 {
      assert EncodeFrom(m, latest + 1, latest) == [];
      assert EncoderAfter(m, latest, latest + 1).1 + [] == EncoderAfter(m, latest, latest + 1).1;
      assert EncoderAfter(m, latest, latest + 1).0 > latest;
    } else {
      forall k: nat ensures EncoderAfter(m, latest, k).0 <= latest { EncoderCounts(m, latest, k); }
    }
  }
}

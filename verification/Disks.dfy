/** What the bolt store holds: every block by hash, and the hashes of the canonical chain by height. */
module Disks {
  import opened Words
  import opened Types
  import opened BlockTree
  import opened Indexes

  function Hashes(blocks: seq<Block>): seq<Bytes> {
    seq(|blocks|, i requires 0 <= i < |blocks| => blocks[i].hash)
  }

  predicate AllHashed(blocks: seq<Block>) { forall i :: 0 <= i < |blocks| ==> |blocks[i].hash| > 0 }

  /** A block already stored under its hash is left as it is. */
  function Put(all: Store, b: Block): Store {
    if b.hash in all then all else all[b.hash := b]
  }

  function PutAll(all: Store, blocks: seq<Block>): Store {
    if blocks == [] then all else Put(PutAll(all, blocks[..|blocks| - 1]), blocks[|blocks| - 1])
  }

  /** `canonical[h]` is the entry under height `h`; `all` is the bucket of blocks. Writes and reads give `None` when
      the store refuses them. */
  datatype Disk = Disk(canonical: seq<Bytes>, all: Store) {
    function PutBlock(b: Block): Option<Disk> {
      if |b.hash| == 0 then None else Some(this.(all := Put(all, b)))
    }

    /** The entry below the block's height is its parent. */
    predicate Links(b: Block) {
      b.height > 0 ==> b.height - 1 < |canonical| && canonical[b.height - 1] == b.prevHash
    }

    function AppendCanonical(b: Block): Option<Disk> {
      if |b.hash| == 0 || !Links(b) then None
      else
        var keys := if b.height < |canonical| then canonical[b.height := b.hash] else canonical + [b.hash];
        Some(Disk(keys, Put(all, b)))
    }

    function RewriteCanonical(blocks: seq<Block>): Option<Disk> {
      if AllHashed(blocks) then Some(Disk(Hashes(blocks), PutAll(all, blocks))) else None
    }

    /** The canonical blocks in order of height, unless one is missing from the bucket of blocks. */
    function ReadCanonical(): Option<seq<Block>> {
      if forall i :: 0 <= i < |canonical| ==> canonical[i] in all
      then Some(seq(|canonical|, i requires 0 <= i < |canonical| => all[canonical[i]]))
      else None
    }
  }

  /** The store object. Each write is one transaction: `ioOk` says whether it commits, and a refused or failed
      one leaves everything as it was. */
  class BoltStore {
    var canonical: seq<Bytes>
    var all: Store

    ghost function Contents(): Disk
      reads this
    {
      Disk(canonical, all)
    }

    constructor (d: Disk)
      ensures Contents() == d
    {
      canonical, all := d.canonical, d.all;
    }

    method PutBlock(b: Block, ioOk: bool) returns (ok: bool)
      modifies this
      ensures ok == (ioOk && old(Contents()).PutBlock(b).Some?)
      ensures Contents() == if ok then old(Contents()).PutBlock(b).value else old(Contents())
    {
      if |b.hash| == 0 || !ioOk { return false; }
      if b.hash !in all { all := all[b.hash := b]; }
      return true;
    }

    method AppendCanonical(b: Block, ioOk: bool) returns (ok: bool)
      modifies this
      ensures ok == (ioOk && old(Contents()).AppendCanonical(b).Some?)
      ensures Contents() == if ok then old(Contents()).AppendCanonical(b).value else old(Contents())
    {
      if |b.hash| == 0 { return false; }
      if b.height > 0 {
        if b.height - 1 >= |canonical| { return false; }
        if canonical[b.height - 1] != b.prevHash { return false; }
      }
      if !ioOk { return false; }
      if b.hash !in all { all := all[b.hash := b]; }
      canonical := if b.height < |canonical| then canonical[b.height := b.hash] else canonical + [b.hash];
      return true;
    }

    /** The old entries go and the new chain is written block by block; a chain is numbered from zero. */
    method RewriteCanonical(blocks: seq<Block>, ioOk: bool) returns (ok: bool)
      requires AtHeights(blocks)
      modifies this
      ensures ok == (ioOk && old(Contents()).RewriteCanonical(blocks).Some?)
      ensures Contents() == if ok then old(Contents()).RewriteCanonical(blocks).value else old(Contents())
    {
      var keys: seq<Bytes> := [];
      var written := all;
      for i := 0 to |blocks|
        invariant AllHashed(blocks[..i]) && keys == Hashes(blocks[..i]) && written == PutAll(old(all), blocks[..i])
        invariant Contents() == old(Contents())
      {
        if |blocks[i].hash| == 0 { return false; }
        NextWritten(old(all), blocks, i);
        if blocks[i].hash !in written { written := written[blocks[i].hash := blocks[i]]; }
        keys := keys + [blocks[i].hash];
      }
      assert blocks[..|blocks|] == blocks;
      if !ioOk { return false; }
      canonical, all := keys, written;
      return true;
    }

    method ReadCanonical() returns (blocks: Option<seq<Block>>)
      ensures blocks == Contents().ReadCanonical()
    {
      var out: seq<Block> := [];
      for i := 0 to |canonical|
        invariant |out| == i && forall k :: 0 <= k < i ==> canonical[k] in all && out[k] == all[canonical[k]]
      {
        if canonical[i] !in all { return None; }
        out := out + [all[canonical[i]]];
      }
      assert out == Contents().ReadCanonical().value;
      return Some(out);
    }
  }

  lemma NextWritten(all: Store, blocks: seq<Block>, i: nat)
    requires i < |blocks|
    ensures PutAll(all, blocks[..i + 1]) == Put(PutAll(all, blocks[..i]), blocks[i])
    ensures Hashes(blocks[..i + 1]) == Hashes(blocks[..i]) + [blocks[i].hash]
  {
    var upTo := blocks[..i + 1];
    assert upTo[..|upTo| - 1] == blocks[..i] && upTo[|upTo| - 1] == blocks[i];
  }

  // ----- a chain on disk -----

  /** Blocks already in the bucket leave it as it is. */
  lemma {:induction false} PuttingStored(all: Store, blocks: seq<Block>)
    requires forall i :: 0 <= i < |blocks| ==> blocks[i].hash in all
    ensures PutAll(all, blocks) == all
  {
    if blocks != [] {
      var n := |blocks| - 1;
      assert blocks[n].hash in all;
      PuttingStored(all, blocks[..n]);
    }
  }

  /** What was written is what is read. */
  lemma ReadsBack(d: Disk, blocks: seq<Block>)
    requires d.canonical == Hashes(blocks)
    requires forall i :: 0 <= i < |blocks| ==> blocks[i].hash in d.all && d.all[blocks[i].hash] == blocks[i]
    ensures d.ReadCanonical() == Some(blocks)
  {
    forall i | 0 <= i < |d.canonical| ensures d.canonical[i] in d.all && d.all[d.canonical[i]] == blocks[i] {
      assert d.canonical[i] == blocks[i].hash;
    }
    assert d.ReadCanonical().value == blocks;
  }
}

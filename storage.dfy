/** The key-value store the chain persists to: blocks under their hashes, plus the
    head pointer kept under the key "lh". */
module Storage {
  import opened Primitives
  import opened Blocks

  class Store {
    /** The blocks, keyed by their 32-byte hashes. */
    var blocks: map<Bytes, Block>
    /** The value under the two-byte key "lh", kept apart so that it cannot clash with a
        block key; None until a chain is persisted. */
    var lastHash: Option<Bytes>

    /** A store that has just been created on disk: no blocks and no head. */
    constructor ()
      ensures blocks == map[] && lastHash == None
    {
      blocks := map[];
      lastHash := None;
    }
  }

  /** `chain` is what a walk from key `h` reads: the block stored under `h`, then the block
      under its previous hash, and so on, ending with the first block whose previous hash
      is empty. */
  ghost predicate IsWalk(blocks: map<Bytes, Block>, h: Bytes, chain: seq<Block>)
    decreases |chain|
  {
    |chain| > 0 && h in blocks && blocks[h] == chain[0] &&
    if chain[0].prevHash == [] then |chain| == 1
    else IsWalk(blocks, chain[0].prevHash, chain[1..])
  }

  /** A walk is determined by its starting key. */
  lemma {:induction false} WalkUnique(blocks: map<Bytes, Block>, h: Bytes, a: seq<Block>, b: seq<Block>)
    requires IsWalk(blocks, h, a) && IsWalk(blocks, h, b)
    ensures a == b
    decreases |a|
  {
    if a[0].prevHash != [] {
      WalkUnique(blocks, a[0].prevHash, a[1..], b[1..]);
    }
  }

  /** Only the last block of a walk has an empty previous hash, and each block's previous
      hash is the key of the next one. */
  lemma {:induction false} WalkShape(blocks: map<Bytes, Block>, h: Bytes, chain: seq<Block>)
    requires IsWalk(blocks, h, chain)
    ensures chain[|chain| - 1].prevHash == []
    ensures forall i :: 0 <= i < |chain| - 1 ==>
              chain[i].prevHash != [] && chain[i].prevHash in blocks && blocks[chain[i].prevHash] == chain[i + 1]
    decreases |chain|
  {
    if chain[0].prevHash != [] {
      WalkShape(blocks, chain[0].prevHash, chain[1..]);
    }
  }

  /** Storing a block under a key the walk does not use leaves the walk as it was. */
  lemma {:induction false} WalkFrame(blocks: map<Bytes, Block>, h: Bytes, chain: seq<Block>, k: Bytes, b: Block)
    requires IsWalk(blocks, h, chain) && k !in blocks
    ensures IsWalk(blocks[k := b], h, chain)
    decreases |chain|
  {
    if chain[0].prevHash != [] {
      WalkFrame(blocks, chain[0].prevHash, chain[1..], k, b);
    }
  }

  /** A new block over the current head, stored under a fresh key, extends the walk by one
      block at the front. */
  lemma WalkExtend(blocks: map<Bytes, Block>, h: Bytes, chain: seq<Block>, k: Bytes, b: Block)
    requires IsWalk(blocks, h, chain) && k !in blocks && h != [] && b.prevHash == h
    ensures IsWalk(blocks[k := b], k, [b] + chain)
  {
    WalkFrame(blocks, h, chain, k, b);
    assert ([b] + chain)[1..] == chain;
  }
}

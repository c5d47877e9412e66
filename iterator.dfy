/** A cursor that walks the stored chain from a block back along previous hashes. */
module Iteration {
  import opened Primitives
  import opened Blocks
  import opened Storage

  class BlockChainIterator {
    var currentHash: Bytes
    const db: Store

    constructor (currentHash: Bytes, db: Store)
      ensures this.currentHash == currentHash && this.db == db
    {
      this.currentHash := currentHash;
      this.db := db;
    }

    /** Read the block stored under the cursor and move the cursor to its previous hash.
        A key missing from the store is an error and leaves the cursor where it was. The
        store is only read. */
    method Next() returns (r: Result<Block>)
      modifies this
      ensures old(currentHash) in db.blocks ==> r == Ok(db.blocks[old(currentHash)])
      ensures old(currentHash) !in db.blocks ==> r == Err(NotFound)
      ensures r.Ok? ==> currentHash == r.value.prevHash
      ensures r.Err? ==> currentHash == old(currentHash)
    {
      if currentHash !in db.blocks {
        return Err(NotFound);
      }
      var block := db.blocks[currentHash];
      currentHash := block.prevHash;
      return Ok(block);
    }

    /** Along a walk, `Next` yields its first block and leaves the cursor on the rest of
        the walk, or on the empty previous hash of the last block. */
    lemma NextOnWalk(chain: seq<Block>)
      requires IsWalk(db.blocks, currentHash, chain)
      ensures currentHash in db.blocks && db.blocks[currentHash] == chain[0]
      ensures chain[0].prevHash == [] <==> |chain| == 1
      ensures |chain| > 1 ==> IsWalk(db.blocks, chain[0].prevHash, chain[1..])
    {
    }
  }
}

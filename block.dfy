/** Blocks and the digest of their transaction list. */
module Blocks {
  import opened Primitives
  import opened Sequences
  import opened Transactions

  datatype Block = Block(hash: Bytes, transactions: seq<Transaction>, prevHash: Bytes, nonce: int64)

  /** The transaction IDs joined in list order with no separator. */
  function JoinIds(txs: seq<Transaction>): Bytes
  {
    if txs == [] then [] else JoinIds(txs[..|txs| - 1]) + txs[|txs| - 1].id
  }

  /** Joining distributes over concatenation of transaction lists. */
  lemma {:induction false} JoinIdsAppend(a: seq<Transaction>, b: seq<Transaction>)
    ensures JoinIds(a + b) == JoinIds(a) + JoinIds(b)
    decreases |b|
  {
    if b == [] {
      AppendEmpty(a);
    } else {
      var b' := b[..|b| - 1];
      AppendFront(a, b);
      JoinIdsAppend(a, b');
      AppendAssoc(JoinIds(a), JoinIds(b'), b[|b| - 1].id);
    }
  }

  /** With 32-byte IDs the joined bytes are exactly the IDs back to back, in order:
      the k-th 32-byte slice is the k-th transaction's ID. */
  lemma {:induction false} JoinIdsFixedWidth(txs: seq<Transaction>)
    requires forall i :: 0 <= i < |txs| ==> |txs[i].id| == 32
    ensures |JoinIds(txs)| == 32 * |txs|
    ensures forall k :: 0 <= k < |txs| ==> JoinIds(txs)[32 * k..32 * k + 32] == txs[k].id
  {
    if txs != [] {
      var n := |txs| - 1;
      var front := txs[..n];
      JoinIdsFixedWidth(front);
      var j := JoinIds(txs);
      assert j == JoinIds(front) + txs[n].id;
      forall k | 0 <= k < |txs|
        ensures j[32 * k..32 * k + 32] == txs[k].id
      {
        if k < n {
          assert j[32 * k..32 * k + 32] == JoinIds(front)[32 * k..32 * k + 32];
        } else {
          assert j[32 * k..32 * k + 32] == txs[n].id;
        }
      }
    }
  }

  /** SHA-256 of the joined transaction IDs. */
  function HashTransactions(c: Crypto, b: Block): Digest
  {
    c.sha256(JoinIds(b.transactions))
  }

  /** The transaction digest depends on the transaction list only, not on the block's
      hash, previous hash or nonce. */
  lemma HashTransactionsOnlyTransactions(c: Crypto, b: Block, b': Block)
    requires b.transactions == b'.transactions
    ensures HashTransactions(c, b) == HashTransactions(c, b')
  {
  }
}

/** What the chain queries compute, as functions of the walked blocks: the scan for
    unspent transactions with its record of spent outputs, the outputs locked to a key,
    the greedy selection of spendable outputs and the lookup of a transaction by ID. */
module Resolver {
  import opened Primitives
  import opened Sequences
  import opened Tx
  import opened Transactions
  import opened Blocks

  /** The transactions of the walked blocks, newest block first, each block's in list order. */
  function AllTxs(chain: seq<Block>): seq<Transaction>
  {
    if chain == [] then [] else AllTxs(chain[..|chain| - 1]) + chain[|chain| - 1].transactions
  }

  lemma {:induction false} AllTxsAppend(a: seq<Block>, b: seq<Block>)
    ensures AllTxs(a + b) == AllTxs(a) + AllTxs(b)
    decreases |b|
  {
    if b == [] {
      AppendEmpty(a);
    } else {
      var b' := b[..|b| - 1];
      AppendFront(a, b);
      AllTxsAppend(a, b');
      AppendAssoc(AllTxs(a), AllTxs(b'), b[|b| - 1].transactions);
    }
  }

  /** Walking one more block appends its transactions. */
  lemma AllTxsSnoc(chain: seq<Block>, k: nat)
    requires k < |chain|
    ensures AllTxs(chain[..k + 1]) == AllTxs(chain[..k]) + chain[k].transactions
  {
    assert chain[..k + 1][..k] == chain[..k];
  }

  // ---------------------------------------------------------------------------------------
  // The scan of FindUnspentTransactions
  // ---------------------------------------------------------------------------------------

  /** Output indices recorded as spent, per transaction ID, in the order they were found. */
  type Spent = map<Bytes, seq<int>>

  datatype ScanState = ScanState(unspent: seq<Transaction>, spent: Spent)

  predicate IsSpent(spent: Spent, id: Bytes, index: int)
  {
    id in spent && index in spent[id]
  }

  /** The indices below k of the transaction's outputs that are not recorded as spent and
      are locked to the key, in increasing order. */
  function UnspentIndices(spent: Spent, tx: Transaction, pubKeyHash: Bytes, k: nat): seq<nat>
    requires k <= |tx.outputs|
  {
    if k == 0 then []
    else
      var front := UnspentIndices(spent, tx, pubKeyHash, k - 1);
      if !IsSpent(spent, tx.id, k - 1) && IsLockedWithKey(tx.outputs[k - 1], pubKeyHash)
      then front + [k - 1] else front
  }

  /** The indices listed are below k, increasing, and exactly those of the unspent outputs
      locked to the key. */
  lemma {:induction false} UnspentIndicesMeaning(spent: Spent, tx: Transaction, pubKeyHash: Bytes, k: nat)
    requires k <= |tx.outputs|
    ensures var r := UnspentIndices(spent, tx, pubKeyHash, k);
            (forall j :: 0 <= j < |r| ==> r[j] < k) &&
            (forall i :: 0 <= i < k ==>
               (i in r <==> !IsSpent(spent, tx.id, i) && IsLockedWithKey(tx.outputs[i], pubKeyHash))) &&
            (forall j, j' :: 0 <= j < j' < |r| ==> r[j] < r[j'])
  {
    if k > 0 {
      UnspentIndicesMeaning(spent, tx, pubKeyHash, k - 1);
    }
  }

  /** n references to the same transaction. */
  function Copies(tx: Transaction, n: nat): (r: seq<Transaction>)
    ensures |r| == n && forall i :: 0 <= i < n ==> r[i] == tx
  {
    seq(n, _ => tx)
  }

  function IndicesOf(spent: Spent, id: Bytes): seq<int>
  {
    if id in spent then spent[id] else []
  }

  /** Record the outputs spent by those of the inputs whose public key hashes to the key. */
  function RecordInputs(c: Crypto, pubKeyHash: Bytes, spent: Spent, inputs: seq<TxInput>): Spent
  {
    if inputs == [] then spent
    else
      var s := RecordInputs(c, pubKeyHash, spent, inputs[..|inputs| - 1]);
      var input := inputs[|inputs| - 1];
      if UsesKey(c, input, pubKeyHash) then s[input.id := IndicesOf(s, input.id) + [input.out]] else s
  }

  /** One of the inputs uses the key and refers to output `index` of transaction `id`. */
  predicate SpendsWithKey(c: Crypto, pubKeyHash: Bytes, inputs: seq<TxInput>, id: Bytes, index: int)
  {
    exists j :: 0 <= j < |inputs| && UsesKey(c, inputs[j], pubKeyHash) && inputs[j].id == id && inputs[j].out == index
  }

  lemma SpendsWithKeySnoc(c: Crypto, pubKeyHash: Bytes, inputs: seq<TxInput>, id: Bytes, index: int)
    requires inputs != []
    ensures var n := |inputs| - 1;
            SpendsWithKey(c, pubKeyHash, inputs, id, index) <==>
              SpendsWithKey(c, pubKeyHash, inputs[..n], id, index) ||
              (UsesKey(c, inputs[n], pubKeyHash) && inputs[n].id == id && inputs[n].out == index)
  {
    var n := |inputs| - 1;
    if SpendsWithKey(c, pubKeyHash, inputs[..n], id, index) {
      var j :| 0 <= j < n && UsesKey(c, inputs[..n][j], pubKeyHash) && inputs[..n][j].id == id && inputs[..n][j].out == index;
      assert inputs[j] == inputs[..n][j];
    }
    if SpendsWithKey(c, pubKeyHash, inputs, id, index) {
      var j :| 0 <= j < |inputs| && UsesKey(c, inputs[j], pubKeyHash) && inputs[j].id == id && inputs[j].out == index;
      if j < n {
        assert inputs[..n][j] == inputs[j];
      }
    }
  }

  /** Recording one more spent index adds exactly that output to the spent ones. */
  lemma RecordOne(spent: Spent, id': Bytes, out: int, id: Bytes, index: int)
    ensures IsSpent(spent[id' := IndicesOf(spent, id') + [out]], id, index) <==>
              IsSpent(spent, id, index) || (id' == id && out == index)
  {
  }

  /** After recording, an output counts as spent iff it already did or one of the inputs
      that use the key refers to it. */
  lemma {:induction false} RecordInputsSpent(c: Crypto, pubKeyHash: Bytes, spent: Spent, inputs: seq<TxInput>, id: Bytes, index: int)
    ensures IsSpent(RecordInputs(c, pubKeyHash, spent, inputs), id, index) <==>
              IsSpent(spent, id, index) || SpendsWithKey(c, pubKeyHash, inputs, id, index)
  {
    if inputs != [] {
      var n := |inputs| - 1;
      var s := RecordInputs(c, pubKeyHash, spent, inputs[..n]);
      RecordInputsSpent(c, pubKeyHash, spent, inputs[..n], id, index);
      SpendsWithKeySnoc(c, pubKeyHash, inputs, id, index);
      RecordOne(s, inputs[n].id, inputs[n].out, id, index);
    }
  }

  /** One transaction of the scan: append it once per unspent output locked to the key;
      then, unless it is a coinbase, record the outputs its inputs spend. */
  function Step(c: Crypto, pubKeyHash: Bytes, st: ScanState, tx: Transaction): (r: ScanState)
    ensures r.unspent == st.unspent + Copies(tx, |UnspentIndices(st.spent, tx, pubKeyHash, |tx.outputs|)|)
    ensures IsCoinbase(tx) ==> r.spent == st.spent
    ensures !IsCoinbase(tx) ==> r.spent == RecordInputs(c, pubKeyHash, st.spent, tx.inputs)
  {
    var found := st.unspent + Copies(tx, |UnspentIndices(st.spent, tx, pubKeyHash, |tx.outputs|)|);
    ScanState(found, if IsCoinbase(tx) then st.spent else RecordInputs(c, pubKeyHash, st.spent, tx.inputs))
  }

  /** The scan over transactions in walk order, starting with nothing found and nothing spent. */
  function Scan(c: Crypto, pubKeyHash: Bytes, txs: seq<Transaction>): ScanState
  {
    if txs == [] then ScanState([], map[])
    else Step(c, pubKeyHash, Scan(c, pubKeyHash, txs[..|txs| - 1]), txs[|txs| - 1])
  }

  lemma ScanSnoc(c: Crypto, pubKeyHash: Bytes, txs: seq<Transaction>, tx: Transaction)
    ensures Scan(c, pubKeyHash, txs + [tx]) == Step(c, pubKeyHash, Scan(c, pubKeyHash, txs), tx)
  {
    assert (txs + [tx])[..|txs|] == txs;
  }

  /** Every transaction the scan returns is one of the scanned transactions. */
  lemma {:induction false} ScanFindsScanned(c: Crypto, pubKeyHash: Bytes, txs: seq<Transaction>)
    ensures forall t :: t in Scan(c, pubKeyHash, txs).unspent ==> t in txs
  {
    if txs != [] {
      var front := txs[..|txs| - 1];
      ScanFindsScanned(c, pubKeyHash, front);
      var st := Scan(c, pubKeyHash, front);
      var r := Scan(c, pubKeyHash, txs);
      forall t | t in r.unspent
        ensures t in txs
      {
        var i :| 0 <= i < |r.unspent| && r.unspent[i] == t;
        if i < |st.unspent| {
          assert st.unspent[i] == t;
          assert t in front;
        } else {
          assert t == txs[|txs| - 1];
        }
      }
    }
  }

  /** FindUnspentTransactions over a walk. */
  function UnspentTransactions(c: Crypto, pubKeyHash: Bytes, chain: seq<Block>): seq<Transaction>
  {
    Scan(c, pubKeyHash, AllTxs(chain)).unspent
  }

  // ---------------------------------------------------------------------------------------
  // FindUTXO
  // ---------------------------------------------------------------------------------------

  /** The outputs locked to the key, in order. */
  function LockedOf(outs: seq<TxOutput>, pubKeyHash: Bytes): seq<TxOutput>
  {
    if outs == [] then []
    else
      var front := LockedOf(outs[..|outs| - 1], pubKeyHash);
      var o := outs[|outs| - 1];
      if IsLockedWithKey(o, pubKeyHash) then front + [o] else front
  }

  /** The outputs kept are exactly the listed outputs locked to the key. */
  lemma {:induction false} LockedOfMembers(outs: seq<TxOutput>, pubKeyHash: Bytes)
    ensures forall o :: o in LockedOf(outs, pubKeyHash) <==> o in outs && IsLockedWithKey(o, pubKeyHash)
    ensures |LockedOf(outs, pubKeyHash)| <= |outs|
  {
    if outs != [] {
      var front := outs[..|outs| - 1];
      LockedOfMembers(front, pubKeyHash);
      assert outs == front + [outs[|outs| - 1]];
    }
  }

  /** Every output locked to the key of every listed transaction, in order, with no regard
      to whether it was spent. */
  function LockedOutputs(txs: seq<Transaction>, pubKeyHash: Bytes): seq<TxOutput>
  {
    if txs == [] then []
    else LockedOutputs(txs[..|txs| - 1], pubKeyHash) + LockedOf(txs[|txs| - 1].outputs, pubKeyHash)
  }

  lemma {:induction false} LockedOutputsAppend(a: seq<Transaction>, b: seq<Transaction>, pubKeyHash: Bytes)
    ensures LockedOutputs(a + b, pubKeyHash) == LockedOutputs(a, pubKeyHash) + LockedOutputs(b, pubKeyHash)
    decreases |b|
  {
    if b == [] {
      AppendEmpty(a);
    } else {
      var b' := b[..|b| - 1];
      AppendFront(a, b);
      LockedOutputsAppend(a, b', pubKeyHash);
      AppendAssoc(LockedOutputs(a, pubKeyHash), LockedOutputs(b', pubKeyHash), LockedOf(b[|b| - 1].outputs, pubKeyHash));
    }
  }

  /** Every output listed is locked to the key and belongs to a listed transaction. */
  lemma {:induction false} LockedOutputsSound(txs: seq<Transaction>, pubKeyHash: Bytes)
    ensures forall o :: o in LockedOutputs(txs, pubKeyHash) ==>
              IsLockedWithKey(o, pubKeyHash) && exists t :: t in txs && o in t.outputs
  {
    if txs != [] {
      var front := txs[..|txs| - 1];
      LockedOutputsSound(front, pubKeyHash);
      forall o | o in LockedOutputs(txs, pubKeyHash)
        ensures IsLockedWithKey(o, pubKeyHash) && exists t :: t in txs && o in t.outputs
      {
        if o in LockedOutputs(front, pubKeyHash) {
          var t :| t in front && o in t.outputs;
          assert t in txs;
        } else {
          LockedOfMembers(txs[|txs| - 1].outputs, pubKeyHash);
          assert txs[|txs| - 1] in txs;
        }
      }
    }
  }

  /** FindUTXO over a walk: the outputs locked to the key of the unspent transactions. */
  function UnspentOutputsAsWritten(c: Crypto, pubKeyHash: Bytes, chain: seq<Block>): seq<TxOutput>
  {
    LockedOutputs(UnspentTransactions(c, pubKeyHash, chain), pubKeyHash)
  }

  /** The outputs at the given indices. */
  function OutputsAt(tx: Transaction, indices: seq<nat>): (r: seq<TxOutput>)
    requires forall j :: 0 <= j < |indices| ==> indices[j] < |tx.outputs|
    ensures |r| == |indices| && forall j :: 0 <= j < |indices| ==> r[j] == tx.outputs[indices[j]]
  {
    seq(|indices|, j requires 0 <= j < |indices| => tx.outputs[indices[j]])
  }

  /** A reference definition: each output that is locked to the key and not spent when the
      scan reaches its transaction, listed exactly once. */
  function UnspentLockedOutputs(c: Crypto, pubKeyHash: Bytes, txs: seq<Transaction>): seq<TxOutput>
  {
    if txs == [] then []
    else
      var front := txs[..|txs| - 1];
      var tx := txs[|txs| - 1];
      var idx := UnspentIndices(Scan(c, pubKeyHash, front).spent, tx, pubKeyHash, |tx.outputs|);
      UnspentIndicesMeaning(Scan(c, pubKeyHash, front).spent, tx, pubKeyHash, |tx.outputs|);
      UnspentLockedOutputs(c, pubKeyHash, front) + OutputsAt(tx, idx)
  }

  /** Output i of the t-th transaction walked is locked to the key and not spent by any
      transaction walked before it. */
  predicate UnspentAt(c: Crypto, pubKeyHash: Bytes, txs: seq<Transaction>, t: int, i: int)
  {
    0 <= t < |txs| && 0 <= i < |txs[t].outputs| && IsLockedWithKey(txs[t].outputs[i], pubKeyHash) &&
    !IsSpent(Scan(c, pubKeyHash, txs[..t]).spent, txs[t].id, i)
  }

  /** A position of the list without its last transaction is the same position of the list. */
  lemma UnspentAtFront(c: Crypto, pubKeyHash: Bytes, txs: seq<Transaction>, t: int, i: int)
    requires txs != [] && UnspentAt(c, pubKeyHash, txs[..|txs| - 1], t, i)
    ensures UnspentAt(c, pubKeyHash, txs, t, i) && txs[t] == txs[..|txs| - 1][t]
  {
    assert txs[..t] == txs[..|txs| - 1][..t];
  }

  /** Every output the reference lists sits at a position that is locked to the key and
      unspent: no spent output is counted. */
  lemma {:induction false} UnspentLockedOutputsSound(c: Crypto, pubKeyHash: Bytes, txs: seq<Transaction>)
    ensures forall o :: o in UnspentLockedOutputs(c, pubKeyHash, txs) ==>
              exists t, i :: UnspentAt(c, pubKeyHash, txs, t, i) && txs[t].outputs[i] == o
  {
    if txs != [] {
      var n := |txs| - 1;
      var front, tx := txs[..n], txs[n];
      UnspentLockedOutputsSound(c, pubKeyHash, front);
      var spent := Scan(c, pubKeyHash, front).spent;
      var idx := UnspentIndices(spent, tx, pubKeyHash, |tx.outputs|);
      UnspentIndicesMeaning(spent, tx, pubKeyHash, |tx.outputs|);
      var rest, outs := UnspentLockedOutputs(c, pubKeyHash, front), OutputsAt(tx, idx);
      assert UnspentLockedOutputs(c, pubKeyHash, txs) == rest + outs;
      forall o | o in rest + outs
        ensures exists t, i :: UnspentAt(c, pubKeyHash, txs, t, i) && txs[t].outputs[i] == o
      {
        if o in rest {
          var t, i :| UnspentAt(c, pubKeyHash, front, t, i) && front[t].outputs[i] == o;
          UnspentAtFront(c, pubKeyHash, txs, t, i);
        } else {
          var j :| 0 <= j < |outs| && outs[j] == o;
          assert txs[..n] == front;
          assert UnspentAt(c, pubKeyHash, txs, n, idx[j]);
        }
      }
    }
  }

  /** Every position that is locked to the key and unspent has its output listed: no unspent
      output is missed. */
  lemma {:induction false} UnspentLockedOutputsComplete(c: Crypto, pubKeyHash: Bytes, txs: seq<Transaction>)
    ensures forall t, i :: UnspentAt(c, pubKeyHash, txs, t, i) ==> txs[t].outputs[i] in UnspentLockedOutputs(c, pubKeyHash, txs)
  {
    if txs != [] {
      var n := |txs| - 1;
      var front, tx := txs[..n], txs[n];
      UnspentLockedOutputsComplete(c, pubKeyHash, front);
      var spent := Scan(c, pubKeyHash, front).spent;
      var idx := UnspentIndices(spent, tx, pubKeyHash, |tx.outputs|);
      UnspentIndicesMeaning(spent, tx, pubKeyHash, |tx.outputs|);
      var rest, outs := UnspentLockedOutputs(c, pubKeyHash, front), OutputsAt(tx, idx);
      assert UnspentLockedOutputs(c, pubKeyHash, txs) == rest + outs;
      forall t, i | UnspentAt(c, pubKeyHash, txs, t, i)
        ensures txs[t].outputs[i] in rest + outs
      {
        if t < n {
          assert txs[..t] == front[..t];
          assert UnspentAt(c, pubKeyHash, front, t, i);
        } else {
          assert txs[..n] == front;
          var j :| 0 <= j < |idx| && idx[j] == i;
          assert outs[j] == txs[t].outputs[i];
        }
      }
    }
  }

  /** Where no transaction has more than one output locked to the key, the scan as written
      finds exactly the outputs of the reference definition: the transaction is appended
      at most once, and FindUTXO's re-reading of its outputs agrees with the per-index test. */
  lemma {:induction false} UnspentOutputsWhenSingleLocked(c: Crypto, pubKeyHash: Bytes, txs: seq<Transaction>)
    requires forall t :: t in txs ==> |LockedOf(t.outputs, pubKeyHash)| <= 1
    ensures LockedOutputs(Scan(c, pubKeyHash, txs).unspent, pubKeyHash) == UnspentLockedOutputs(c, pubKeyHash, txs)
  {
    if txs != [] {
      var front := txs[..|txs| - 1];
      var tx := txs[|txs| - 1];
      assert forall t :: t in front ==> t in txs;
      UnspentOutputsWhenSingleLocked(c, pubKeyHash, front);
      var st := Scan(c, pubKeyHash, front);
      var idx := UnspentIndices(st.spent, tx, pubKeyHash, |tx.outputs|);
      assert Scan(c, pubKeyHash, txs).unspent == st.unspent + Copies(tx, |idx|);
      SingleLockedIndices(st.spent, tx, pubKeyHash, idx);
      SingleLockedStep(st.unspent, tx, pubKeyHash, idx);
    }
  }

  /** Appending a transaction once per listed index adds, to the outputs read back, exactly
      the outputs at those indices, when there is at most one index and it is the one output
      locked to the key. */
  lemma SingleLockedStep(unspent: seq<Transaction>, tx: Transaction, pubKeyHash: Bytes, idx: seq<nat>)
    requires |idx| <= 1
    requires |idx| == 1 ==> idx[0] < |tx.outputs| && LockedOf(tx.outputs, pubKeyHash) == [tx.outputs[idx[0]]]
    ensures forall j :: 0 <= j < |idx| ==> idx[j] < |tx.outputs|
    ensures LockedOutputs(unspent + Copies(tx, |idx|), pubKeyHash) == LockedOutputs(unspent, pubKeyHash) + OutputsAt(tx, idx)
  {
    if |idx| == 0 {
      assert unspent + Copies(tx, 0) == unspent;
    } else {
      assert idx == [idx[0]];
      OutputsAtOne(tx, idx[0]);
      assert Copies(tx, 1) == [tx];
      assert (unspent + [tx])[..|unspent|] == unspent;
    }
  }

  lemma OutputsAtOne(tx: Transaction, i: nat)
    requires i < |tx.outputs|
    ensures OutputsAt(tx, [i]) == [tx.outputs[i]]
  {
  }

  /** With at most one output locked to the key, at most one index is unspent, and if one
      is, the locked outputs are exactly that output. */
  lemma SingleLockedIndices(spent: Spent, tx: Transaction, pubKeyHash: Bytes, idx: seq<nat>)
    requires |LockedOf(tx.outputs, pubKeyHash)| <= 1
    requires idx == UnspentIndices(spent, tx, pubKeyHash, |tx.outputs|)
    ensures |idx| <= 1
    ensures |idx| == 1 ==> idx[0] < |tx.outputs| && LockedOf(tx.outputs, pubKeyHash) == [tx.outputs[idx[0]]]
  {
    UnspentIndicesMeaning(spent, tx, pubKeyHash, |tx.outputs|);
    UnspentIndicesBound(spent, tx, pubKeyHash, |tx.outputs|);
    assert tx.outputs[..|tx.outputs|] == tx.outputs;
    var locked := LockedOf(tx.outputs, pubKeyHash);
    LockedOfMembers(tx.outputs, pubKeyHash);
    if |idx| == 1 {
      var o := tx.outputs[idx[0]];
      assert idx[0] in idx;
      assert o in locked;
    }
  }

  /** A transaction is appended at most as often as it has outputs locked to the key. */
  lemma {:induction false} UnspentIndicesBound(spent: Spent, tx: Transaction, pubKeyHash: Bytes, k: nat)
    requires k <= |tx.outputs|
    ensures |UnspentIndices(spent, tx, pubKeyHash, k)| <= |LockedOf(tx.outputs[..k], pubKeyHash)|
  {
    if k > 0 {
      UnspentIndicesBound(spent, tx, pubKeyHash, k - 1);
      assert tx.outputs[..k][..k - 1] == tx.outputs[..k - 1];
    }
  }

  /** A transaction with two outputs locked to the key, one of them spent later in the
      walk, is returned once and FindUTXO then reports both outputs: the spent output
      is counted in the balance. */
  lemma DoubleCountedOutput(c: Crypto, pubKey: Bytes, id1: Bytes, id2: Bytes)
    ensures var a := Wallet.PublicKeyHash(c, pubKey);
            var t1 := Transaction(id1, [], [TxOutput(50, a), TxOutput(50, a)]);
            var t2 := Transaction(id2, [TxInput(id1, 0, [], pubKey)], [TxOutput(50, a + [0])]);
            Scan(c, a, [t2, t1]).unspent == [t1] &&
            LockedOutputs(Scan(c, a, [t2, t1]).unspent, a) == [TxOutput(50, a), TxOutput(50, a)] &&
            UnspentLockedOutputs(c, a, [t2, t1]) == [TxOutput(50, a)]
  {
    var a := Wallet.PublicKeyHash(c, pubKey);
    var t1 := Transaction(id1, [], [TxOutput(50, a), TxOutput(50, a)]);
    var t2 := Transaction(id2, [TxInput(id1, 0, [], pubKey)], [TxOutput(50, a + [0])]);
    SpendingScan(c, pubKey, id1, t2, 50);
    var s1 := Scan(c, a, [t2]);
    UnspentAfterSpend(s1.spent, t1, a);
    assert [t2, t1] == [t2] + [t1];
    ScanSnoc(c, a, [t2], t1);
    var r := Scan(c, a, [t2, t1]).unspent;
    assert r == [t1];
    LockedTwice(TxOutput(50, a), a);
    assert LockedOutputs(r, a) == [TxOutput(50, a), TxOutput(50, a)] by {
      assert r[..0] == [];
    }
    assert UnspentLockedOutputs(c, a, [t2]) == [] by {
      assert [t2][..0] == [];
    }
    assert [t2, t1][..1] == [t2];
  }

  /** A block with one transaction holding two outputs of 5 locked to the key: the scan
      returns that transaction twice, so each output is offered twice and selecting 15
      takes output 0 twice. The selection totals 15 although the key holds only 10. */
  lemma DoubleSelectedOutput(c: Crypto, a: Bytes, id1: Bytes)
    ensures var t1 := Transaction(id1, [], [TxOutput(5, a), TxOutput(5, a)]);
            var chain := [Block([1], [t1], [], 0)];
            var sel := SpendableSelection(c, a, 15, chain);
            UnspentTransactions(c, a, chain) == [t1, t1] &&
            sel == [Candidate(id1, 0, 5), Candidate(id1, 1, 5), Candidate(id1, 0, 5)] &&
            Sum(sel) == 15 && Occurrences(sel, id1, 0) == 2 && SumValues(t1.outputs) == 10
  {
    var t1 := Transaction(id1, [], [TxOutput(5, a), TxOutput(5, a)]);
    TwinOutputsScan(c, a, t1);
    TwinOutputsOffered(a, t1);
    TwinOutputsTaken(Candidate(id1, 0, 5), Candidate(id1, 1, 5));
    TwinOutputsValue(TxOutput(5, a));
  }

  /** Two outputs of 5 hold 10. */
  lemma TwinOutputsValue(o: TxOutput)
    requires o.value == 5
    ensures SumValues([o, o]) == 10
  {
    assert [o][..0] == [] && SumValues([o]) == 5;
    assert [o, o][..1] == [o];
  }

  /** A block holding one transaction with no inputs and two outputs locked to the key: the
      transaction is returned twice. */
  lemma TwinOutputsScan(c: Crypto, a: Bytes, t1: Transaction)
    requires t1.inputs == [] && t1.outputs == [TxOutput(5, a), TxOutput(5, a)]
    ensures UnspentTransactions(c, a, [Block([1], [t1], [], 0)]) == [t1, t1]
  {
    var chain := [Block([1], [t1], [], 0)];
    assert AllTxs(chain) == [t1] by {
      assert chain[..0] == [];
    }
    assert [t1][..0] == [];
    assert UnspentIndices(map[], t1, a, 1) == [0];
    assert UnspentIndices(map[], t1, a, 2) == [0, 1];
    assert Scan(c, a, [t1]) == Step(c, a, ScanState([], map[]), t1);
  }

  /** Listed twice, that transaction offers each of its two outputs twice. */
  lemma TwinOutputsOffered(a: Bytes, t1: Transaction)
    requires t1.outputs == [TxOutput(5, a), TxOutput(5, a)]
    ensures var x0, x1 := Candidate(t1.id, 0, 5), Candidate(t1.id, 1, 5);
            Candidates([t1, t1], a) == [x0, x1, x0, x1]
  {
    var x0, x1 := Candidate(t1.id, 0, 5), Candidate(t1.id, 1, 5);
    assert CandidatesOf(t1, a, 1) == [x0];
    assert CandidatesOf(t1, a, 2) == [x0, x1];
    assert [t1, t1][..1] == [t1] && [t1][..0] == [];
    assert Candidates([t1], a) == [x0, x1];
  }

  /** Taking 15 from four offers of 5 stops after three, the first and the third being the
      same outpoint. */
  lemma TwinOutputsTaken(x0: Candidate, x1: Candidate)
    requires x0.value == 5 && x1.value == 5 && x0.index == 0 && x1.index == 1
    ensures Take([x0, x1, x0, x1], 15) == [x0, x1, x0]
    ensures Sum([x0, x1, x0]) == 15 && Occurrences([x0, x1, x0], x0.id, 0) == 2
  {
    var cands := [x0, x1, x0, x1];
    assert cands[..1] == [x0] && [x0][..0] == [];
    assert cands[..2] == [x0, x1] && [x0, x1][..1] == [x0];
    assert cands[..3] == [x0, x1, x0] && [x0, x1, x0][..2] == [x0, x1];
    assert Take([x0], 15) == [x0] && Sum([x0]) == 5;
    assert Take([x0, x1], 15) == [x0, x1] && Sum([x0, x1]) == 10;
    assert Take([x0, x1, x0], 15) == [x0, x1, x0] && Sum([x0, x1, x0]) == 15;
    assert Occurrences([x0], x0.id, 0) == 1;
    assert Occurrences([x0, x1], x0.id, 0) == 1;
  }

  lemma UnspentAfterSpend(spent: Spent, t1: Transaction, a: Bytes)
    requires spent == map[t1.id := [0]]
    requires t1.outputs == [TxOutput(50, a), TxOutput(50, a)]
    ensures UnspentIndices(spent, t1, a, |t1.outputs|) == [1]
  {
    assert IsSpent(spent, t1.id, 0) && !IsSpent(spent, t1.id, 1);
    assert UnspentIndices(spent, t1, a, 1) == [];
  }

  lemma LockedTwice(o: TxOutput, a: Bytes)
    requires IsLockedWithKey(o, a)
    ensures LockedOf([o, o], a) == [o, o]
  {
    assert [o, o][..1] == [o] && [o][..0] == [];
    assert LockedOf([o], a) == [o];
  }

  /** Scanning a transaction that pays elsewhere and spends output 0 of `id1` with the
      key finds nothing and records that output as spent. */
  lemma SpendingScan(c: Crypto, pubKey: Bytes, id1: Bytes, t2: Transaction, value: int)
    requires t2.inputs == [TxInput(id1, 0, [], pubKey)]
    requires t2.outputs == [TxOutput(value, Wallet.PublicKeyHash(c, pubKey) + [0])]
    ensures Scan(c, Wallet.PublicKeyHash(c, pubKey), [t2]) == ScanState([], map[id1 := [0]])
  {
    var a := Wallet.PublicKeyHash(c, pubKey);
    assert [t2][..0] == [];
    var s0 := Scan(c, a, []);
    assert s0 == ScanState([], map[]);
    assert !IsLockedWithKey(t2.outputs[0], a);
    assert UnspentIndices(map[], t2, a, 1) == [];
    assert t2.inputs[..0] == [];
    assert !IsCoinbase(t2);
    assert UsesKey(c, t2.inputs[0], a);
    assert IndicesOf(map[], id1) + [0] == [0];
    assert RecordInputs(c, a, map[], t2.inputs) == map[id1 := [0]];
    assert Scan(c, a, [t2]) == Step(c, a, s0, t2);
  }

  // ---------------------------------------------------------------------------------------
  // FindSpendableOutputs
  // ---------------------------------------------------------------------------------------

  /** An output offered to the greedy selection: its transaction's ID, index and value. */
  datatype Candidate = Candidate(id: Bytes, index: nat, value: int)

  /** The candidates from the first k outputs of a transaction: those locked to the key. */
  function CandidatesOf(tx: Transaction, pubKeyHash: Bytes, k: nat): seq<Candidate>
    requires k <= |tx.outputs|
  {
    if k == 0 then []
    else if IsLockedWithKey(tx.outputs[k - 1], pubKeyHash)
    then CandidatesOf(tx, pubKeyHash, k - 1) + [Candidate(tx.id, k - 1, tx.outputs[k - 1].value)]
    else CandidatesOf(tx, pubKeyHash, k - 1)
  }

  /** Each candidate of a transaction names one of its first k outputs that is locked to the
      key, with that output's value. */
  lemma {:induction false} CandidatesOfSound(tx: Transaction, pubKeyHash: Bytes, k: nat)
    requires k <= |tx.outputs|
    ensures forall j :: 0 <= j < |CandidatesOf(tx, pubKeyHash, k)| ==>
              var x := CandidatesOf(tx, pubKeyHash, k)[j];
              x.id == tx.id && x.index < k && x.value == tx.outputs[x.index].value &&
              IsLockedWithKey(tx.outputs[x.index], pubKeyHash)
  {
    if k > 0 {
      CandidatesOfSound(tx, pubKeyHash, k - 1);
    }
  }

  /** The candidates of the listed transactions in order: a transaction listed twice
      offers its outputs twice. */
  function Candidates(txs: seq<Transaction>, pubKeyHash: Bytes): seq<Candidate>
  {
    if txs == [] then []
    else
      var tx := txs[|txs| - 1];
      Candidates(txs[..|txs| - 1], pubKeyHash) + CandidatesOf(tx, pubKeyHash, |tx.outputs|)
  }

  /** The candidate is an output, locked to the key, of a listed transaction, and carries
      that output's value. */
  predicate Offered(txs: seq<Transaction>, pubKeyHash: Bytes, x: Candidate)
  {
    exists i :: 0 <= i < |txs| && x.id == txs[i].id && x.index < |txs[i].outputs| &&
                x.value == txs[i].outputs[x.index].value && IsLockedWithKey(txs[i].outputs[x.index], pubKeyHash)
  }

  /** Every candidate is offered by a listed transaction. */
  lemma {:induction false} CandidatesSound(txs: seq<Transaction>, pubKeyHash: Bytes)
    ensures forall j :: 0 <= j < |Candidates(txs, pubKeyHash)| ==> Offered(txs, pubKeyHash, Candidates(txs, pubKeyHash)[j])
  {
    if txs != [] {
      var n := |txs| - 1;
      var front := txs[..n];
      CandidatesSound(front, pubKeyHash);
      var f := Candidates(front, pubKeyHash);
      var own := CandidatesOf(txs[n], pubKeyHash, |txs[n].outputs|);
      CandidatesOfSound(txs[n], pubKeyHash, |txs[n].outputs|);
      var r := Candidates(txs, pubKeyHash);
      assert r == f + own;
      forall j | 0 <= j < |r|
        ensures Offered(txs, pubKeyHash, r[j])
      {
        if j < |f| {
          assert r[j] == f[j];
          assert Offered(front, pubKeyHash, f[j]);
          var i :| 0 <= i < |front| && f[j].id == front[i].id && f[j].index < |front[i].outputs| &&
                   f[j].value == front[i].outputs[f[j].index].value && IsLockedWithKey(front[i].outputs[f[j].index], pubKeyHash);
          assert front[i] == txs[i];
        } else {
          assert r[j] == own[j - |f|];
          assert r[j].id == txs[n].id;
        }
      }
    }
  }

  function Sum(cands: seq<Candidate>): int
  {
    if cands == [] then 0 else Sum(cands[..|cands| - 1]) + cands[|cands| - 1].value
  }

  /** Greedy selection: each candidate is taken while the running total is below the amount. */
  function Take(cands: seq<Candidate>, amount: int): seq<Candidate>
  {
    if cands == [] then []
    else
      var p := Take(cands[..|cands| - 1], amount);
      if Sum(p) < amount then p + [cands[|cands| - 1]] else p
  }

  /** The selection is everything offered when its total stays below the amount. */
  lemma {:induction false} TakeAll(cands: seq<Candidate>, amount: int)
    ensures Sum(Take(cands, amount)) < amount ==> Take(cands, amount) == cands
  {
    if cands != [] {
      var front := cands[..|cands| - 1];
      TakeAll(front, amount);
      var p := Take(front, amount);
      if Sum(p) < amount {
        SplitLast(cands);
      } else {
        assert Take(cands, amount) == p;
      }
    }
  }

  /** The selection is a prefix of what is offered. */
  lemma {:induction false} TakePrefix(cands: seq<Candidate>, amount: int)
    ensures Take(cands, amount) <= cands
  {
    if cands != [] {
      var front := cands[..|cands| - 1];
      TakePrefix(front, amount);
      TakeAll(front, amount);
    }
  }

  /** Every proper prefix of the selection has a total below the amount: the selection stops
      at the first candidate that makes the total reach it. */
  lemma {:induction false} TakeMinimal(cands: seq<Candidate>, amount: int)
    ensures forall k :: 0 <= k < |Take(cands, amount)| ==> Sum(Take(cands, amount)[..k]) < amount
  {
    if cands != [] {
      var front := cands[..|cands| - 1];
      TakeMinimal(front, amount);
      var p := Take(front, amount);
      if Sum(p) < amount {
        var r := p + [cands[|cands| - 1]];
        assert r[..|p|] == p;
        assert forall k :: 0 <= k < |p| ==> r[..k] == p[..k];
      }
    }
  }

  /** Once the total reaches the amount, later candidates are never taken. */
  lemma {:induction false} TakeSaturated(p: seq<Candidate>, cands: seq<Candidate>, amount: int)
    requires p <= cands && Sum(Take(p, amount)) >= amount
    ensures Take(cands, amount) == Take(p, amount)
    decreases |cands|
  {
    if |cands| > |p| {
      var front := cands[..|cands| - 1];
      assert p <= front;
      TakeSaturated(p, front, amount);
    } else {
      assert p == cands;
    }
  }

  /** Taking one more candidate while the total is below the amount appends it. */
  lemma TakeStep(cands: seq<Candidate>, x: Candidate, amount: int)
    ensures Sum(Take(cands, amount)) < amount ==> Take(cands + [x], amount) == Take(cands, amount) + [x]
    ensures Sum(Take(cands, amount)) >= amount ==> Take(cands + [x], amount) == Take(cands, amount)
  {
    assert (cands + [x])[..|cands|] == cands;
  }

  lemma SumSnoc(cands: seq<Candidate>, x: Candidate)
    ensures Sum(cands + [x]) == Sum(cands) + x.value
  {
    assert (cands + [x])[..|cands|] == cands;
  }

  lemma GroupSnoc(cands: seq<Candidate>, x: Candidate)
    ensures Group(cands + [x]) == Group(cands)[x.id := IndicesOf(Group(cands), x.id) + [x.index]]
  {
    assert (cands + [x])[..|cands|] == cands;
  }

  lemma {:induction false} CandidatesOfPrefix(tx: Transaction, pubKeyHash: Bytes, k: nat, n: nat)
    requires k <= n <= |tx.outputs|
    ensures CandidatesOf(tx, pubKeyHash, k) <= CandidatesOf(tx, pubKeyHash, n)
    decreases n - k
  {
    if k < n {
      CandidatesOfPrefix(tx, pubKeyHash, k, n - 1);
    }
  }

  lemma {:induction false} CandidatesPrefix(txs: seq<Transaction>, pubKeyHash: Bytes, t: nat)
    requires t <= |txs|
    ensures Candidates(txs[..t], pubKeyHash) <= Candidates(txs, pubKeyHash)
    decreases |txs| - t
  {
    if t < |txs| {
      assert txs[..t] == txs[..|txs| - 1][..t];
      CandidatesPrefix(txs[..|txs| - 1], pubKeyHash, t);
    } else {
      assert txs[..t] == txs;
    }
  }

  /** One more output offered to the greedy selection is taken when it is locked to the key
      and the total so far is below the amount; the total and the grouping grow by it. */
  lemma TakeNext(pre: seq<Candidate>, tx: Transaction, pubKeyHash: Bytes, o: nat, amount: int, taken: seq<Candidate>)
    requires o < |tx.outputs| && taken == Take(pre + CandidatesOf(tx, pubKeyHash, o), amount)
    requires IsLockedWithKey(tx.outputs[o], pubKeyHash) && Sum(taken) < amount
    ensures var x := Candidate(tx.id, o, tx.outputs[o].value);
            Take(pre + CandidatesOf(tx, pubKeyHash, o + 1), amount) == taken + [x] &&
            Sum(taken + [x]) == Sum(taken) + x.value &&
            Group(taken + [x]) == Group(taken)[x.id := IndicesOf(Group(taken), x.id) + [x.index]]
  {
    var prefix := pre + CandidatesOf(tx, pubKeyHash, o);
    var x := Candidate(tx.id, o, tx.outputs[o].value);
    TakeStep(prefix, x, amount);
    assert CandidatesOf(tx, pubKeyHash, o + 1) == CandidatesOf(tx, pubKeyHash, o) + [x];
    AppendSnoc(pre, CandidatesOf(tx, pubKeyHash, o), x);
    SumSnoc(taken, x);
    GroupSnoc(taken, x);
  }

  /** Any other output leaves the selection as it was. */
  lemma TakeSkip(pre: seq<Candidate>, tx: Transaction, pubKeyHash: Bytes, o: nat, amount: int, taken: seq<Candidate>)
    requires o < |tx.outputs| && taken == Take(pre + CandidatesOf(tx, pubKeyHash, o), amount)
    requires !(IsLockedWithKey(tx.outputs[o], pubKeyHash) && Sum(taken) < amount)
    ensures Take(pre + CandidatesOf(tx, pubKeyHash, o + 1), amount) == taken
  {
    var prefix := pre + CandidatesOf(tx, pubKeyHash, o);
    var x := Candidate(tx.id, o, tx.outputs[o].value);
    if IsLockedWithKey(tx.outputs[o], pubKeyHash) {
      TakeStep(prefix, x, amount);
      assert CandidatesOf(tx, pubKeyHash, o + 1) == CandidatesOf(tx, pubKeyHash, o) + [x];
      AppendSnoc(pre, CandidatesOf(tx, pubKeyHash, o), x);
    } else {
      assert CandidatesOf(tx, pubKeyHash, o + 1) == CandidatesOf(tx, pubKeyHash, o);
    }
  }

  /** Once the selection from a prefix of the offered outputs reaches the amount, it is the
      selection from all of them. */
  lemma TakeDone(txs: seq<Transaction>, pubKeyHash: Bytes, t: nat, o: nat, amount: int)
    requires t < |txs| && o <= |txs[t].outputs|
    requires Sum(Take(Candidates(txs[..t], pubKeyHash) + CandidatesOf(txs[t], pubKeyHash, o), amount)) >= amount
    ensures Take(Candidates(txs, pubKeyHash), amount) ==
              Take(Candidates(txs[..t], pubKeyHash) + CandidatesOf(txs[t], pubKeyHash, o), amount)
  {
    var front := Candidates(txs[..t], pubKeyHash);
    var p := front + CandidatesOf(txs[t], pubKeyHash, o);
    var q := front + CandidatesOf(txs[t], pubKeyHash, |txs[t].outputs|);
    var all := Candidates(txs, pubKeyHash);
    CandidatesOfPrefix(txs[t], pubKeyHash, o, |txs[t].outputs|);
    PrefixConcat(front, CandidatesOf(txs[t], pubKeyHash, o), CandidatesOf(txs[t], pubKeyHash, |txs[t].outputs|));
    CandidatesSnoc(txs, pubKeyHash, t);
    CandidatesPrefix(txs, pubKeyHash, t + 1);
    assert p <= q && q <= all;
    PrefixTrans(p, q, all);
    TakeSaturated(p, all, amount);
  }

  lemma CandidatesSnoc(txs: seq<Transaction>, pubKeyHash: Bytes, t: nat)
    requires t < |txs|
    ensures Candidates(txs[..t + 1], pubKeyHash) ==
              Candidates(txs[..t], pubKeyHash) + CandidatesOf(txs[t], pubKeyHash, |txs[t].outputs|)
  {
    assert txs[..t + 1][..t] == txs[..t];
  }

  /** Nothing is selected for an amount that is not positive. */
  lemma {:induction false} TakeNonPositive(cands: seq<Candidate>, amount: int)
    requires amount <= 0
    ensures Take(cands, amount) == []
  {
    if cands != [] {
      TakeNonPositive(cands[..|cands| - 1], amount);
    }
  }

  /** Selected output indices grouped by transaction ID, in selection order. */
  function Group(cands: seq<Candidate>): map<Bytes, seq<int>>
  {
    if cands == [] then map[]
    else
      var m := Group(cands[..|cands| - 1]);
      var last := cands[|cands| - 1];
      m[last.id := IndicesOf(m, last.id) + [last.index]]
  }

  /** How often the outpoint occurs in the candidates. */
  function Occurrences(cands: seq<Candidate>, id: Bytes, index: int): nat
  {
    if cands == [] then 0
    else Occurrences(cands[..|cands| - 1], id, index) +
         (if cands[|cands| - 1].id == id && cands[|cands| - 1].index == index then 1 else 0)
  }

  /** The grouped selection records each (ID, index) pair as often as it was selected. */
  lemma {:induction false} GroupCounts(cands: seq<Candidate>, id: Bytes, index: int)
    ensures SelectedCount(Group(cands), id, index) == Occurrences(cands, id, index)
  {
    if cands != [] {
      var front := cands[..|cands| - 1];
      GroupCounts(front, id, index);
      var m := Group(front);
      var last := cands[|cands| - 1];
      if last.id == id {
        assert multiset(IndicesOf(m, id) + [last.index]) == multiset(IndicesOf(m, id)) + multiset{last.index};
      }
    }
  }

  /** FindSpendableOutputs over a walk: the total and grouping of the greedy selection from
      the outputs of the unspent transactions. */
  function SpendableSelection(c: Crypto, pubKeyHash: Bytes, amount: int, chain: seq<Block>): seq<Candidate>
  {
    Take(Candidates(UnspentTransactions(c, pubKeyHash, chain), pubKeyHash), amount)
  }

  /** What FindSpendableOutputs selects: outputs locked to the key of the transactions the
      scan returns, spent or not and repeated when a transaction is returned more than once,
      offered in walk order and taken until the total reaches the amount and no further;
      nothing at all for an amount that is not positive. */
  lemma SelectionFacts(c: Crypto, pubKeyHash: Bytes, amount: int, chain: seq<Block>)
    ensures var sel := SpendableSelection(c, pubKeyHash, amount, chain);
            var txs := UnspentTransactions(c, pubKeyHash, chain);
            (forall j :: 0 <= j < |sel| ==> Offered(txs, pubKeyHash, sel[j])) &&
            (forall k :: 0 <= k < |sel| ==> Sum(sel[..k]) < amount) &&
            (Sum(sel) < amount ==> sel == Candidates(txs, pubKeyHash)) &&
            (amount <= 0 ==> sel == [] && Sum(sel) == 0 && Group(sel) == map[])
  {
    var txs := UnspentTransactions(c, pubKeyHash, chain);
    var cands := Candidates(txs, pubKeyHash);
    var sel := Take(cands, amount);
    TakeAll(cands, amount);
    TakePrefix(cands, amount);
    TakeMinimal(cands, amount);
    CandidatesSound(txs, pubKeyHash);
    forall j | 0 <= j < |sel|
      ensures Offered(txs, pubKeyHash, sel[j])
    {
      assert sel[j] == cands[j];
    }
    if amount <= 0 {
      TakeNonPositive(cands, amount);
    }
  }

  // ---------------------------------------------------------------------------------------
  // FindTransaction and the prior transactions of SignTx / VerifyTx
  // ---------------------------------------------------------------------------------------

  /** The position of the first listed transaction with the ID, or the length of the list. */
  function FirstIndex(txs: seq<Transaction>, id: Bytes): (k: nat)
    ensures k <= |txs|
    ensures k < |txs| ==> txs[k].id == id
    ensures forall j :: 0 <= j < k ==> txs[j].id != id
  {
    if txs == [] then 0
    else if txs[0].id == id then 0
    else
      var k := FirstIndex(txs[1..], id);
      assert forall j :: 1 <= j < |txs| ==> txs[j] == txs[1..][j - 1];
      1 + k
  }

  /** The first listed transaction with the ID, if any. */
  function FirstWithId(txs: seq<Transaction>, id: Bytes): (r: Option<Transaction>)
    ensures r.None? <==> forall i :: 0 <= i < |txs| ==> txs[i].id != id
    ensures r.Some? ==> r.value.id == id && FirstIndex(txs, id) < |txs| && r.value == txs[FirstIndex(txs, id)]
  {
    var k := FirstIndex(txs, id);
    if k < |txs| then Some(txs[k]) else None
  }

  lemma {:induction false} FirstIndexAppend(a: seq<Transaction>, b: seq<Transaction>, id: Bytes)
    ensures FirstIndex(a + b, id) == if FirstIndex(a, id) < |a| then FirstIndex(a, id) else |a| + FirstIndex(b, id)
  {
    if a != [] {
      assert (a + b)[1..] == a[1..] + b;
      FirstIndexAppend(a[1..], b, id);
    } else {
      assert a + b == b;
    }
  }

  /** A lookup in a concatenation finds the match in the first part if there is one. */
  lemma FirstWithIdAppend(a: seq<Transaction>, b: seq<Transaction>, id: Bytes)
    ensures FirstWithId(a + b, id) == if FirstWithId(a, id).Some? then FirstWithId(a, id) else FirstWithId(b, id)
  {
    FirstIndexAppend(a, b, id);
    if FirstIndex(a, id) == |a| {
      assert (a + b)[|a| + FirstIndex(b, id)..] == b[FirstIndex(b, id)..];
    }
  }

  /** Finding the transaction at position t of block k, with no match earlier on the walk,
      is finding the first match of the whole walk. */
  lemma FoundOnWalk(chain: seq<Block>, k: nat, t: nat, id: Bytes)
    requires k < |chain| && t < |chain[k].transactions|
    requires FirstWithId(AllTxs(chain[..k]) + chain[k].transactions[..t], id).None?
    requires chain[k].transactions[t].id == id
    ensures FirstWithId(AllTxs(chain), id) == Some(chain[k].transactions[t])
  {
    var txs := chain[k].transactions;
    var before := AllTxs(chain[..k]) + txs[..t];
    AllTxsSnoc(chain, k);
    SplitAt(chain, k + 1);
    AllTxsAppend(chain[..k + 1], chain[k + 1..]);
    SplitAround(txs, t);
    Regroup(AllTxs(chain[..k]), txs[..t], txs[t], txs[t + 1..], AllTxs(chain[k + 1..]));
    FirstWithIdAppend(before, [txs[t]] + txs[t + 1..] + AllTxs(chain[k + 1..]), id);
    assert FirstIndex([txs[t]] + txs[t + 1..] + AllTxs(chain[k + 1..]), id) == 0;
  }

  /** The IDs the inputs refer to. */
  function InputIds(inputs: seq<TxInput>): (r: set<Bytes>)
    ensures forall i :: 0 <= i < |inputs| ==> inputs[i].id in r
    ensures forall id :: id in r ==> exists i :: 0 <= i < |inputs| && inputs[i].id == id
  {
    if inputs == [] then {}
    else
      var front := inputs[..|inputs| - 1];
      assert forall i :: 0 <= i < |front| ==> inputs[i] == front[i];
      InputIds(front) + {inputs[|inputs| - 1].id}
  }

  /** The map SignTx and VerifyTx build: for each input, in order, the first transaction on
      the walk with the input's ID, stored under that ID. A missing one is an error. */
  function PriorTransactions(txs: seq<Transaction>, inputs: seq<TxInput>): (r: Result<map<Bytes, Transaction>>)
    ensures r.Err? ==> r.error == NotFound
    ensures r.Ok? <==> forall i :: 0 <= i < |inputs| ==> FirstWithId(txs, inputs[i].id).Some?
  {
    if inputs == [] then Ok(map[])
    else
      var front := inputs[..|inputs| - 1];
      var last := inputs[|inputs| - 1];
      assert forall i :: 0 <= i < |front| ==> inputs[i] == front[i];
      var m := PriorTransactions(txs, front);
      var found := FirstWithId(txs, last.id);
      if m.Err? then m
      else if found.None? then Err(NotFound)
      else Ok(m.value[found.value.id := found.value])
  }

  /** The map's keys are exactly the inputs' IDs, and each holds the first transaction on
      the walk with that ID. */
  lemma {:induction false} PriorTransactionsContents(txs: seq<Transaction>, inputs: seq<TxInput>)
    requires PriorTransactions(txs, inputs).Ok?
    ensures PriorTransactions(txs, inputs).value.Keys == InputIds(inputs)
    ensures forall id :: id in PriorTransactions(txs, inputs).value ==>
              FirstWithId(txs, id) == Some(PriorTransactions(txs, inputs).value[id])
  {
    if inputs != [] {
      var front := inputs[..|inputs| - 1];
      PriorTransactionsContents(txs, front);
    }
  }
}

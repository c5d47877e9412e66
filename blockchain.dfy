/** The chain: a head hash over the store, the queries that walk it from the newest block
    back to genesis, and the operations that extend it or build and sign transactions. */
module Ledger {
  import opened Primitives
  import opened Sequences
  import Wallet
  import opened Tx
  import opened Transactions
  import opened Blocks
  import opened Proof
  import opened Storage
  import opened Iteration
  import opened Resolver

  /** The data of the genesis coinbase. */
  const GenesisData: Bytes := Ascii("First Transaction from Genesis")

  class BlockChain {
    var lasHash: Bytes
    const db: Store
    /** The blocks a walk from the head reads, newest first. */
    ghost var chain: seq<Block>

    /** The head is the stored "lh" value and a walk from it reaches genesis through `chain`. */
    ghost predicate Valid()
      reads this, db
    {
      IsWalk(db.blocks, lasHash, chain) && db.lastHash == Some(lasHash) && lasHash != []
    }

    constructor (lastHash: Bytes, db: Store, ghost chain: seq<Block>)
      ensures this.lasHash == lastHash && this.db == db && this.chain == chain
    {
      this.lasHash := lastHash;
      this.db := db;
      this.chain := chain;
    }

    /** A cursor on the head block. */
    method Iterator() returns (it: BlockChainIterator)
      ensures fresh(it) && it.currentHash == lasHash && it.db == db
    {
      it := new BlockChainIterator(lasHash, db);
    }

    /** Walk from the head to genesis. Each transaction is kept once for each of its outputs
        that is locked to the key and not yet recorded as spent; then, unless it is a
        coinbase, the outputs its inputs spend with the key are recorded. */
    method FindUnspentTransactions(c: Crypto, pubKeyHash: Bytes) returns (unspentTxs: seq<Transaction>)
      requires Valid()
      ensures unspentTxs == UnspentTransactions(c, pubKeyHash, chain)
    {
      unspentTxs := [];
      var spentTXOs: Spent := map[];
      var it := Iterator();
      ghost var k := 0;
      while true
        invariant 0 <= k < |chain|
        invariant fresh(it) && it.db == db
        invariant IsWalk(db.blocks, it.currentHash, chain[k..])
        invariant Scan(c, pubKeyHash, AllTxs(chain[..k])) == ScanState(unspentTxs, spentTXOs)
        decreases |chain| - k
      {
        var next := it.Next();
        var block := next.value;
        assert block == chain[k];
        ghost var seen := AllTxs(chain[..k]);
        assert seen + block.transactions[..0] == seen;
        for t := 0 to |block.transactions|
          modifies {}
          invariant Scan(c, pubKeyHash, seen + block.transactions[..t]) == ScanState(unspentTxs, spentTXOs)
        {
          var tx := block.transactions[t];
          var found := UnspentCopies(pubKeyHash, spentTXOs, tx);
          ghost var st := ScanState(unspentTxs, spentTXOs);
          unspentTxs := unspentTxs + found;
          if !IsCoinbase(tx) {
            spentTXOs := RecordSpent(c, pubKeyHash, spentTXOs, tx.inputs);
          }
          assert Step(c, pubKeyHash, st, tx) == ScanState(unspentTxs, spentTXOs);
          ScanSnoc(c, pubKeyHash, seen + block.transactions[..t], tx);
          SliceSnoc(seen, block.transactions, t);
        }
        assert block.transactions[..|block.transactions|] == block.transactions;
        AllTxsSnoc(chain, k);
        if |block.prevHash| == 0 {
          assert chain[..k + 1] == chain;
          break;
        }
        assert chain[k..][1..] == chain[k + 1..];
        k := k + 1;
      }
    }

    /** Every output locked to the key of every transaction FindUnspentTransactions returns. */
    method FindUTXO(c: Crypto, pubKeyHash: Bytes) returns (utxos: seq<TxOutput>)
      requires Valid()
      ensures utxos == UnspentOutputsAsWritten(c, pubKeyHash, chain)
    {
      utxos := [];
      var unspentTransactions := FindUnspentTransactions(c, pubKeyHash);
      for t := 0 to |unspentTransactions|
        invariant utxos == LockedOutputs(unspentTransactions[..t], pubKeyHash)
      {
        var locked := LockedOutputsOf(unspentTransactions[t], pubKeyHash);
        SlicePrefix(unspentTransactions, t);
        utxos := utxos + locked;
      }
      SliceAll(unspentTransactions);
    }

    /** Greedy selection over the outputs locked to the key, in the order the unspent
        transactions list them, until the total reaches the amount. */
    method FindSpendableOutputs(c: Crypto, pubKeyHash: Bytes, amount: int)
      returns (accumulated: int, unspentOuts: map<Bytes, seq<int>>)
      requires Valid()
      ensures accumulated == Sum(SpendableSelection(c, pubKeyHash, amount, chain))
      ensures unspentOuts == Group(SpendableSelection(c, pubKeyHash, amount, chain))
    {
      unspentOuts := map[];
      var unspentTxs := FindUnspentTransactions(c, pubKeyHash);
      accumulated := 0;
      ghost var taken: seq<Candidate> := [];
      for t := 0 to |unspentTxs|
        invariant taken == Take(Candidates(unspentTxs[..t], pubKeyHash), amount)
        invariant accumulated == Sum(taken) && unspentOuts == Group(taken)
      {
        var tx := unspentTxs[t];
        ghost var k;
        var done;
        accumulated, unspentOuts, done, taken, k :=
          TakeOutputs(pubKeyHash, amount, tx, Candidates(unspentTxs[..t], pubKeyHash), accumulated, unspentOuts);
        if done {
          TakeDone(unspentTxs, pubKeyHash, t, k, amount);
          return;
        }
        CandidatesSnoc(unspentTxs, pubKeyHash, t);
      }
      assert unspentTxs[..|unspentTxs|] == unspentTxs;
    }

    /** The first transaction with the ID on the walk from the head, or an error once
        genesis has been searched. */
    method FindTransaction(id: Bytes) returns (r: Result<Transaction>)
      requires Valid()
      ensures FirstWithId(AllTxs(chain), id).Some? ==> r == Ok(FirstWithId(AllTxs(chain), id).value)
      ensures FirstWithId(AllTxs(chain), id).None? ==> r == Err(NotFound)
    {
      var it := Iterator();
      ghost var k := 0;
      while true
        invariant 0 <= k < |chain|
        invariant fresh(it) && it.db == db
        invariant IsWalk(db.blocks, it.currentHash, chain[k..])
        invariant FirstWithId(AllTxs(chain[..k]), id).None?
        decreases |chain| - k
      {
        var next := it.Next();
        var block := next.value;
        assert block == chain[k];
        ghost var seen := AllTxs(chain[..k]);
        assert seen + block.transactions[..0] == seen;
        for t := 0 to |block.transactions|
          modifies {}
          invariant FirstWithId(seen + block.transactions[..t], id).None?
        {
          var tx := block.transactions[t];
          if tx.id == id {
            FoundOnWalk(chain, k, t, id);
            return Ok(tx);
          }
          SliceSnoc(seen, block.transactions, t);
          FirstWithIdAppend(seen + block.transactions[..t], [tx], id);
        }
        assert block.transactions[..|block.transactions|] == block.transactions;
        AllTxsSnoc(chain, k);
        if |block.prevHash| == 0 {
          assert chain[..k + 1] == chain;
          break;
        }
        assert chain[k..][1..] == chain[k + 1..];
        k := k + 1;
      }
      return Err(NotFound);
    }

    /** The prior transactions of the inputs, found on the chain, keyed by ID. */
    method PriorTransactionsOf(tx: Transaction) returns (r: Result<map<Bytes, Transaction>>)
      requires Valid()
      ensures r == PriorTransactions(AllTxs(chain), tx.inputs)
    {
      var prevTXs: map<Bytes, Transaction> := map[];
      for i := 0 to |tx.inputs|
        invariant PriorTransactions(AllTxs(chain), tx.inputs[..i]) == Ok(prevTXs)
      {
        assert tx.inputs[..i + 1][..i] == tx.inputs[..i];
        var found := FindTransaction(tx.inputs[i].id);
        if found.Err? {
          return Err(found.error);
        }
        var prevTX := found.value;
        prevTXs := prevTXs[prevTX.id := prevTX];
      }
      assert tx.inputs[..|tx.inputs|] == tx.inputs;
      return Ok(prevTXs);
    }

    /** Look up every input's prior transaction on the chain, then sign. */
    method SignTx(c: Crypto, enc: Encoder, tx: Transaction, privateKey: Bytes) returns (r: Result<Transaction>)
      requires Valid()
      ensures var p := PriorTransactions(AllTxs(chain), tx.inputs);
              r == if p.Err? then Err(p.error) else SignResult(c, enc, tx, privateKey, p.value)
    {
      var prevTXs :- PriorTransactionsOf(tx);
      r := Sign(c, enc, tx, privateKey, prevTXs);
    }

    /** Look up every input's prior transaction on the chain, then verify. */
    method VerifyTx(c: Crypto, enc: Encoder, tx: Transaction) returns (r: Result<bool>)
      requires Valid()
      ensures var p := PriorTransactions(AllTxs(chain), tx.inputs);
              r == if p.Err? then Err(p.error) else VerifyResult(c, enc, tx, p.value)
    {
      var prevTXs :- PriorTransactionsOf(tx);
      r := Verify(c, enc, tx, prevTXs);
    }

    /** Mine a block of the transactions over the stored head, store it under its hash and
        make it the head. It fails only when no nonce meets the target, or when the mined
        hash already keys a stored block. */
    method AddBlock(c: Crypto, transactions: seq<Transaction>) returns (r: Result<Block>)
      requires Valid()
      modifies this, db
      ensures Valid()
      ensures r.Ok? ==> r.value.prevHash == old(lasHash) && r.value.transactions == transactions
      ensures r.Ok? ==> Validate(c, NewProofOfWork(r.value))
      ensures r.Ok? ==> db.blocks == old(db.blocks)[r.value.hash := r.value] && r.value.hash !in old(db.blocks)
      ensures r.Ok? ==> db.lastHash == Some(r.value.hash) && lasHash == r.value.hash
      ensures r.Ok? ==> chain == [r.value] + old(chain)
      ensures r.Err? ==> r.error == MiningExhausted || r.error == HashCollision
      ensures (r.Err? && r.error == MiningExhausted) <==> Mined(c, transactions, old(lasHash)).None?
      ensures (r.Err? && r.error == HashCollision) <==>
                Mined(c, transactions, old(lasHash)).Some? && Mined(c, transactions, old(lasHash)).value.hash in old(db.blocks)
      ensures r.Ok? ==> r.value == Mined(c, transactions, old(lasHash)).value
      ensures r.Err? ==> db.blocks == old(db.blocks) && db.lastHash == old(db.lastHash) &&
                         lasHash == old(lasHash) && chain == old(chain)
    {
      var lastHash := db.lastHash.value;
      var newBlock :- CreateBlock(c, transactions, lastHash);
      if newBlock.hash in db.blocks {
        return Err(HashCollision);
      }
      WalkExtend(db.blocks, lasHash, chain, newBlock.hash, newBlock);
      db.blocks := db.blocks[newBlock.hash := newBlock];
      db.lastHash := Some(newBlock.hash);
      lasHash := newBlock.hash;
      chain := [newBlock] + chain;
      r := Ok(newBlock);
    }

    /** A transfer from the wallet: select spendable outputs, build one input per selection
        entry (an outpoint selected twice is spent twice), pay the receiver and return any
        change to the sender, set the ID and sign. `unsigned` is the transaction before
        signing. */
    method NewTransaction(c: Crypto, enc: Encoder, w: Wallet.Wallet, sender: Bytes, receiver: Bytes, amount: int)
      returns (r: Result<Transaction>, ghost unsigned: Transaction)
      requires Valid()
      ensures var sel := SpendableSelection(c, Wallet.PublicKeyHash(c, w.publicKey), amount, chain);
              Sum(sel) < amount <==> r == Err(InsufficientFunds)
      ensures var sel := SpendableSelection(c, Wallet.PublicKeyHash(c, w.publicKey), amount, chain);
              var outs := TransferOutputs(c, sender, receiver, amount, Sum(sel));
              Sum(sel) >= amount && outs.Err? ==> r == Err(outs.error)
      ensures var sel := SpendableSelection(c, Wallet.PublicKeyHash(c, w.publicKey), amount, chain);
              var outs := TransferOutputs(c, sender, receiver, amount, Sum(sel));
              outs.Ok? ==>
                unsigned.outputs == outs.value && unsigned.id == Hash(c, enc, unsigned) &&
                (forall id, out :: Multiplicity(unsigned.inputs, id, out) == Occurrences(sel, id, out)) &&
                (forall i :: 0 <= i < |unsigned.inputs| ==>
                   unsigned.inputs[i].publicKey == w.publicKey && unsigned.inputs[i].signature == []) &&
                var p := PriorTransactions(AllTxs(chain), unsigned.inputs);
                r == (if p.Err? then Err(p.error) else SignResult(c, enc, unsigned, w.privateKey, p.value))
      ensures r.Ok? ==>
                var sel := SpendableSelection(c, Wallet.PublicKeyHash(c, w.publicKey), amount, chain);
                var outs := TransferOutputs(c, sender, receiver, amount, Sum(sel));
                outs.Ok? && r.value.outputs == outs.value
      ensures r.Ok? ==>
                var sel := SpendableSelection(c, Wallet.PublicKeyHash(c, w.publicKey), amount, chain);
                forall id, out :: Multiplicity(r.value.inputs, id, out) == Occurrences(sel, id, out)
      ensures r.Ok? ==> forall i :: 0 <= i < |r.value.inputs| ==> r.value.inputs[i].publicKey == w.publicKey
      ensures r.Ok? ==>
                var unsigned := r.value.(inputs := Unsigned(r.value.inputs));
                var p := PriorTransactions(AllTxs(chain), unsigned.inputs);
                unsigned.id == Hash(c, enc, unsigned) && p.Ok? &&
                SignResult(c, enc, unsigned, w.privateKey, p.value) == r
    {
      unsigned := Transaction([], [], []);
      var pubKeyHash := Wallet.PublicKeyHash(c, w.publicKey);
      var accumulated, validOutputs := FindSpendableOutputs(c, pubKeyHash, amount);
      if accumulated < amount {
        return Err(InsufficientFunds), unsigned;
      }
      var inputs := BuildInputs(validOutputs, w.publicKey);
      var outputs := TransferOutputs(c, sender, receiver, amount, accumulated);
      if outputs.Err? {
        return Err(outputs.error), unsigned;
      }
      var tx := SetID(c, enc, Transaction([], inputs, outputs.value));
      unsigned := tx;
      forall id, out
        ensures Multiplicity(tx.inputs, id, out) == Occurrences(SpendableSelection(c, pubKeyHash, amount, chain), id, out)
      {
        GroupCounts(SpendableSelection(c, pubKeyHash, amount, chain), id, out);
      }
      r := SignTx(c, enc, tx, w.privateKey);
      if r.Ok? {
        SpendsSelection(c, enc, tx, w.privateKey, PriorTransactions(AllTxs(chain), tx.inputs).value,
                        SpendableSelection(c, pubKeyHash, amount, chain));
      }
    }
  }

  /** Signing the transfer built from a selection keeps what the selection decided: each
      outpoint is spent by as many inputs as the selection has entries for it, and clearing
      the signatures gives the unsigned transaction back. */
  lemma SpendsSelection(c: Crypto, enc: Encoder, tx: Transaction, privateKey: Bytes,
                        prevTXs: map<Bytes, Transaction>, sel: seq<Candidate>)
    requires forall i :: 0 <= i < |tx.inputs| ==> tx.inputs[i].signature == []
    requires forall id, out :: Multiplicity(tx.inputs, id, out) == SelectedCount(Group(sel), id, out)
    requires SignResult(c, enc, tx, privateKey, prevTXs).Ok?
    ensures var signed := SignResult(c, enc, tx, privateKey, prevTXs).value;
            signed.(inputs := Unsigned(signed.inputs)) == tx &&
            forall id, out :: Multiplicity(signed.inputs, id, out) == Occurrences(sel, id, out)
  {
    var signed := SignResult(c, enc, tx, privateKey, prevTXs).value;
    SignKeepsUnsigned(c, enc, tx, privateKey, prevTXs);
    OutpointsAgree(signed.inputs, tx.inputs);
    forall id, out
      ensures Multiplicity(signed.inputs, id, out) == Occurrences(sel, id, out)
    {
      GroupCounts(sel, id, out);
    }
  }

  /** The inner loops of FindUnspentTransactions for one transaction: the transaction once
      for each of its outputs that is locked to the key and not recorded as spent. */
  method UnspentCopies(pubKeyHash: Bytes, spentTXOs: Spent, tx: Transaction) returns (found: seq<Transaction>)
    ensures found == Copies(tx, |UnspentIndices(spentTXOs, tx, pubKeyHash, |tx.outputs|)|)
  {
    found := [];
    var txID := tx.id;
    for outIndex := 0 to |tx.outputs|
      invariant found == Copies(tx, |UnspentIndices(spentTXOs, tx, pubKeyHash, outIndex)|)
    {
      var out := tx.outputs[outIndex];
      if txID in spentTXOs {
        var recorded := Recorded(spentTXOs[txID], outIndex);
        if recorded {
          continue;
        }
      }
      if IsLockedWithKey(out, pubKeyHash) {
        assert Copies(tx, |UnspentIndices(spentTXOs, tx, pubKeyHash, outIndex)|) + [tx] ==
               Copies(tx, |UnspentIndices(spentTXOs, tx, pubKeyHash, outIndex + 1)|);
        found := found + [tx];
      }
    }
  }

  /** Whether the output index is among the recorded spent indices. */
  method Recorded(spentOuts: seq<int>, outIndex: int) returns (recorded: bool)
    ensures recorded <==> outIndex in spentOuts
  {
    for j := 0 to |spentOuts|
      invariant outIndex !in spentOuts[..j]
    {
      if spentOuts[j] == outIndex {
        return true;
      }
    }
    assert spentOuts[..|spentOuts|] == spentOuts;
    return false;
  }

  /** The input loop of FindUnspentTransactions: record the output each input spends with
      the key. */
  method RecordSpent(c: Crypto, pubKeyHash: Bytes, spentTXOs: Spent, inputs: seq<TxInput>) returns (spent: Spent)
    ensures spent == RecordInputs(c, pubKeyHash, spentTXOs, inputs)
  {
    spent := spentTXOs;
    for i := 0 to |inputs|
      invariant spent == RecordInputs(c, pubKeyHash, spentTXOs, inputs[..i])
    {
      var input := inputs[i];
      assert inputs[..i + 1][..i] == inputs[..i];
      if UsesKey(c, input, pubKeyHash) {
        var inTxID := input.id;
        spent := spent[inTxID := IndicesOf(spent, inTxID) + [input.out]];
      }
    }
    assert inputs[..|inputs|] == inputs;
  }

  /** The output loop of FindSpendableOutputs for one transaction: take each output locked
      to the key while the total is below the amount, and report whether the total reached
      it, which ends the whole selection. */
  method TakeOutputs(pubKeyHash: Bytes, amount: int, tx: Transaction, ghost pre: seq<Candidate>,
                     accumulated0: int, unspentOuts0: map<Bytes, seq<int>>)
    returns (accumulated: int, unspentOuts: map<Bytes, seq<int>>, done: bool, ghost taken: seq<Candidate>, k: nat)
    requires accumulated0 == Sum(Take(pre, amount)) && unspentOuts0 == Group(Take(pre, amount))
    ensures k <= |tx.outputs| && (!done ==> k == |tx.outputs|)
    ensures taken == Take(pre + CandidatesOf(tx, pubKeyHash, k), amount)
    ensures accumulated == Sum(taken) && unspentOuts == Group(taken)
    ensures done ==> accumulated >= amount
  {
    accumulated, unspentOuts, done, taken, k := accumulated0, unspentOuts0, false, Take(pre, amount), 0;
    assert pre + CandidatesOf(tx, pubKeyHash, 0) == pre;
    while k < |tx.outputs| && !done
      invariant k <= |tx.outputs|
      invariant taken == Take(pre + CandidatesOf(tx, pubKeyHash, k), amount)
      invariant accumulated == Sum(taken) && unspentOuts == Group(taken)
      invariant done ==> accumulated >= amount
    {
      accumulated, unspentOuts, done, taken := TakeOutput(pubKeyHash, amount, tx, pre, k, accumulated, unspentOuts, taken);
      k := k + 1;
    }
  }

  /** One output of that loop: taken when it is locked to the key and the total is still
      below the amount; `reached` reports that taking it brought the total to the amount. */
  method TakeOutput(pubKeyHash: Bytes, amount: int, tx: Transaction, ghost pre: seq<Candidate>, outIndex: nat,
                    accumulated0: int, unspentOuts0: map<Bytes, seq<int>>, ghost taken0: seq<Candidate>)
    returns (accumulated: int, unspentOuts: map<Bytes, seq<int>>, reached: bool, ghost taken: seq<Candidate>)
    requires outIndex < |tx.outputs| && taken0 == Take(pre + CandidatesOf(tx, pubKeyHash, outIndex), amount)
    requires accumulated0 == Sum(taken0) && unspentOuts0 == Group(taken0)
    ensures taken == Take(pre + CandidatesOf(tx, pubKeyHash, outIndex + 1), amount)
    ensures accumulated == Sum(taken) && unspentOuts == Group(taken)
    ensures reached <==> accumulated0 < amount <= accumulated
  {
    accumulated, unspentOuts, reached, taken := accumulated0, unspentOuts0, false, taken0;
    var out := tx.outputs[outIndex];
    if IsLockedWithKey(out, pubKeyHash) && accumulated < amount {
      TakeNext(pre, tx, pubKeyHash, outIndex, amount, taken);
      accumulated := accumulated + out.value;
      unspentOuts := unspentOuts[tx.id := IndicesOf(unspentOuts, tx.id) + [outIndex]];
      taken := taken + [Candidate(tx.id, outIndex, out.value)];
      reached := accumulated >= amount;
    } else {
      TakeSkip(pre, tx, pubKeyHash, outIndex, amount, taken);
    }
  }

  /** FindUTXO's inner loop: the outputs of one transaction that are locked to the key, in
      order. */
  method LockedOutputsOf(tx: Transaction, pubKeyHash: Bytes) returns (locked: seq<TxOutput>)
    ensures locked == LockedOf(tx.outputs, pubKeyHash)
  {
    locked := [];
    for o := 0 to |tx.outputs|
      invariant locked == LockedOf(tx.outputs[..o], pubKeyHash)
    {
      SlicePrefix(tx.outputs, o);
      if IsLockedWithKey(tx.outputs[o], pubKeyHash) {
        locked := locked + [tx.outputs[o]];
      }
    }
    SliceAll(tx.outputs);
  }

  /** Signing a transaction whose inputs carry no signature changes nothing but the
      signatures: clearing them again gives the transaction back. */
  lemma SignKeepsUnsigned(c: Crypto, enc: Encoder, tx: Transaction, privateKey: Bytes, prevTXs: map<Bytes, Transaction>)
    requires forall i :: 0 <= i < |tx.inputs| ==> tx.inputs[i].signature == []
    requires SignResult(c, enc, tx, privateKey, prevTXs).Ok?
    ensures var signed := SignResult(c, enc, tx, privateKey, prevTXs).value;
            signed.(inputs := Unsigned(signed.inputs)) == tx
  {
    var signed := SignResult(c, enc, tx, privateKey, prevTXs).value;
    assert Unsigned(signed.inputs) == tx.inputs;
  }

  /** The inputs with their signatures cleared. */
  function Unsigned(inputs: seq<TxInput>): (r: seq<TxInput>)
    ensures |r| == |inputs|
    ensures forall i :: 0 <= i < |inputs| ==> r[i] == inputs[i].(signature := [])
  {
    seq(|inputs|, i requires 0 <= i < |inputs| => inputs[i].(signature := []))
  }

  /** Create the store with a genesis block that pays the coinbase reward to the address.
      Refused when a store already exists; otherwise it fails only when the coinbase cannot
      be built or no nonce meets the target for the genesis block. */
  method InitBlockChain(c: Crypto, enc: Encoder, address: Bytes, dbExists: bool) returns (r: Result<BlockChain>)
    ensures dbExists ==> r == Err(AlreadyExists)
    ensures !dbExists && CoinbaseTx(c, enc, address, GenesisData).Err? ==>
              r == Err(CoinbaseTx(c, enc, address, GenesisData).error)
    ensures r.Err? ==> r.error in {AlreadyExists, DecodeFailed, IndexOutOfRange, MiningExhausted}
    ensures !dbExists && CoinbaseTx(c, enc, address, GenesisData).Ok? ==>
              (r.Err? <==> Mined(c, [CoinbaseTx(c, enc, address, GenesisData).value], []).None?) &&
              (r.Err? ==> r.error == MiningExhausted) &&
              (r.Ok? ==> r.value.chain == [Mined(c, [CoinbaseTx(c, enc, address, GenesisData).value], []).value])
    ensures r.Ok? ==> fresh(r.value) && fresh(r.value.db) && r.value.Valid()
    ensures r.Ok? ==> var bc := r.value;
              |bc.chain| == 1 && bc.chain[0].prevHash == [] &&
              bc.chain[0].transactions == [CoinbaseTx(c, enc, address, GenesisData).value] &&
              bc.db.blocks == map[bc.lasHash := bc.chain[0]] && bc.lasHash == bc.chain[0].hash &&
              Validate(c, NewProofOfWork(bc.chain[0]))
  {
    if dbExists {
      return Err(AlreadyExists);
    }
    var coinbase := CoinbaseTx(c, enc, address, GenesisData);
    if coinbase.Err? {
      return Err(coinbase.error);
    }
    var genesis := Genesis(c, coinbase.value);
    if genesis.Err? {
      return Err(genesis.error);
    }
    var bc := StoreGenesis(genesis.value);
    return Ok(bc);
  }

  /** A new store holding only the genesis block, under its hash and as the head. */
  method StoreGenesis(genesis: Block) returns (bc: BlockChain)
    requires genesis.prevHash == [] && genesis.hash != []
    ensures fresh(bc) && fresh(bc.db) && bc.Valid()
    ensures bc.chain == [genesis] && bc.lasHash == genesis.hash && bc.db.blocks == map[genesis.hash := genesis]
  {
    var db := new Store();
    db.blocks := db.blocks[genesis.hash := genesis];
    db.lastHash := Some(genesis.hash);
    bc := new BlockChain(genesis.hash, db, [genesis]);
  }
}

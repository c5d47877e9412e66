/** Transactions: content-addressed IDs, coinbase issuance, the trimmed copy and the
    per-input signing protocol, and the outputs and inputs a transfer is built from. */
module Transactions {
  import opened Primitives
  import opened Sequences
  import opened Tx
  import Wallet

  /** The value a coinbase transaction issues. */
  const CoinbaseReward: int := 100

  datatype Transaction = Transaction(id: Bytes, inputs: seq<TxInput>, outputs: seq<TxOutput>)

  /** The gob encoding of a transaction (a library format, left abstract). */
  type Encoder = Transaction -> Bytes

  /** SHA-256 of the encoding of a copy whose ID is cleared. */
  function Hash(c: Crypto, enc: Encoder, tx: Transaction): Digest
  {
    c.sha256(enc(tx.(id := [])))
  }

  /** Two transactions that differ only in their ID hash the same. */
  lemma HashIgnoresId(c: Crypto, enc: Encoder, tx: Transaction, id: Bytes)
    ensures Hash(c, enc, tx.(id := id)) == Hash(c, enc, tx)
  {
    assert tx.(id := id).(id := []) == tx.(id := []);
  }

  /** Set the ID to the SHA-256 of the encoding of the transaction as it stands. */
  function SetID(c: Crypto, enc: Encoder, tx: Transaction): (r: Transaction)
    ensures r.inputs == tx.inputs && r.outputs == tx.outputs
    ensures tx.id == [] ==> r.id == Hash(c, enc, r)
  {
    tx.(id := c.sha256(enc(tx)))
  }

  predicate IsCoinbase(tx: Transaction)
  {
    |tx.inputs| == 1 && |tx.inputs[0].id| == 0 && tx.inputs[0].out == -1
  }

  // ---------------------------------------------------------------------------
  // Coinbase

  /** `"Coins to "`, the default coinbase data is this followed by the address. */
  const CoinsTo: Bytes := Ascii("Coins to ")

  /** One input (no ID, index -1, the data as its public key) and one output of the
      reward locked to `to`; the ID is the hash of that content. */
  function CoinbaseTx(c: Crypto, enc: Encoder, to: Bytes, data: Bytes): (r: Result<Transaction>)
    ensures r.Ok? <==> NewTxOutput(c, CoinbaseReward, to).Ok?
    ensures r.Ok? ==> IsCoinbase(r.value)
    ensures r.Ok? ==> r.value.inputs == [TxInput([], -1, [], if data == [] then CoinsTo + to else data)]
    ensures r.Ok? ==> |r.value.outputs| == 1 && r.value.outputs[0].value == CoinbaseReward
    ensures r.Ok? ==> r.value.outputs[0] == NewTxOutput(c, CoinbaseReward, to).value
    ensures r.Ok? ==> r.value.id == Hash(c, enc, r.value)
  {
    var data := if data == [] then CoinsTo + to else data;
    var txIn := TxInput([], -1, [], data);
    var txOut :- NewTxOutput(c, CoinbaseReward, to);
    Ok(SetID(c, enc, Transaction([], [txIn], [txOut])))
  }

  // ---------------------------------------------------------------------------
  // Trimmed copy

  function TrimInput(input: TxInput): TxInput
  {
    TxInput(input.id, input.out, [], [])
  }

  /** The copy that signing and verification hash: same ID and outputs, every input
      reduced to its reference, signatures and public keys cleared. */
  function Trimmed(tx: Transaction): (r: Transaction)
    ensures r.id == tx.id && r.outputs == tx.outputs && |r.inputs| == |tx.inputs|
    ensures forall i :: 0 <= i < |tx.inputs| ==>
              r.inputs[i].id == tx.inputs[i].id && r.inputs[i].out == tx.inputs[i].out &&
              r.inputs[i].signature == [] && r.inputs[i].publicKey == []
  {
    Transaction(tx.id, seq(|tx.inputs|, i requires 0 <= i < |tx.inputs| => TrimInput(tx.inputs[i])), tx.outputs)
  }

  /** The trimmed copy depends on the inputs only through their references. */
  lemma TrimmedDependsOnReferences(tx: Transaction, tx': Transaction)
    requires tx.id == tx'.id && tx.outputs == tx'.outputs && |tx.inputs| == |tx'.inputs|
    requires forall i :: 0 <= i < |tx.inputs| ==>
               tx.inputs[i].id == tx'.inputs[i].id && tx.inputs[i].out == tx'.inputs[i].out
    ensures Trimmed(tx) == Trimmed(tx')
  {
    assert Trimmed(tx).inputs == Trimmed(tx').inputs;
  }

  method TrimmedCopy(tx: Transaction) returns (r: Transaction)
    ensures r == Trimmed(tx)
  {
    var inputs: seq<TxInput> := [];
    var outputs: seq<TxOutput> := [];
    for i := 0 to |tx.inputs|
      invariant inputs == Trimmed(tx).inputs[..i]
    {
      var input := tx.inputs[i];
      inputs := inputs + [TxInput(input.id, input.out, [], [])];
    }
    for i := 0 to |tx.outputs|
      invariant outputs == tx.outputs[..i]
    {
      var output := tx.outputs[i];
      outputs := outputs + [TxOutput(output.value, output.pubKeyHash)];
    }
    r := Transaction(tx.id, inputs, outputs);
  }

  // ---------------------------------------------------------------------------
  // Signing digest

  /** `prevTXs[hex(input.ID)].ID == nil` is false: the referenced transaction is known.
      A missing key yields Go's zero Transaction, whose ID is nil. */
  predicate HasPrior(prevTXs: map<Bytes, Transaction>, input: TxInput)
  {
    input.id in prevTXs && prevTXs[input.id].id != []
  }

  predicate AllPriorsPresent(tx: Transaction, prevTXs: map<Bytes, Transaction>)
  {
    forall i :: 0 <= i < |tx.inputs| ==> HasPrior(prevTXs, tx.inputs[i])
  }

  /** `prevTX.Outputs[input.Out]` is in range. */
  predicate ValidOutIndex(prevTXs: map<Bytes, Transaction>, input: TxInput)
    requires HasPrior(prevTXs, input)
  {
    0 <= input.out < |prevTXs[input.id].outputs|
  }

  /** The key hash of the output an input spends. */
  function PriorKeyHash(prevTXs: map<Bytes, Transaction>, input: TxInput): Bytes
    requires HasPrior(prevTXs, input) && ValidOutIndex(prevTXs, input)
  {
    prevTXs[input.id].outputs[input.out].pubKeyHash
  }

  /** The trimmed copy with input i's public key set to `keyHash`, every other input's nil. */
  function DigestPreimage(tx: Transaction, i: nat, keyHash: Bytes): (r: Transaction)
    requires i < |tx.inputs|
    ensures r.outputs == tx.outputs && |r.inputs| == |tx.inputs|
    ensures forall j :: 0 <= j < |tx.inputs| ==>
              r.inputs[j] == TxInput(tx.inputs[j].id, tx.inputs[j].out, [], if j == i then keyHash else [])
  {
    var t := Trimmed(tx);
    t.(inputs := t.inputs[i := t.inputs[i].(publicKey := keyHash)])
  }

  /** The digest signed for, and verified against, input i. */
  function SigningDigest(c: Crypto, enc: Encoder, tx: Transaction, prevTXs: map<Bytes, Transaction>, i: nat): Digest
    requires i < |tx.inputs| && HasPrior(prevTXs, tx.inputs[i]) && ValidOutIndex(prevTXs, tx.inputs[i])
  {
    Hash(c, enc, DigestPreimage(tx, i, PriorKeyHash(prevTXs, tx.inputs[i])))
  }

  /** The digest of input i depends only on the references of the inputs, the ID and the
      outputs: it is the same before and after signatures or public keys are filled in. */
  lemma SigningDigestIgnoresSignatures(c: Crypto, enc: Encoder, tx: Transaction, tx': Transaction,
                                       prevTXs: map<Bytes, Transaction>, i: nat)
    requires tx.outputs == tx'.outputs && |tx.inputs| == |tx'.inputs|
    requires forall j :: 0 <= j < |tx.inputs| ==>
               tx.inputs[j].id == tx'.inputs[j].id && tx.inputs[j].out == tx'.inputs[j].out
    requires i < |tx.inputs| && HasPrior(prevTXs, tx.inputs[i]) && ValidOutIndex(prevTXs, tx.inputs[i])
    ensures SigningDigest(c, enc, tx, prevTXs, i) == SigningDigest(c, enc, tx', prevTXs, i)
  {
    var k := PriorKeyHash(prevTXs, tx.inputs[i]);
    var p, p' := DigestPreimage(tx, i, k), DigestPreimage(tx', i, k);
    assert p.inputs == p'.inputs;
    assert p'.(id := []) == p.(id := []);
  }

  /** `append(r.Bytes(), s.Bytes()...)` for the pair the signer returns. */
  function SignatureOf(c: Crypto, privateKey: Bytes, digest: Bytes): Bytes
  {
    var (r, s) := c.ecdsaSign(privateKey, digest);
    r + s
  }

  // ---------------------------------------------------------------------------
  // Sign

  predicate AllOutIndicesValid(tx: Transaction, prevTXs: map<Bytes, Transaction>)
    requires AllPriorsPresent(tx, prevTXs)
  {
    forall i :: 0 <= i < |tx.inputs| ==> ValidOutIndex(prevTXs, tx.inputs[i])
  }

  /** What `Sign` leaves in the transaction. */
  function SignResult(c: Crypto, enc: Encoder, tx: Transaction, privateKey: Bytes,
                      prevTXs: map<Bytes, Transaction>): Result<Transaction>
  {
    if IsCoinbase(tx) then Ok(tx)
    else if !AllPriorsPresent(tx, prevTXs) then Err(MissingPriorTransaction)
    else if !AllOutIndicesValid(tx, prevTXs) then Err(IndexOutOfRange)
    else
      Ok(tx.(inputs := seq(|tx.inputs|, i requires 0 <= i < |tx.inputs| =>
                         tx.inputs[i].(signature := SignatureOf(c, privateKey, SigningDigest(c, enc, tx, prevTXs, i))))))
  }

  /** What signing yields: the transaction itself for a coinbase; an error when a prior
      transaction is missing or an output index is out of range; otherwise the same
      transaction with the signature of its own digest stored in each input. */
  lemma SignResultMeaning(c: Crypto, enc: Encoder, tx: Transaction, privateKey: Bytes,
                          prevTXs: map<Bytes, Transaction>)
    ensures var r := SignResult(c, enc, tx, privateKey, prevTXs);
            (IsCoinbase(tx) ==> r == Ok(tx)) &&
            (!IsCoinbase(tx) && !AllPriorsPresent(tx, prevTXs) ==> r == Err(MissingPriorTransaction)) &&
            (r.Ok? <==> IsCoinbase(tx) || (AllPriorsPresent(tx, prevTXs) && AllOutIndicesValid(tx, prevTXs)))
    ensures var r := SignResult(c, enc, tx, privateKey, prevTXs);
            r.Ok? ==> r.value.id == tx.id && r.value.outputs == tx.outputs && |r.value.inputs| == |tx.inputs| &&
                      forall i :: 0 <= i < |tx.inputs| ==>
                        r.value.inputs[i].id == tx.inputs[i].id && r.value.inputs[i].out == tx.inputs[i].out &&
                        r.value.inputs[i].publicKey == tx.inputs[i].publicKey
    ensures var r := SignResult(c, enc, tx, privateKey, prevTXs);
            r.Ok? && !IsCoinbase(tx) ==>
              forall i :: 0 <= i < |tx.inputs| ==>
                r.value.inputs[i].signature == SignatureOf(c, privateKey, SigningDigest(c, enc, tx, prevTXs, i))
  {
  }

  /** Refuse if any input's prior transaction is unknown; otherwise sign the digest of
      each input in turn on a trimmed copy and store the signature in the input. */
  method Sign(c: Crypto, enc: Encoder, tx: Transaction, privateKey: Bytes,
              prevTXs: map<Bytes, Transaction>) returns (r: Result<Transaction>)
    ensures r == SignResult(c, enc, tx, privateKey, prevTXs)
  {
    if IsCoinbase(tx) {
      return Ok(tx);
    }
    for i := 0 to |tx.inputs|
      invariant forall j :: 0 <= j < i ==> HasPrior(prevTXs, tx.inputs[j])
    {
      if !HasPrior(prevTXs, tx.inputs[i]) {
        return Err(MissingPriorTransaction);
      }
    }
    var txCopy := TrimmedCopy(tx);
    var inputs := tx.inputs;
    for index := 0 to |txCopy.inputs|
      invariant txCopy.inputs == Trimmed(tx).inputs && txCopy.outputs == tx.outputs
      invariant |inputs| == |tx.inputs|
      invariant forall j :: 0 <= j < index ==> ValidOutIndex(prevTXs, tx.inputs[j])
      invariant forall j :: 0 <= j < index ==>
                  inputs[j] == tx.inputs[j].(signature := SignatureOf(c, privateKey, SigningDigest(c, enc, tx, prevTXs, j)))
      invariant forall j :: index <= j < |inputs| ==> inputs[j] == tx.inputs[j]
    {
      var input := txCopy.inputs[index];
      var prevTX := prevTXs[input.id];
      if !(0 <= input.out < |prevTX.outputs|) {
        return Err(IndexOutOfRange);
      }
      var signature;
      signature, txCopy := SignInput(c, enc, tx, privateKey, prevTXs, index, txCopy);
      inputs := inputs[index := inputs[index].(signature := signature)];
    }
    SignedAll(c, enc, tx, privateKey, prevTXs, inputs);
    r := Ok(tx.(inputs := inputs));
  }

  /** Inputs signed one by one, each with the signature of its own digest, are what SignResult
      describes. */
  lemma SignedAll(c: Crypto, enc: Encoder, tx: Transaction, privateKey: Bytes,
                  prevTXs: map<Bytes, Transaction>, inputs: seq<TxInput>)
    requires !IsCoinbase(tx) && AllPriorsPresent(tx, prevTXs) && AllOutIndicesValid(tx, prevTXs)
    requires |inputs| == |tx.inputs|
    requires forall j :: 0 <= j < |inputs| ==>
               inputs[j] == tx.inputs[j].(signature := SignatureOf(c, privateKey, SigningDigest(c, enc, tx, prevTXs, j)))
    ensures SignResult(c, enc, tx, privateKey, prevTXs) == Ok(tx.(inputs := inputs))
  {
    assert SignResult(c, enc, tx, privateKey, prevTXs).value.inputs == inputs;
  }

  // ---------------------------------------------------------------------------
  // Verify

  /** ECDSA verification of input i: the signature and the public key are each split
      into two equal halves, (r, s) and the point (x, y). */
  function InputVerifies(c: Crypto, enc: Encoder, tx: Transaction, prevTXs: map<Bytes, Transaction>, i: nat): bool
    requires i < |tx.inputs| && HasPrior(prevTXs, tx.inputs[i]) && ValidOutIndex(prevTXs, tx.inputs[i])
  {
    var input := tx.inputs[i];
    var sig := input.signature;
    var key := input.publicKey;
    c.ecdsaVerify(key[..|key| / 2], key[|key| / 2..], SigningDigest(c, enc, tx, prevTXs, i),
                  sig[..|sig| / 2], sig[|sig| / 2..])
  }

  /** Inputs i, i+1, ... in order: out of range index fails, a failed check returns false. */
  function VerifyFrom(c: Crypto, enc: Encoder, tx: Transaction, prevTXs: map<Bytes, Transaction>, i: nat): Result<bool>
    requires AllPriorsPresent(tx, prevTXs) && i <= |tx.inputs|
    decreases |tx.inputs| - i
  {
    if i == |tx.inputs| then Ok(true)
    else if !ValidOutIndex(prevTXs, tx.inputs[i]) then Err(IndexOutOfRange)
    else if !InputVerifies(c, enc, tx, prevTXs, i) then Ok(false)
    else VerifyFrom(c, enc, tx, prevTXs, i + 1)
  }

  /** The only error checking from input i on reports is a bad index. */
  lemma {:induction false} VerifyFromError(c: Crypto, enc: Encoder, tx: Transaction, prevTXs: map<Bytes, Transaction>, i: nat)
    requires AllPriorsPresent(tx, prevTXs) && i <= |tx.inputs|
    decreases |tx.inputs| - i
    ensures VerifyFrom(c, enc, tx, prevTXs, i).Err? ==> VerifyFrom(c, enc, tx, prevTXs, i).error == IndexOutOfRange
  {
    if i < |tx.inputs| && ValidOutIndex(prevTXs, tx.inputs[i]) && InputVerifies(c, enc, tx, prevTXs, i) {
      VerifyFromError(c, enc, tx, prevTXs, i + 1);
    }
  }

  /** Checking from input i on succeeds iff every later input has a valid index and a valid
      signature. */
  lemma {:induction false} VerifyFromAccepts(c: Crypto, enc: Encoder, tx: Transaction, prevTXs: map<Bytes, Transaction>, i: nat)
    requires AllPriorsPresent(tx, prevTXs) && i <= |tx.inputs|
    decreases |tx.inputs| - i
    ensures VerifyFrom(c, enc, tx, prevTXs, i) == Ok(true) <==>
              forall j :: i <= j < |tx.inputs| ==> ValidOutIndex(prevTXs, tx.inputs[j]) && InputVerifies(c, enc, tx, prevTXs, j)
  {
    if i < |tx.inputs| && ValidOutIndex(prevTXs, tx.inputs[i]) && InputVerifies(c, enc, tx, prevTXs, i) {
      VerifyFromAccepts(c, enc, tx, prevTXs, i + 1);
    }
  }

  /** Checking from input i on returns false iff the first later input that is not valid has a
      valid index and a bad signature. */
  lemma {:induction false} VerifyFromRejects(c: Crypto, enc: Encoder, tx: Transaction, prevTXs: map<Bytes, Transaction>, i: nat)
    requires AllPriorsPresent(tx, prevTXs) && i <= |tx.inputs|
    decreases |tx.inputs| - i
    ensures VerifyFrom(c, enc, tx, prevTXs, i) == Ok(false) <==>
              exists j :: i <= j < |tx.inputs| && ValidOutIndex(prevTXs, tx.inputs[j]) && !InputVerifies(c, enc, tx, prevTXs, j) &&
                forall k :: i <= k < j ==> ValidOutIndex(prevTXs, tx.inputs[k]) && InputVerifies(c, enc, tx, prevTXs, k)
  {
    if i < |tx.inputs| && ValidOutIndex(prevTXs, tx.inputs[i]) && InputVerifies(c, enc, tx, prevTXs, i) {
      VerifyFromRejects(c, enc, tx, prevTXs, i + 1);
    }
  }

  /** What `Verify` returns. */
  function VerifyResult(c: Crypto, enc: Encoder, tx: Transaction, prevTXs: map<Bytes, Transaction>): Result<bool>
  {
    if IsCoinbase(tx) then Ok(true)
    else if !AllPriorsPresent(tx, prevTXs) then Err(MissingPriorTransaction)
    else VerifyFrom(c, enc, tx, prevTXs, 0)
  }

  /** A coinbase verifies; any other transaction with a prior missing is refused; otherwise
      it verifies iff every input has a valid index and a valid signature. */
  lemma VerifyMeaning(c: Crypto, enc: Encoder, tx: Transaction, prevTXs: map<Bytes, Transaction>)
    ensures IsCoinbase(tx) ==> VerifyResult(c, enc, tx, prevTXs) == Ok(true)
    ensures !IsCoinbase(tx) && !AllPriorsPresent(tx, prevTXs) ==>
              VerifyResult(c, enc, tx, prevTXs) == Err(MissingPriorTransaction)
    ensures !IsCoinbase(tx) && AllPriorsPresent(tx, prevTXs) ==>
              (VerifyResult(c, enc, tx, prevTXs) == Ok(true) <==>
                 forall j :: 0 <= j < |tx.inputs| ==>
                   ValidOutIndex(prevTXs, tx.inputs[j]) && InputVerifies(c, enc, tx, prevTXs, j))
  {
    if !IsCoinbase(tx) && AllPriorsPresent(tx, prevTXs) {
      VerifyFromAccepts(c, enc, tx, prevTXs, 0);
    }
  }

  /** True for a coinbase; otherwise refuse unknown priors, then check every input's
      signature in order and return false at the first that fails. */
  method Verify(c: Crypto, enc: Encoder, tx: Transaction, prevTXs: map<Bytes, Transaction>) returns (r: Result<bool>)
    ensures r == VerifyResult(c, enc, tx, prevTXs)
  {
    if IsCoinbase(tx) {
      return Ok(true);
    }
    for i := 0 to |tx.inputs|
      invariant forall j :: 0 <= j < i ==> HasPrior(prevTXs, tx.inputs[j])
    {
      if !HasPrior(prevTXs, tx.inputs[i]) {
        return Err(MissingPriorTransaction);
      }
    }
    var txCopy := TrimmedCopy(tx);
    for index := 0 to |tx.inputs|
      invariant txCopy.inputs == Trimmed(tx).inputs && txCopy.outputs == tx.outputs
      invariant VerifyFrom(c, enc, tx, prevTXs, 0) == VerifyFrom(c, enc, tx, prevTXs, index)
    {
      var input := tx.inputs[index];
      var prevTX := prevTXs[input.id];
      if !(0 <= input.out < |prevTX.outputs|) {
        return Err(IndexOutOfRange);
      }
      var valid;
      valid, txCopy := VerifyInput(c, enc, tx, prevTXs, index, txCopy);
      if !valid {
        return Ok(false);
      }
    }
    return Ok(true);
  }

  /** One round of the verification loop: rebuild the digest of input `index` on the trimmed
      copy, then check the input's signature against its public key. */
  method VerifyInput(c: Crypto, enc: Encoder, tx: Transaction, prevTXs: map<Bytes, Transaction>, index: nat,
                     txCopy0: Transaction) returns (valid: bool, txCopy: Transaction)
    requires index < |tx.inputs| && HasPrior(prevTXs, tx.inputs[index]) && ValidOutIndex(prevTXs, tx.inputs[index])
    requires txCopy0.inputs == Trimmed(tx).inputs && txCopy0.outputs == tx.outputs
    ensures txCopy.inputs == Trimmed(tx).inputs && txCopy.outputs == tx.outputs
    ensures valid == InputVerifies(c, enc, tx, prevTXs, index)
  {
    var input := tx.inputs[index];
    var prevTX := prevTXs[input.id];
    txCopy := txCopy0.(inputs := txCopy0.inputs[index := txCopy0.inputs[index].(signature := [])]);
    txCopy := txCopy.(inputs := txCopy.inputs[index := txCopy.inputs[index].(publicKey := prevTX.outputs[input.out].pubKeyHash)]);
    assert txCopy == DigestPreimage(tx, index, PriorKeyHash(prevTXs, input)).(id := txCopy0.id);
    HashIgnoresId(c, enc, DigestPreimage(tx, index, PriorKeyHash(prevTXs, input)), txCopy0.id);
    txCopy := txCopy.(id := Hash(c, enc, txCopy));
    txCopy := txCopy.(inputs := txCopy.inputs[index := txCopy.inputs[index].(publicKey := [])]);
    assert txCopy.inputs == Trimmed(tx).inputs;

    var sigLen := |input.signature|;
    var r, s := input.signature[..sigLen / 2], input.signature[sigLen / 2..];
    var keyLen := |input.publicKey|;
    var x, y := input.publicKey[..keyLen / 2], input.publicKey[keyLen / 2..];
    valid := c.ecdsaVerify(x, y, txCopy.id, r, s);
  }

  /** One round of the signing loop: rebuild the digest of input `index` on the trimmed copy
      and sign it with the private key. */
  method SignInput(c: Crypto, enc: Encoder, tx: Transaction, privateKey: Bytes, prevTXs: map<Bytes, Transaction>,
                   index: nat, txCopy0: Transaction) returns (signature: Bytes, txCopy: Transaction)
    requires index < |tx.inputs| && HasPrior(prevTXs, tx.inputs[index]) && ValidOutIndex(prevTXs, tx.inputs[index])
    requires txCopy0.inputs == Trimmed(tx).inputs && txCopy0.outputs == tx.outputs
    ensures txCopy.inputs == Trimmed(tx).inputs && txCopy.outputs == tx.outputs
    ensures signature == SignatureOf(c, privateKey, SigningDigest(c, enc, tx, prevTXs, index))
  {
    var input := tx.inputs[index];
    var prevTX := prevTXs[input.id];
    txCopy := txCopy0.(inputs := txCopy0.inputs[index := txCopy0.inputs[index].(signature := [])]);
    txCopy := txCopy.(inputs := txCopy.inputs[index := txCopy.inputs[index].(publicKey := prevTX.outputs[input.out].pubKeyHash)]);
    assert txCopy == DigestPreimage(tx, index, PriorKeyHash(prevTXs, input)).(id := txCopy0.id);
    HashIgnoresId(c, enc, DigestPreimage(tx, index, PriorKeyHash(prevTXs, input)), txCopy0.id);
    txCopy := txCopy.(id := Hash(c, enc, txCopy));
    txCopy := txCopy.(inputs := txCopy.inputs[index := txCopy.inputs[index].(publicKey := [])]);
    assert txCopy.inputs == Trimmed(tx).inputs;
    var (r, s) := c.ecdsaSign(privateKey, txCopy.id);
    signature := r + s;
  }

  // ---------------------------------------------------------------------------
  // Sign, then Verify

  /** Signing with `privateKey` yields (r, s) pairs that verify under `publicKey` split into
      its halves (x, y), for every digest: ECDSA correctness, stated for one key pair. */
  ghost predicate KeyPairSound(c: Crypto, privateKey: Bytes, publicKey: Bytes)
  {
    forall d: Bytes ::
      var (r, s) := c.ecdsaSign(privateKey, d);
      c.ecdsaVerify(publicKey[..|publicKey| / 2], publicKey[|publicKey| / 2..], d, r, s)
  }

  /** The signer's r and s always have the same length, so that splitting r ‖ s in half gives
      them back. `big.Int.Bytes` drops leading zero bytes, so Go does not guarantee this. */
  ghost predicate EqualWidthScalars(c: Crypto, privateKey: Bytes)
  {
    forall d: Bytes :: |c.ecdsaSign(privateKey, d).0| == |c.ecdsaSign(privateKey, d).1|
  }

  /** A transaction whose inputs all carry `publicKey`, signed with the matching private key
      against priors that resolve every input, verifies against the same priors, provided the
      signer's r and s have equal widths. */
  lemma SignedVerifies(c: Crypto, enc: Encoder, tx: Transaction, privateKey: Bytes, publicKey: Bytes,
                       prevTXs: map<Bytes, Transaction>)
    requires SignResult(c, enc, tx, privateKey, prevTXs).Ok?
    requires KeyPairSound(c, privateKey, publicKey)
    requires EqualWidthScalars(c, privateKey)
    requires forall i :: 0 <= i < |tx.inputs| ==> tx.inputs[i].publicKey == publicKey
    ensures VerifyResult(c, enc, SignResult(c, enc, tx, privateKey, prevTXs).value, prevTXs) == Ok(true)
  {
    var signed := SignResult(c, enc, tx, privateKey, prevTXs).value;
    if !IsCoinbase(tx) {
      assert !IsCoinbase(signed);
      assert AllPriorsPresent(signed, prevTXs);
      forall j | 0 <= j < |signed.inputs|
        ensures ValidOutIndex(prevTXs, signed.inputs[j]) && InputVerifies(c, enc, signed, prevTXs, j)
      {
        SigningDigestIgnoresSignatures(c, enc, tx, signed, prevTXs, j);
        var d := SigningDigest(c, enc, tx, prevTXs, j);
        var (r, s) := c.ecdsaSign(privateKey, d);
        var sig := signed.inputs[j].signature;
        assert sig == r + s;
        assert |r| == |s|;
        assert sig[..|sig| / 2] == r && sig[|sig| / 2..] == s;
      }
      VerifyMeaning(c, enc, signed, prevTXs);
    }
  }

  // ---------------------------------------------------------------------------
  // Building a transfer

  /** Sum of the values of a list of outputs. */
  function SumValues(outs: seq<TxOutput>): int
  {
    if outs == [] then 0 else SumValues(outs[..|outs| - 1]) + outs[|outs| - 1].value
  }

  /** The outputs of a transfer: the payment to the receiver, then change back to the
      sender when the selected outputs exceed the amount. */
  function TransferOutputs(c: Crypto, sender: Bytes, receiver: Bytes, amount: int, accumulated: int): (r: Result<seq<TxOutput>>)
    ensures accumulated < amount ==> r == Err(InsufficientFunds)
    ensures r.Ok? <==> accumulated >= amount && NewTxOutput(c, amount, receiver).Ok? &&
                       (accumulated > amount ==> NewTxOutput(c, accumulated - amount, sender).Ok?)
    ensures r.Ok? ==> |r.value| == (if accumulated > amount then 2 else 1)
    ensures r.Ok? ==> r.value[0] == NewTxOutput(c, amount, receiver).value && r.value[0].value == amount
    ensures r.Ok? && accumulated > amount ==>
              r.value[1] == NewTxOutput(c, accumulated - amount, sender).value && r.value[1].value == accumulated - amount
    ensures r.Ok? ==> SumValues(r.value) == accumulated
  {
    if accumulated < amount then Err(InsufficientFunds)
    else
      var payment :- NewTxOutput(c, amount, receiver);
      if accumulated > amount then
        var payBack :- NewTxOutput(c, accumulated - amount, sender);
        assert [payment, payBack][..1] == [payment] && [payment][..0] == [];
        assert SumValues([payment]) == payment.value;
        assert SumValues([payment, payBack]) == SumValues([payment]) + payBack.value;
        Ok([payment, payBack])
      else
        assert [payment][..0] == [];
        Ok([payment])
  }

  /** The (ID, index) references of a list of inputs. */
  function Outpoints(inputs: seq<TxInput>): (r: seq<(Bytes, int)>)
    ensures |r| == |inputs|
  {
    if inputs == [] then [] else Outpoints(inputs[..|inputs| - 1]) + [(inputs[|inputs| - 1].id, inputs[|inputs| - 1].out)]
  }

  /** How many inputs reference output `out` of transaction `id`. */
  function Multiplicity(inputs: seq<TxInput>, id: Bytes, out: int): nat
  {
    multiset(Outpoints(inputs))[(id, out)]
  }

  /** How many times `out` is listed under `id` in a selection map. */
  function SelectedCount(selection: map<Bytes, seq<int>>, id: Bytes, out: int): nat
  {
    if id in selection then multiset(selection[id])[out] else 0
  }

  /** Inputs that reference the same outputs in the same order have the same outpoints,
      whatever their signatures and keys. */
  lemma {:induction false} OutpointsAgree(a: seq<TxInput>, b: seq<TxInput>)
    requires |a| == |b| && forall i :: 0 <= i < |a| ==> a[i].id == b[i].id && a[i].out == b[i].out
    ensures Outpoints(a) == Outpoints(b)
  {
    if a != [] {
      OutpointsAgree(a[..|a| - 1], b[..|b| - 1]);
    }
  }

  lemma MultiplicityAppend(inputs: seq<TxInput>, x: TxInput)
    ensures forall id, out :: Multiplicity(inputs + [x], id, out) ==
                                Multiplicity(inputs, id, out) + (if x.id == id && x.out == out then 1 else 0)
  {
    assert (inputs + [x])[..|inputs|] == inputs;
  }

  /** One unsigned input, carrying the sender's public key, per selected (ID, index) pair.
      The selection map is visited in an arbitrary order, as Go's map iteration is. */
  method BuildInputs(selection: map<Bytes, seq<int>>, publicKey: Bytes) returns (inputs: seq<TxInput>)
    ensures forall i :: 0 <= i < |inputs| ==> inputs[i].signature == [] && inputs[i].publicKey == publicKey
    ensures forall id, out :: Multiplicity(inputs, id, out) == SelectedCount(selection, id, out)
  {
    inputs := [];
    var keys := selection.Keys;
    ghost var done: set<Bytes> := {};
    while keys != {}
      invariant keys !! done && keys + done == selection.Keys
      invariant forall i :: 0 <= i < |inputs| ==> inputs[i].signature == [] && inputs[i].publicKey == publicKey
      invariant forall id, out :: Multiplicity(inputs, id, out) == if id in done then SelectedCount(selection, id, out) else 0
      decreases keys
    {
      var txID :| txID in keys;
      inputs := AppendInputs(inputs, txID, selection[txID], publicKey);
      done := done + {txID};
      keys := keys - {txID};
    }
  }

  /** The inner loop of the input construction: one unsigned input per listed index of
      transaction `txID`, appended in list order. */
  method AppendInputs(inputs0: seq<TxInput>, txID: Bytes, outs: seq<int>, publicKey: Bytes) returns (inputs: seq<TxInput>)
    requires forall i :: 0 <= i < |inputs0| ==> inputs0[i].signature == [] && inputs0[i].publicKey == publicKey
    ensures forall i :: 0 <= i < |inputs| ==> inputs[i].signature == [] && inputs[i].publicKey == publicKey
    ensures forall id, out :: Multiplicity(inputs, id, out) ==
              Multiplicity(inputs0, id, out) + (if id == txID then multiset(outs)[out] else 0)
  {
    inputs := inputs0;
    for j := 0 to |outs|
      invariant forall i :: 0 <= i < |inputs| ==> inputs[i].signature == [] && inputs[i].publicKey == publicKey
      invariant forall id, out :: Multiplicity(inputs, id, out) ==
                  Multiplicity(inputs0, id, out) + (if id == txID then multiset(outs[..j])[out] else 0)
    {
      var input := TxInput(txID, outs[j], [], publicKey);
      MultiplicityAppend(inputs, input);
      SliceExtend(outs, j);
      inputs := inputs + [input];
    }
    SliceAll(outs);
  }
}

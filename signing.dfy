/** How a signature is laid out: `Sign` stores r ‖ s with each half as short as `big.Int.Bytes`
    makes it, and `Verify` splits the signature at half its length. The two agree only when r
    and s have the same width. Here are a signer whose r is one byte wider than its s (r's
    leading byte is non-zero and s's is zero, which Go's encoding drops), and the corrected
    layout with each half written in exactly 32 bytes. */
module Signing {
  import opened Primitives
  import opened Tx
  import opened Transactions
  import Proof

  // ---------------------------------------------------------------------------
  // As written: r and s of unequal widths

  /** A 32-byte r with no leading zero. */
  const WideR: Bytes := seq(32, _ => 1)

  /** A 31-byte s: a 32-byte scalar whose leading zero byte `s.Bytes()` dropped. */
  const NarrowS: Bytes := seq(31, _ => 1)

  /** A signer that always returns (WideR, NarrowS), and a verifier that accepts exactly that
      pair: the two are correct for each other, whatever the key and the digest. */
  function UnevenCrypto(): (c: Crypto)
    ensures forall k, d :: c.ecdsaSign(k, d) == (WideR, NarrowS)
  {
    Crypto(
      _ => Zeros(32),
      b => b,
      b => b,
      b => Some(b),
      (k, d) => (WideR, NarrowS),
      (x, y, d, r, s) => r == WideR && s == NarrowS)
  }

  /** A transaction with one input, spending output 0 of transaction [7]. */
  function Spender(): Transaction
  {
    Transaction([9], [TxInput([7], 0, [], Zeros(64))], [TxOutput(10, [3])])
  }

  function SpenderPriors(): map<Bytes, Transaction>
  {
    map[[7] := Transaction([7], [], [TxOutput(10, [3])])]
  }

  /** Signing succeeds with a key pair for which the signer and the verifier agree, and yet
      the signed transaction fails verification: the 63-byte signature is split into 31 and
      32 bytes, so neither half is the r or the s that was signed. */
  lemma UnevenScalarsRejected()
    ensures KeyPairSound(UnevenCrypto(), [1], Zeros(64))
    ensures !EqualWidthScalars(UnevenCrypto(), [1])
    ensures SignResult(UnevenCrypto(), _ => [], Spender(), [1], SpenderPriors()).Ok?
    ensures VerifyResult(UnevenCrypto(), _ => [], SignResult(UnevenCrypto(), _ => [], Spender(), [1], SpenderPriors()).value,
                         SpenderPriors()) == Ok(false)
  {
    var c, enc: Encoder, tx, prevTXs := UnevenCrypto(), _ => [], Spender(), SpenderPriors();
    assert c.ecdsaSign([1], []) == (WideR, NarrowS);
    assert HasPrior(prevTXs, tx.inputs[0]);
    assert !IsCoinbase(tx) && AllPriorsPresent(tx, prevTXs) && AllOutIndicesValid(tx, prevTXs);
    var signed := SignResult(c, enc, tx, [1], prevTXs).value;
    var sig := signed.inputs[0].signature;
    assert sig == WideR + NarrowS;
    assert |sig[..|sig| / 2]| == 31;
    assert !InputVerifies(c, enc, signed, prevTXs, 0);
    assert VerifyFrom(c, enc, signed, prevTXs, 0) == Ok(false);
  }

  // ---------------------------------------------------------------------------
  // Corrected: fixed-width halves

  /** The width of a P-256 scalar in bytes. */
  const ScalarWidth: nat := 32

  /** `b` left-padded with zeros to 32 bytes (Go's `FillBytes`); wider input is kept. */
  function Pad(b: Bytes): (r: Bytes)
    ensures |b| <= ScalarWidth ==> |r| == ScalarWidth
    ensures |b| > ScalarWidth ==> r == b
  {
    if |b| <= ScalarWidth then Zeros(ScalarWidth - |b|) + b else b
  }

  /** Padding keeps the number the bytes stand for. */
  lemma PadKeepsValue(b: Bytes)
    ensures Proof.FromBigEndian(Pad(b)) == Proof.FromBigEndian(b)
  {
    if |b| <= ScalarWidth {
      var z := Zeros(ScalarWidth - |b|);
      Proof.FromBigEndianAppend(z, b);
      ZerosValue(|z|);
    }
  }

  lemma {:induction false} ZerosValue(n: nat)
    ensures Proof.FromBigEndian(Zeros(n)) == 0
  {
    if n > 0 {
      assert Zeros(n)[..n - 1] == Zeros(n - 1);
      ZerosValue(n - 1);
    }
  }

  /** Every r and s the signer returns fits in 32 bytes, as every P-256 scalar does. */
  ghost predicate ScalarsFit(c: Crypto, privateKey: Bytes)
  {
    forall d: Bytes :: |c.ecdsaSign(privateKey, d).0| <= ScalarWidth && |c.ecdsaSign(privateKey, d).1| <= ScalarWidth
  }

  /** The verifier reads r and s as numbers (`big.Int.SetBytes`), so leading zero bytes do not
      change its answer. */
  ghost predicate LeadingZerosIgnored(c: Crypto)
  {
    forall x, y, d, r, s :: |r| <= ScalarWidth && |s| <= ScalarWidth ==>
      c.ecdsaVerify(x, y, d, Pad(r), Pad(s)) == c.ecdsaVerify(x, y, d, r, s)
  }

  /** r ‖ s with each half padded to 32 bytes. */
  function FixedWidthSignatureOf(c: Crypto, privateKey: Bytes, digest: Bytes): Bytes
  {
    var (r, s) := c.ecdsaSign(privateKey, digest);
    Pad(r) + Pad(s)
  }

  /** `Sign` with the fixed-width layout: the same checks and the same errors. */
  function FixedWidthSignResult(c: Crypto, enc: Encoder, tx: Transaction, privateKey: Bytes,
                                prevTXs: map<Bytes, Transaction>): Result<Transaction>
  {
    if IsCoinbase(tx) then Ok(tx)
    else if !AllPriorsPresent(tx, prevTXs) then Err(MissingPriorTransaction)
    else if !AllOutIndicesValid(tx, prevTXs) then Err(IndexOutOfRange)
    else
      Ok(tx.(inputs := seq(|tx.inputs|, i requires 0 <= i < |tx.inputs| =>
                         tx.inputs[i].(signature := FixedWidthSignatureOf(c, privateKey, SigningDigest(c, enc, tx, prevTXs, i))))))
  }

  /** Splitting a fixed-width signature in half gives back the padded r and s. */
  lemma FixedWidthSplits(c: Crypto, privateKey: Bytes, digest: Bytes)
    requires ScalarsFit(c, privateKey)
    ensures var sig := FixedWidthSignatureOf(c, privateKey, digest);
            var (r, s) := c.ecdsaSign(privateKey, digest);
            sig[..|sig| / 2] == Pad(r) && sig[|sig| / 2..] == Pad(s)
  {
    var (r, s) := c.ecdsaSign(privateKey, digest);
    assert |r| <= ScalarWidth && |s| <= ScalarWidth;
  }

  /** With fixed-width halves, signing then verifying succeeds for every correct key pair:
      no hypothesis on the widths of r and s beyond their fitting in 32 bytes. */
  lemma FixedWidthSignedVerifies(c: Crypto, enc: Encoder, tx: Transaction, privateKey: Bytes, publicKey: Bytes,
                                 prevTXs: map<Bytes, Transaction>)
    requires FixedWidthSignResult(c, enc, tx, privateKey, prevTXs).Ok?
    requires KeyPairSound(c, privateKey, publicKey)
    requires ScalarsFit(c, privateKey) && LeadingZerosIgnored(c)
    requires forall i :: 0 <= i < |tx.inputs| ==> tx.inputs[i].publicKey == publicKey
    ensures VerifyResult(c, enc, FixedWidthSignResult(c, enc, tx, privateKey, prevTXs).value, prevTXs) == Ok(true)
  {
    var signed := FixedWidthSignResult(c, enc, tx, privateKey, prevTXs).value;
    if !IsCoinbase(tx) {
      assert !IsCoinbase(signed);
      assert AllPriorsPresent(signed, prevTXs);
      forall j | 0 <= j < |signed.inputs|
        ensures ValidOutIndex(prevTXs, signed.inputs[j]) && InputVerifies(c, enc, signed, prevTXs, j)
      {
        SigningDigestIgnoresSignatures(c, enc, tx, signed, prevTXs, j);
        var d := SigningDigest(c, enc, tx, prevTXs, j);
        var (r, s) := c.ecdsaSign(privateKey, d);
        FixedWidthSplits(c, privateKey, d);
        assert |r| <= ScalarWidth && |s| <= ScalarWidth;
        var x, y := publicKey[..|publicKey| / 2], publicKey[|publicKey| / 2..];
        assert c.ecdsaVerify(x, y, d, Pad(r), Pad(s)) == c.ecdsaVerify(x, y, d, r, s);
      }
      VerifyMeaning(c, enc, signed, prevTXs);
    }
  }
}

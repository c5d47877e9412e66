/** Transaction outputs (a value locked to a key hash) and inputs (a reference to a prior output). */
module Tx {
  import opened Primitives
  import Wallet

  datatype TxOutput = TxOutput(value: int, pubKeyHash: Bytes)

  /** `id` is the referenced transaction's ID, `out` the index of the output it spends. */
  datatype TxInput = TxInput(id: Bytes, out: int, signature: Bytes, publicKey: Bytes)

  /** Lock the output to the key hash carried by a base58 address: the decoded bytes without
      the version byte and the 4-byte checksum. Only the key hash changes. */
  function Lock(c: Crypto, out: TxOutput, address: Bytes): (r: Result<TxOutput>)
    ensures c.base58Decode(address).None? ==> r == Err(DecodeFailed)
    ensures r.Ok? <==> c.base58Decode(address).Some? && |c.base58Decode(address).value| >= 5
    ensures r.Ok? ==> r.value.value == out.value
    ensures r.Ok? ==> var d := c.base58Decode(address).value;
                      [d[0]] + r.value.pubKeyHash + d[|d| - 4..] == d
  {
    match c.base58Decode(address)
    case None => Err(DecodeFailed)
    case Some(pubKeyHash) =>
      if |pubKeyHash| < 5 then Err(IndexOutOfRange)
      else Ok(out.(pubKeyHash := Wallet.PayloadKeyHash(pubKeyHash)))
  }

  /** A fresh output of the given value, locked to the address. */
  function NewTxOutput(c: Crypto, value: int, address: Bytes): (r: Result<TxOutput>)
    ensures r.Ok? <==> Lock(c, TxOutput(value, []), address).Ok?
    ensures r.Ok? ==> r.value.value == value
    ensures r.Ok? ==> r.value.pubKeyHash == Wallet.PayloadKeyHash(c.base58Decode(address).value)
  {
    Lock(c, TxOutput(value, []), address)
  }

  /** Byte-for-byte equality of the output's key hash with the argument (`bytes.Compare == 0`). */
  function IsLockedWithKey(out: TxOutput, pubKeyHash: Bytes): (r: bool)
    ensures r <==> |out.pubKeyHash| == |pubKeyHash| &&
                   forall i :: 0 <= i < |pubKeyHash| ==> out.pubKeyHash[i] == pubKeyHash[i]
  {
    out.pubKeyHash == pubKeyHash
  }

  /** The input's public key hashes to the argument. */
  function UsesKey(c: Crypto, input: TxInput, pubKeyHash: Bytes): (r: bool)
    ensures r <==> var h := Wallet.PublicKeyHash(c, input.publicKey);
                   |h| == |pubKeyHash| && forall i :: 0 <= i < |pubKeyHash| ==> h[i] == pubKeyHash[i]
  {
    Wallet.PublicKeyHash(c, input.publicKey) == pubKeyHash
  }

  /** An output created for a wallet's own address is locked with that wallet's key hash
      and with no other. */
  lemma NewTxOutputForWallet(c: Crypto, value: int, w: Wallet.Wallet, pubKeyHash: Bytes)
    requires c.base58Decode(c.base58Encode(Wallet.AddressPayload(c, w.publicKey)))
             == Some(Wallet.AddressPayload(c, w.publicKey))
    ensures NewTxOutput(c, value, Wallet.Address(c, w)).Ok?
    ensures IsLockedWithKey(NewTxOutput(c, value, Wallet.Address(c, w)).value, pubKeyHash)
            <==> pubKeyHash == Wallet.PublicKeyHash(c, w.publicKey)
  {
    Wallet.AddressKeyHash(c, w);
  }
}

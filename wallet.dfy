/** The byte layout of wallet addresses: version byte, public-key hash, 4-byte checksum. */
module Wallet {
  import opened Primitives

  const ChecksumLength: nat := 4
  const Version: byte := 0x00

  /** A key pair; the private key is kept as opaque bytes (the scalar D). */
  datatype Wallet = Wallet(privateKey: Bytes, publicKey: Bytes)

  /** RIPEMD-160 of the SHA-256 of a public key: the identifier outputs are locked to. */
  function PublicKeyHash(c: Crypto, publicKey: Bytes): Bytes
  {
    c.ripemd160(c.sha256(publicKey))
  }

  /** The first four bytes of the double SHA-256 of the payload. */
  function Checksum(c: Crypto, payload: Bytes): (r: Bytes)
    ensures |r| == ChecksumLength
    ensures r <= c.sha256(c.sha256(payload))
  {
    c.sha256(c.sha256(payload))[..ChecksumLength]
  }

  /** The bytes an address encodes, before base58. */
  function AddressPayload(c: Crypto, publicKey: Bytes): (r: Bytes)
    ensures |r| == 1 + |PublicKeyHash(c, publicKey)| + ChecksumLength
    ensures r[0] == Version
    ensures r[1..|r| - ChecksumLength] == PublicKeyHash(c, publicKey)
    ensures r[|r| - ChecksumLength..] == Checksum(c, r[..|r| - ChecksumLength])
  {
    var versionedHash := [Version] + PublicKeyHash(c, publicKey);
    var r := versionedHash + Checksum(c, versionedHash);
    assert r[..|r| - ChecksumLength] == versionedHash;
    r
  }

  /** The wallet's address: base58 of version ++ key hash ++ checksum. */
  function Address(c: Crypto, w: Wallet): Bytes
  {
    c.base58Encode(AddressPayload(c, w.publicKey))
  }

  /** Decoded address bytes without their version byte and checksum: the key hash they carry. */
  function PayloadKeyHash(decoded: Bytes): (r: Bytes)
    requires |decoded| >= 1 + ChecksumLength
    ensures [decoded[0]] + r + decoded[|decoded| - ChecksumLength..] == decoded
  {
    decoded[1..|decoded| - ChecksumLength]
  }

  /** Decode the address and compare its last four bytes with the checksum of the rest.
      Fewer than five decoded bytes make Go's slice expressions panic. */
  function ValidateAddress(c: Crypto, address: Bytes): (r: Result<bool>)
    ensures c.base58Decode(address).None? ==> r == Err(DecodeFailed)
    ensures c.base58Decode(address).Some? && |c.base58Decode(address).value| < 1 + ChecksumLength
            ==> r == Err(IndexOutOfRange)
    ensures r.Ok? <==> c.base58Decode(address).Some? && |c.base58Decode(address).value| >= 1 + ChecksumLength
    ensures r == Ok(true) <==>
              (c.base58Decode(address).Some? &&
               var d := c.base58Decode(address).value;
               |d| >= 1 + ChecksumLength && d[|d| - ChecksumLength..] == Checksum(c, d[..|d| - ChecksumLength]))
  {
    match c.base58Decode(address)
    case None => Err(DecodeFailed)
    case Some(decoded) =>
      if |decoded| < 1 + ChecksumLength then Err(IndexOutOfRange)
      else
        var actualChecksum := decoded[|decoded| - ChecksumLength..];
        var version := decoded[0];
        var pubKeyHash := decoded[1..|decoded| - ChecksumLength];
        assert [version] + pubKeyHash == decoded[..|decoded| - ChecksumLength];
        Ok(actualChecksum == Checksum(c, [version] + pubKeyHash))
  }

  /** Round trip: a wallet's own address validates, provided base58 decoding undoes encoding. */
  lemma AddressValidates(c: Crypto, w: Wallet)
    requires c.base58Decode(c.base58Encode(AddressPayload(c, w.publicKey))) == Some(AddressPayload(c, w.publicKey))
    ensures ValidateAddress(c, Address(c, w)) == Ok(true)
  {
  }

  /** The key hash recovered from a wallet's address is the hash of its public key
      (what output locking and the balance query recover). */
  lemma AddressKeyHash(c: Crypto, w: Wallet)
    requires c.base58Decode(c.base58Encode(AddressPayload(c, w.publicKey))) == Some(AddressPayload(c, w.publicKey))
    ensures var d := c.base58Decode(Address(c, w)).value;
            |d| >= 1 + ChecksumLength && PayloadKeyHash(d) == PublicKeyHash(c, w.publicKey)
  {
  }
}

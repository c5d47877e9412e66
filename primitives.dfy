/** Bytes, Go's fixed-width integers, error results and the foreign primitives
    (hash functions, signatures, base58) that the ledger calls but does not define. */
module Primitives {

  newtype byte = b: int | 0 <= b < 256

  type Bytes = seq<byte>

  /** The output of SHA-256: exactly 32 bytes. */
  type Digest = s: Bytes | |s| == 32 witness Zeros(32)

  const MaxInt64: int := 0x7FFF_FFFF_FFFF_FFFF

  /** Go's `int64` (and `int` on the 64-bit platforms the program targets). */
  type int64 = x: int | -MaxInt64 - 1 <= x <= MaxInt64

  function Zeros(n: nat): (r: Bytes)
    ensures |r| == n && forall i :: 0 <= i < n ==> r[i] == 0
  {
    seq(n, _ => 0)
  }

  /** The bytes of a string literal that is plain ASCII (Go's `[]byte(s)`). */
  function Ascii(s: string): (r: Bytes)
    ensures |r| == |s|
  {
    seq(|s|, i requires 0 <= i < |s| => (s[i] as int % 256) as byte)
  }

  datatype Option<+T> = None | Some(value: T)

  /** The failures the program reports, by `log.Panic`, `runtime.Goexit` or a Go runtime panic. */
  datatype Error =
    | NotFound                 // a store key or a transaction is missing
    | AlreadyExists            // a chain is already persisted
    | InvalidAddress           // the address checksum does not match
    | InsufficientFunds        // the spendable outputs do not cover the amount
    | MissingPriorTransaction  // an input's source transaction is not among the priors
    | IndexOutOfRange          // a Go slice or index expression out of bounds
    | DecodeFailed             // base58 decoding failed
    | MiningExhausted          // no nonce below MaxInt64 meets the target
    | HashCollision            // a mined block hash is already a key of the store

  datatype Result<+T> = Ok(value: T) | Err(error: Error) {
    predicate IsFailure() { Err? }
    function PropagateFailure<U>(): Result<U>
      requires Err?
    {
      Err(error)
    }
    function Extract(): T
      requires Ok?
    {
      value
    }
  }

  /** The primitives the program takes from libraries, left uninterpreted:
      - sha256 (crypto/sha256), ripemd160 (golang.org/x/crypto/ripemd160);
      - base58Encode / base58Decode (github.com/mr-tron/base58; decoding may fail);
      - ecdsaSign(privateKey, digest) = (r.Bytes(), s.Bytes()) — the random source is folded in;
      - ecdsaVerify(x, y, digest, r, s) over P-256, each argument as big-endian bytes. */
  datatype Crypto = Crypto(
    sha256: Bytes -> Digest,
    ripemd160: Bytes -> Bytes,
    base58Encode: Bytes -> Bytes,
    base58Decode: Bytes -> Option<Bytes>,
    ecdsaSign: (Bytes, Bytes) -> (Bytes, Bytes),
    ecdsaVerify: (Bytes, Bytes, Bytes, Bytes, Bytes) -> bool)
}

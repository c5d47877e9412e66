/** Proof of work: a nonce whose SHA-256 of the block's data, read as a big-endian
    unsigned integer, falls below 2^(256 - Difficulty). */
module Proof {
  import opened Primitives
  import opened Blocks

  const Difficulty: nat := 14

  function Pow2(n: nat): (r: nat)
    ensures r >= 1
  {
    if n == 0 then 1 else 2 * Pow2(n - 1)
  }

  function Pow256(n: nat): (r: nat)
    ensures r >= 1
  {
    if n == 0 then 1 else 256 * Pow256(n - 1)
  }

  /** 2^64, the modulus of Go's two's-complement `int64`. */
  const TwoTo64: nat := 0x1_0000_0000_0000_0000

  // ---------------------------------------------------------------------------------------
  // Big-endian unsigned integers (`big.Int.SetBytes`, `binary.BigEndian`)
  // ---------------------------------------------------------------------------------------

  /** The unsigned integer a byte string denotes, most significant byte first. */
  function FromBigEndian(s: Bytes): nat
  {
    if s == [] then 0 else FromBigEndian(s[..|s| - 1]) * 256 + s[|s| - 1] as nat
  }

  /** The low `width` bytes of `u`, most significant first. */
  function ToBigEndian(u: nat, width: nat): (r: Bytes)
    ensures |r| == width
  {
    if width == 0 then [] else ToBigEndian(u / 256, width - 1) + [(u % 256) as byte]
  }

  lemma {:induction false} FromBigEndianBound(s: Bytes)
    ensures FromBigEndian(s) < Pow256(|s|)
  {
    if s != [] {
      var front := s[..|s| - 1];
      FromBigEndianBound(front);
      var f := FromBigEndian(front);
      assert f <= Pow256(|front|) - 1;
      assert f * 256 <= (Pow256(|front|) - 1) * 256;
    }
  }

  /** Encoding then decoding gives the number back when it fits in the width. */
  lemma {:induction false} FromToBigEndian(u: nat, width: nat)
    requires u < Pow256(width)
    ensures FromBigEndian(ToBigEndian(u, width)) == u
  {
    if width > 0 {
      var r := ToBigEndian(u, width);
      assert r[..|r| - 1] == ToBigEndian(u / 256, width - 1);
      FromToBigEndian(u / 256, width - 1);
    }
  }

  /** Decoding then encoding at the same width gives the bytes back. */
  lemma {:induction false} ToFromBigEndian(s: Bytes)
    ensures ToBigEndian(FromBigEndian(s), |s|) == s
  {
    if s != [] {
      var front := s[..|s| - 1];
      var u := FromBigEndian(s);
      assert u / 256 == FromBigEndian(front) && u % 256 == s[|s| - 1] as nat;
      ToFromBigEndian(front);
      assert s == front + [s[|s| - 1]];
    }
  }

  /** The value of a concatenation: the high part shifted by the width of the low part. */
  lemma {:induction false} FromBigEndianAppend(hi: Bytes, lo: Bytes)
    ensures FromBigEndian(hi + lo) == FromBigEndian(hi) * Pow256(|lo|) + FromBigEndian(lo)
    decreases |lo|
  {
    if lo == [] {
      assert hi + lo == hi;
    } else {
      var lo' := lo[..|lo| - 1];
      var x := lo[|lo| - 1] as nat;
      assert (hi + lo)[..|hi + lo| - 1] == hi + lo';
      FromBigEndianAppend(hi, lo');
      var a, p, b := FromBigEndian(hi), Pow256(|lo'|), FromBigEndian(lo');
      assert FromBigEndian(hi + lo) == (a * p + b) * 256 + x;
      assert FromBigEndian(lo) == b * 256 + x;
      assert Pow256(|lo|) == p * 256;
      assert (a * p + b) * 256 == a * (p * 256) + b * 256 by {
        MulDistributes(a * p, b, 256);
        MulAssociates(a, p, 256);
      }
    }
  }

  lemma MulDistributes(x: int, y: int, z: int)
    ensures (x + y) * z == x * z + y * z
  {
  }

  lemma MulAssociates(x: int, y: int, z: int)
    ensures (x * y) * z == x * (y * z)
  {
  }

  // ---------------------------------------------------------------------------------------
  // Int64ToHex: `binary.Write(buf, binary.BigEndian, n)` on an int64
  // ---------------------------------------------------------------------------------------

  /** The integer the eight bytes denote in two's complement. */
  function HexToInt64(s: Bytes): (n: int64)
    requires |s| == 8
  {
    FromBigEndianBound(s);
    assert Pow256(8) == TwoTo64;
    var u := FromBigEndian(s);
    if u > MaxInt64 then u - TwoTo64 else u
  }

  /** The eight big-endian bytes of `n` in two's complement; they decode back to `n`. */
  function Int64ToHex(n: int64): (r: Bytes)
    ensures |r| == 8
    ensures HexToInt64(r) == n
  {
    var u := if n < 0 then n + TwoTo64 else n;
    assert Pow256(8) == TwoTo64;
    FromToBigEndian(u, 8);
    ToBigEndian(u, 8)
  }

  /** Every eight-byte string is the encoding of the integer it decodes to. */
  lemma HexToInt64RoundTrip(s: Bytes)
    requires |s| == 8
    ensures Int64ToHex(HexToInt64(s)) == s
  {
    assert Pow256(8) == TwoTo64;
    FromBigEndianBound(s);
    ToFromBigEndian(s);
  }

  /** Distinct nonces are encoded differently. */
  lemma Int64ToHexInjective(m: int64, n: int64)
    ensures Int64ToHex(m) == Int64ToHex(n) <==> m == n
  {
  }

  // ---------------------------------------------------------------------------------------
  // The target
  // ---------------------------------------------------------------------------------------

  lemma Pow2Plus8(n: nat)
    ensures Pow2(n + 8) == 256 * Pow2(n)
  {
    assert Pow2(n + 8) == 2 * Pow2(n + 7);
    assert Pow2(n + 7) == 2 * Pow2(n + 6);
    assert Pow2(n + 6) == 2 * Pow2(n + 5);
    assert Pow2(n + 5) == 2 * Pow2(n + 4);
    assert Pow2(n + 4) == 2 * Pow2(n + 3);
    assert Pow2(n + 3) == 2 * Pow2(n + 2);
    assert Pow2(n + 2) == 2 * Pow2(n + 1);
  }

  lemma {:induction false} Pow2Bytes(k: nat)
    ensures Pow2(8 * k + 2) == 4 * Pow256(k)
  {
    if k > 0 {
      Pow2Bytes(k - 1);
      Pow2Plus8(8 * (k - 1) + 2);
    }
  }

  datatype ProofOfWork = ProofOfWork(block: Block, target: nat)

  /** The work target 2^(256 - Difficulty): with Difficulty 14, one in 2^14 digests meets it. */
  function NewProofOfWork(b: Block): (pow: ProofOfWork)
    ensures pow.block == b
    ensures pow.target == 4 * Pow256(30)
  {
    Pow2Bytes(30);
    ProofOfWork(b, Pow2(256 - Difficulty))
  }

  /** A 32-byte digest is below the target exactly when its first 14 bits are zero. */
  lemma BelowTargetLeadingZeros(b: Block, d: Digest)
    ensures FromBigEndian(d) < NewProofOfWork(b).target <==> d[0] == 0 && d[1] < 4
  {
    LeadingBits(d);
  }

  /** Below 4 * 256^(n-2) for an n-byte string: the first byte is zero and the second below 4. */
  lemma LeadingBits(d: Bytes)
    requires |d| >= 2
    ensures FromBigEndian(d) < 4 * Pow256(|d| - 2) <==> d[0] == 0 && d[1] < 4
  {
    var hi, lo := d[..2], d[2..];
    assert d == hi + lo;
    FromBigEndianAppend(hi, lo);
    FromBigEndianBound(lo);
    assert hi[..1] == [d[0]] && [d[0]][..0] == [];
    assert FromBigEndian([d[0]]) == d[0] as nat;
    var x := FromBigEndian(hi);
    assert x == FromBigEndian(hi[..1]) * 256 + d[1] as nat;
    ScaledBelow(x, Pow256(|lo|), FromBigEndian(lo));
  }

  lemma ScaledBelow(x: nat, p: nat, y: nat)
    requires y < p
    ensures x * p + y < 4 * p <==> x < 4
  {
    if x >= 4 {
      assert x * p >= 4 * p;
    } else {
      assert x * p <= 3 * p;
    }
  }

  // ---------------------------------------------------------------------------------------
  // Mining and validation
  // ---------------------------------------------------------------------------------------

  /** Previous hash, transaction digest, nonce and difficulty, joined with no separator.
      Each part is recoverable from its position. */
  function InitData(c: Crypto, pow: ProofOfWork, nonce: int64): Bytes
  {
    pow.block.prevHash + HashTransactions(c, pow.block) + Int64ToHex(nonce) + Int64ToHex(Difficulty)
  }

  /** The mining data is laid out as previous hash, 32-byte transaction digest, eight bytes of
      nonce and eight bytes of difficulty, each readable back from its position. */
  lemma InitDataLayout(c: Crypto, pow: ProofOfWork, nonce: int64)
    ensures var r, p := InitData(c, pow, nonce), pow.block.prevHash;
            |r| == |p| + 32 + 16 &&
            r[..|p|] == p &&
            r[|p|..|p| + 32] == HashTransactions(c, pow.block) &&
            r[|r| - 16..|r| - 8] == Int64ToHex(nonce) &&
            r[|r| - 8..] == Int64ToHex(Difficulty) &&
            HexToInt64(r[|r| - 16..|r| - 8]) == nonce &&
            HexToInt64(r[|r| - 8..]) == Difficulty
  {
    var r, p := InitData(c, pow, nonce), pow.block.prevHash;
    assert r[|r| - 16..|r| - 8] == Int64ToHex(nonce);
    assert r[|r| - 8..] == Int64ToHex(Difficulty);
    assert r[..|p|] == p;
    assert r[|p|..|p| + 32] == HashTransactions(c, pow.block);
  }

  /** The mining data does not depend on the block's stored hash or nonce. */
  lemma InitDataIgnoresHashAndNonce(c: Crypto, b: Block, hash: Bytes, nonce: int64, n: int64)
    ensures InitData(c, NewProofOfWork(b.(hash := hash, nonce := nonce)), n) == InitData(c, NewProofOfWork(b), n)
    ensures MeetsTarget(c, NewProofOfWork(b.(hash := hash, nonce := nonce)), n) == MeetsTarget(c, NewProofOfWork(b), n)
  {
  }

  /** Different nonces give different mining data. */
  lemma InitDataInjective(c: Crypto, pow: ProofOfWork, m: int64, n: int64)
    ensures InitData(c, pow, m) == InitData(c, pow, n) <==> m == n
  {
    var dm, dn := InitData(c, pow, m), InitData(c, pow, n);
    InitDataLayout(c, pow, m);
    InitDataLayout(c, pow, n);
    if dm == dn {
      assert dm[|dm| - 16..|dm| - 8] == dn[|dn| - 16..|dn| - 8];
    }
  }

  function PowDigest(c: Crypto, pow: ProofOfWork, nonce: int64): Digest
  {
    c.sha256(InitData(c, pow, nonce))
  }

  predicate MeetsTarget(c: Crypto, pow: ProofOfWork, nonce: int64)
  {
    FromBigEndian(PowDigest(c, pow, nonce)) < pow.target
  }

  /** The block's own nonce meets the target. */
  function Validate(c: Crypto, pow: ProofOfWork): (r: bool)
    ensures r <==> FromBigEndian(c.sha256(InitData(c, pow, pow.block.nonce))) < pow.target
  {
    MeetsTarget(c, pow, pow.block.nonce)
  }

  /** The least nonce in [from, MaxInt64) meeting the target, if any. */
  function FirstGoodNonce(c: Crypto, pow: ProofOfWork, from: int64): Option<int64>
    requires 0 <= from
    decreases MaxInt64 - from
  {
    if from >= MaxInt64 then None
    else if MeetsTarget(c, pow, from) then Some(from)
    else FirstGoodNonce(c, pow, from + 1)
  }

  /** The nonce found meets the target and lies in [from, MaxInt64); no nonce from `from` up
      to it (or up to MaxInt64 when none is found) meets the target. */
  lemma {:induction false} FirstGoodNonceMeaning(c: Crypto, pow: ProofOfWork, from: int64)
    requires 0 <= from
    decreases MaxInt64 - from
    ensures var r := FirstGoodNonce(c, pow, from);
            (r.Some? ==> from <= r.value < MaxInt64 && MeetsTarget(c, pow, r.value)) &&
            (forall n: int64 :: from <= n < (if r.Some? then r.value else MaxInt64) ==> !MeetsTarget(c, pow, n))
  {
    if from < MaxInt64 && !MeetsTarget(c, pow, from) {
      FirstGoodNonceMeaning(c, pow, from + 1);
    }
  }

  lemma FirstGoodNonceStep(c: Crypto, pow: ProofOfWork, n: int64)
    requires 0 <= n
    ensures n == MaxInt64 ==> FirstGoodNonce(c, pow, n) == None
    ensures n < MaxInt64 && MeetsTarget(c, pow, n) ==> FirstGoodNonce(c, pow, n) == Some(n)
    ensures n < MaxInt64 && !MeetsTarget(c, pow, n) ==> FirstGoodNonce(c, pow, n) == FirstGoodNonce(c, pow, n + 1)
  {
  }

  /** Mining as the program intends it: the least nonce below MaxInt64 whose digest meets
      the target, with that digest, or nothing when the search space is exhausted. */
  method Run(c: Crypto, pow: ProofOfWork) returns (r: Option<(int64, Digest)>)
    ensures r.Some? ==> 0 <= r.value.0 < MaxInt64 && r.value.1 == PowDigest(c, pow, r.value.0)
    ensures r.Some? ==> FromBigEndian(r.value.1) < pow.target
    ensures r.Some? ==> forall n: int64 :: 0 <= n < r.value.0 ==> !MeetsTarget(c, pow, n)
    ensures r.None? <==> forall n: int64 :: 0 <= n < MaxInt64 ==> !MeetsTarget(c, pow, n)
    ensures r.Some? <==> FirstGoodNonce(c, pow, 0).Some?
    ensures r.Some? ==> r.value.0 == FirstGoodNonce(c, pow, 0).value
  {
    var nonce: int64 := 0;
    while nonce < MaxInt64
      invariant 0 <= nonce <= MaxInt64
      invariant FirstGoodNonce(c, pow, 0) == FirstGoodNonce(c, pow, nonce)
      decreases MaxInt64 - nonce
    {
      var data := InitData(c, pow, nonce);
      var hash := c.sha256(data);
      var intHash := FromBigEndian(hash);
      FirstGoodNonceStep(c, pow, nonce);
      if intHash < pow.target {
        FirstGoodNonceMeaning(c, pow, 0);
        return Some((nonce, hash));
      }
      nonce := nonce + 1;
    }
    FirstGoodNonceStep(c, pow, nonce);
    FirstGoodNonceMeaning(c, pow, 0);
    return None;
  }

  /** What the mining loop returns as written: on exhaustion the nonce is MaxInt64, one past
      the last nonce tried, and the digest is that of MaxInt64 - 1. */
  function RunAsWrittenResult(c: Crypto, pow: ProofOfWork): (int64, Digest)
  {
    match FirstGoodNonce(c, pow, 0)
    case Some(n) => (n, PowDigest(c, pow, n))
    case None => (MaxInt64, PowDigest(c, pow, MaxInt64 - 1))
  }

  /** The mining loop as written, breaking out on success and otherwise running off the end. */
  method RunAsWritten(c: Crypto, pow: ProofOfWork) returns (nonce: int64, hash: Digest)
    ensures (nonce, hash) == RunAsWrittenResult(c, pow)
  {
    var h: Digest := Zeros(32);
    nonce := 0;
    while nonce < MaxInt64
      invariant 0 <= nonce <= MaxInt64
      invariant FirstGoodNonce(c, pow, 0) == FirstGoodNonce(c, pow, nonce)
      invariant nonce > 0 ==> h == PowDigest(c, pow, nonce - 1)
      decreases MaxInt64 - nonce
    {
      h := c.sha256(InitData(c, pow, nonce));
      FirstGoodNonceStep(c, pow, nonce);
      if FromBigEndian(h) < pow.target {
        break;
      }
      nonce := nonce + 1;
    }
    FirstGoodNonceStep(c, pow, nonce);
    hash := h;
  }

  /** A hash function under which only nonce MaxInt64 would meet the target. */
  function StaleCrypto(): Crypto
  {
    Crypto(
      (b: Bytes) => if |b| >= 16 && b[|b| - 16..|b| - 8] == Int64ToHex(MaxInt64) then Zeros(32) else Ones(),
      (b: Bytes) => b,
      (b: Bytes) => b,
      (b: Bytes) => Some(b),
      (k: Bytes, d: Bytes) => ([], []),
      (x: Bytes, y: Bytes, d: Bytes, r: Bytes, s: Bytes) => false)
  }

  function Ones(): (r: Digest)
    ensures forall i :: 0 <= i < 32 ==> r[i] == 255
  {
    seq(32, _ => 255)
  }

  /** The loop as written can return a nonce it never tried, together with a digest that
      does not belong to it, while the block it then builds passes validation: the pair
      (nonce, hash) written into the block is inconsistent. */
  lemma RunAsWrittenReturnsStaleHash(b: Block)
    ensures var c, pow := StaleCrypto(), NewProofOfWork(b);
            var (nonce, hash) := RunAsWrittenResult(c, pow);
            nonce == MaxInt64 &&
            hash != PowDigest(c, pow, nonce) &&
            !(FromBigEndian(hash) < pow.target) &&
            Validate(c, NewProofOfWork(b.(hash := hash, nonce := nonce)))
  {
    var c, pow := StaleCrypto(), NewProofOfWork(b);
    forall n: int64 | 0 <= n < MaxInt64
      ensures !MeetsTarget(c, pow, n)
    {
      StaleCryptoMisses(b, n);
    }
    FirstGoodNonceMeaning(c, pow, 0);
    assert FirstGoodNonce(c, pow, 0).None?;
    StaleCryptoHitsLast(b);
    InitDataIgnoresHashAndNonce(c, b, PowDigest(c, pow, MaxInt64 - 1), MaxInt64, MaxInt64);
  }

  /** Under StaleCrypto no nonce below MaxInt64 meets the target. */
  lemma StaleCryptoMisses(b: Block, n: int64)
    requires 0 <= n < MaxInt64
    ensures !MeetsTarget(StaleCrypto(), NewProofOfWork(b), n)
  {
    var c, pow := StaleCrypto(), NewProofOfWork(b);
    Int64ToHexInjective(n, MaxInt64);
    InitDataLayout(c, pow, n);
    assert PowDigest(c, pow, n) == Ones();
    BelowTargetLeadingZeros(b, Ones());
  }

  /** Under StaleCrypto the nonce MaxInt64 itself would meet the target, and the block the
      loop builds from the digest of MaxInt64 - 1 validates. */
  lemma StaleCryptoHitsLast(b: Block)
    ensures var c, pow := StaleCrypto(), NewProofOfWork(b);
            PowDigest(c, pow, MaxInt64) == Zeros(32) &&
            FromBigEndian(Zeros(32)) < pow.target && !(FromBigEndian(Ones()) < pow.target)
  {
    var c, pow := StaleCrypto(), NewProofOfWork(b);
    InitDataLayout(c, pow, MaxInt64);
    assert PowDigest(c, pow, MaxInt64) == Zeros(32);
    BelowTargetLeadingZeros(b, Zeros(32));
    BelowTargetLeadingZeros(b, Ones());
  }

  /** The block mining is meant to produce from the transactions over the previous hash: the
      least nonce below MaxInt64 meeting the target, with that nonce's digest as its hash;
      None when there is no such nonce. */
  function Mined(c: Crypto, txs: seq<Transactions.Transaction>, prevHash: Bytes): Option<Block>
  {
    var block := Block([], txs, prevHash, 0);
    var pow := NewProofOfWork(block);
    match FirstGoodNonce(c, pow, 0)
    case None => None
    case Some(n) => Some(block.(nonce := n, hash := PowDigest(c, pow, n)))
  }

  /** Mining yields nothing exactly when no nonce below MaxInt64 meets the target. */
  lemma MinedNone(c: Crypto, txs: seq<Transactions.Transaction>, prevHash: Bytes)
    ensures Mined(c, txs, prevHash).None? <==>
              forall n: int64 :: 0 <= n < MaxInt64 ==> !MeetsTarget(c, NewProofOfWork(Block([], txs, prevHash, 0)), n)
  {
    FirstGoodNonceMeaning(c, NewProofOfWork(Block([], txs, prevHash, 0)), 0);
  }

  /** A block mined from the transactions over the previous hash: the first nonce meeting
      the target and its digest. Fails when no nonce below MaxInt64 does. */
  method CreateBlock(c: Crypto, txs: seq<Transactions.Transaction>, prevHash: Bytes) returns (r: Result<Block>)
    ensures r.Err? ==> r.error == MiningExhausted
    ensures r.Err? <==> forall n: int64 :: 0 <= n < MaxInt64 ==>
                          !MeetsTarget(c, NewProofOfWork(Block([], txs, prevHash, 0)), n)
    ensures r.Ok? ==> r.value.transactions == txs && r.value.prevHash == prevHash
    ensures r.Ok? ==> r.value.hash == PowDigest(c, NewProofOfWork(r.value), r.value.nonce)
    ensures r.Ok? ==> Validate(c, NewProofOfWork(r.value))
    ensures r.Ok? ==> 0 <= r.value.nonce &&
                      forall n: int64 :: 0 <= n < r.value.nonce ==> !MeetsTarget(c, NewProofOfWork(r.value), n)
    ensures r.Ok? <==> Mined(c, txs, prevHash).Some?
    ensures r.Ok? ==> r.value == Mined(c, txs, prevHash).value
  {
    var block := Block([], txs, prevHash, 0);
    var pow := NewProofOfWork(block);
    var mined := Run(c, pow);
    if mined.None? {
      r := Err(MiningExhausted);
    } else {
      var (nonce, hash) := mined.value;
      var b := block.(nonce := nonce, hash := hash);
      InitDataIgnoresHashAndNonce(c, block, hash, nonce, nonce);
      assert PowDigest(c, NewProofOfWork(b), nonce) == hash;
      forall n: int64 | 0 <= n < nonce
        ensures !MeetsTarget(c, NewProofOfWork(b), n)
      {
        InitDataIgnoresHashAndNonce(c, block, hash, nonce, n);
      }
      r := Ok(b);
    }
  }

  /** The first block of a chain: the coinbase transaction alone, over an empty previous hash. */
  method Genesis(c: Crypto, coinbase: Transactions.Transaction) returns (r: Result<Block>)
    ensures r.Err? ==> r.error == MiningExhausted
    ensures r.Err? <==> forall n: int64 :: 0 <= n < MaxInt64 ==>
                          !MeetsTarget(c, NewProofOfWork(Block([], [coinbase], [], 0)), n)
    ensures r.Ok? ==> r.value.transactions == [coinbase] && r.value.prevHash == []
    ensures r.Ok? ==> r.value.hash == PowDigest(c, NewProofOfWork(r.value), r.value.nonce)
    ensures r.Ok? ==> Validate(c, NewProofOfWork(r.value))
    ensures r.Ok? <==> Mined(c, [coinbase], []).Some?
    ensures r.Ok? ==> r.value == Mined(c, [coinbase], []).value
  {
    r := CreateBlock(c, [coinbase], []);
  }
}

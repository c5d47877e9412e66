/** The two computations of the command line that are not I/O: checking the arguments of
    `send`, and adding up the balance of an address. */
module Cli {
  import opened Primitives
  import Wallet
  import opened Tx
  import opened Transactions
  import opened Resolver
  import opened Ledger

  // ---------------------------------------------------------------------------------------
  // validateSend
  // ---------------------------------------------------------------------------------------

  /** Go's `unicode.IsSpace`: the Latin-1 spaces, then the other White_Space code points. */
  predicate IsSpace(ch: char)
  {
    ch == '\t' || ch == '\n' || ch == '\U{000B}' || ch == '\U{000C}' || ch == '\r' || ch == ' ' ||
    ch == '\U{0085}' || ch == '\U{00A0}' || ch == '\U{1680}' || '\U{2000}' <= ch <= '\U{200A}' ||
    ch == '\U{2028}' || ch == '\U{2029}' || ch == '\U{202F}' || ch == '\U{205F}' || ch == '\U{3000}'
  }

  /** Every character is a space (the empty string included). */
  predicate IsBlank(s: string)
  {
    forall i :: 0 <= i < |s| ==> IsSpace(s[i])
  }

  function TrimLeft(s: string): (r: string)
    ensures |r| <= |s| && r == s[|s| - |r|..]
    ensures r == [] || !IsSpace(r[0])
    ensures IsBlank(s[..|s| - |r|])
  {
    if s != [] && IsSpace(s[0]) then
      var r := TrimLeft(s[1..]);
      TrimLeftStep(s, r);
      r
    else s
  }

  function TrimRight(s: string): (r: string)
    ensures |r| <= |s| && r == s[..|r|]
    ensures r == [] || !IsSpace(r[|r| - 1])
    ensures IsBlank(s[|r|..])
  {
    if s != [] && IsSpace(s[|s| - 1]) then
      var r := TrimRight(s[..|s| - 1]);
      TrimRightStep(s, r);
      r
    else s
  }

  /** Dropping one more leading space keeps the trimmed rest a suffix after blanks. */
  lemma TrimLeftStep(s: string, r: string)
    requires s != [] && IsSpace(s[0])
    requires |r| <= |s| - 1 && r == s[1..][|s| - 1 - |r|..] && IsBlank(s[1..][..|s| - 1 - |r|])
    ensures r == s[|s| - |r|..] && IsBlank(s[..|s| - |r|])
  {
    assert s[..|s| - |r|] == [s[0]] + s[1..][..|s| - 1 - |r|];
  }

  /** Dropping one more trailing space keeps the trimmed rest a prefix before blanks. */
  lemma TrimRightStep(s: string, r: string)
    requires s != [] && IsSpace(s[|s| - 1])
    requires |r| <= |s| - 1 && r == s[..|s| - 1][..|r|] && IsBlank(s[..|s| - 1][|r|..])
    ensures r == s[..|r|] && IsBlank(s[|r|..])
  {
    assert s[|r|..] == s[..|s| - 1][|r|..] + [s[|s| - 1]];
  }

  /** Go's `strings.TrimSpace`: drop the leading and the trailing spaces. */
  function TrimSpace(s: string): string
  {
    TrimRight(TrimLeft(s))
  }

  /** Trimming leaves a piece of the string, and removes only spaces on either side of it. */
  lemma TrimSpaceShape(s: string)
    ensures var r := TrimSpace(s);
            exists i :: 0 <= i <= |s| - |r| && r == s[i..i + |r|] && IsBlank(s[..i]) && IsBlank(s[i + |r|..])
  {
    var l := TrimLeft(s);
    var r := TrimRight(l);
    PieceShape(s, l, r);
    var i := |s| - |l|;
    assert 0 <= i <= |s| - |r| && r == s[i..i + |r|] && IsBlank(s[..i]) && IsBlank(s[i + |r|..]);
  }

  /** A suffix `l` of `s` after blanks, and a prefix `r` of `l` before blanks, is a piece of `s`
      with blanks on both sides. */
  lemma PieceShape(s: string, l: string, r: string)
    requires |l| <= |s| && l == s[|s| - |l|..] && IsBlank(s[..|s| - |l|])
    requires |r| <= |l| && r == l[..|r|] && IsBlank(l[|r|..])
    ensures var i := |s| - |l|;
            i + |r| <= |s| && r == s[i..i + |r|] && IsBlank(s[..i]) && IsBlank(s[i + |r|..])
  {
    var i := |s| - |l|;
    assert s[i..i + |r|] == l[..|r|];
    assert s[i + |r|..] == l[|r|..];
  }

  /** What trimming leaves neither starts nor ends with a space. */
  lemma {:induction false} TrimSpaceEnds(s: string)
    ensures TrimSpace(s) == [] || (!IsSpace(TrimSpace(s)[0]) && !IsSpace(TrimSpace(s)[|TrimSpace(s)| - 1]))
  {
    var l := TrimLeft(s);
    var r := TrimRight(l);
    if r != [] {
      assert r[0] == l[0];
    }
  }

  /** A string trims to nothing iff it is all spaces. */
  lemma {:induction false} TrimSpaceEmpty(s: string)
    ensures TrimSpace(s) == [] <==> IsBlank(s)
  {
    if IsBlank(s) {
      TrimLeftBlank(s);
    } else {
      var k :| 0 <= k < |s| && !IsSpace(s[k]);
      var l := TrimLeft(s);
      TrimLeftKeepsNonSpace(s, k);
      var j: nat := k - (|s| - |l|);
      assert j < |l| && l[j] == s[k];
      TrimRightKeepsNonSpace(l, j);
    }
  }

  lemma {:induction false} TrimLeftBlank(s: string)
    requires IsBlank(s)
    ensures TrimLeft(s) == []
  {
    if s != [] {
      TrimLeftBlank(s[1..]);
    }
  }

  /** Trimming on the left stops at or before the first non-space character. */
  lemma {:induction false} TrimLeftKeepsNonSpace(s: string, k: nat)
    requires k < |s| && !IsSpace(s[k])
    ensures |s| - |TrimLeft(s)| <= k
  {
    if IsSpace(s[0]) {
      TrimLeftKeepsNonSpace(s[1..], k - 1);
    }
  }

  /** Trimming on the right keeps a string that has a non-space character. */
  lemma {:induction false} TrimRightKeepsNonSpace(s: string, k: nat)
    requires k < |s| && !IsSpace(s[k])
    ensures TrimRight(s) != []
  {
    if IsSpace(s[|s| - 1]) {
      TrimRightKeepsNonSpace(s[..|s| - 1], k);
    }
  }

  /** Why `send` refuses its arguments. */
  datatype SendError = InvalidFrom | InvalidTo | InvalidAmount(amount: int64)

  /** Check the arguments of `send` in order: the sender, the receiver, then the amount. */
  function ValidateSend(from: string, to: string, amount: int64): (r: Option<SendError>)
    ensures IsBlank(from) ==> r == Some(InvalidFrom)
    ensures !IsBlank(from) && IsBlank(to) ==> r == Some(InvalidTo)
    ensures !IsBlank(from) && !IsBlank(to) && amount <= 0 ==> r == Some(InvalidAmount(amount))
    ensures r.None? <==> !IsBlank(from) && !IsBlank(to) && amount > 0
  {
    TrimSpaceEmpty(from);
    TrimSpaceEmpty(to);
    if TrimSpace(from) == "" then Some(InvalidFrom)
    else if TrimSpace(to) == "" then Some(InvalidTo)
    else if amount <= 0 then Some(InvalidAmount(amount))
    else None
  }

  // ---------------------------------------------------------------------------------------
  // getBalance
  // ---------------------------------------------------------------------------------------

  /** The balance an address reports: the values of what FindUTXO returns for the key hash the
      decoded address carries between its version byte and its checksum. */
  function Balance(c: Crypto, decoded: Bytes, chain: seq<Blocks.Block>): int
    requires |decoded| >= 1 + Wallet.ChecksumLength
  {
    SumValues(UnspentOutputsAsWritten(c, Wallet.PayloadKeyHash(decoded), chain))
  }

  /** Validate the address, then add up the values of the unspent outputs locked to its key
      hash. A failed decoding or a short address is the error ValidateAddress reports; a
      checksum that does not match is InvalidAddress. */
  method GetBalance(c: Crypto, bc: BlockChain, address: Bytes) returns (r: Result<int>)
    requires bc.Valid()
    ensures Wallet.ValidateAddress(c, address).Err? ==> r == Err(Wallet.ValidateAddress(c, address).error)
    ensures Wallet.ValidateAddress(c, address) == Ok(false) ==> r == Err(InvalidAddress)
    ensures r.Ok? <==> Wallet.ValidateAddress(c, address) == Ok(true)
    ensures r.Ok? ==> var d := c.base58Decode(address).value;
                      |d| >= 1 + Wallet.ChecksumLength && r.value == Balance(c, d, bc.chain)
  {
    var valid :- Wallet.ValidateAddress(c, address);
    if !valid {
      return Err(InvalidAddress);
    }
    var balance := 0;
    var pubKeyHash := c.base58Decode(address).value;
    pubKeyHash := pubKeyHash[1..|pubKeyHash| - 4];
    var utxos := bc.FindUTXO(c, pubKeyHash);
    for i := 0 to |utxos|
      invariant balance == SumValues(utxos[..i])
    {
      assert utxos[..i + 1][..i] == utxos[..i];
      balance := balance + utxos[i].value;
    }
    assert utxos[..|utxos|] == utxos;
    return Ok(balance);
  }

  /** A wallet's own address is accepted, and its balance adds up the outputs FindUTXO returns
      for the hash of the wallet's public key, provided base58 decoding undoes encoding. */
  lemma WalletBalance(c: Crypto, w: Wallet.Wallet, chain: seq<Blocks.Block>)
    requires c.base58Decode(c.base58Encode(Wallet.AddressPayload(c, w.publicKey))) == Some(Wallet.AddressPayload(c, w.publicKey))
    ensures Wallet.ValidateAddress(c, Wallet.Address(c, w)) == Ok(true)
    ensures var d := c.base58Decode(Wallet.Address(c, w)).value;
            |d| >= 1 + Wallet.ChecksumLength &&
            Balance(c, d, chain) == SumValues(UnspentOutputsAsWritten(c, Wallet.PublicKeyHash(c, w.publicKey), chain))
  {
    Wallet.AddressValidates(c, w);
    Wallet.AddressKeyHash(c, w);
  }
}

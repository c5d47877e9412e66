# A verified model of the blockchain-tutorial ledger

This project is a Dafny model of the core of `ungame/blockchain-tutorial`. That program is a
small Go blockchain with UTXO accounting, meaning that coins are unspent transaction outputs,
and with proof-of-work mining. Its parts:

- A **transaction** spends outputs of earlier transactions through inputs and creates new
  outputs, each locked to a public-key hash.
- A **coinbase** transaction creates the 100-coin reward from nothing.
- Each input is signed with ECDSA over a digest of a *trimmed copy* of the transaction. In
  that copy, signatures and public keys are blanked, and the input being signed carries the
  key hash of the output it spends.
- A **block** holds transactions, the hash of the previous block and a nonce.
- **Mining** searches nonces from 0 in increasing order. It looks for one whose SHA-256
  digest, over previous hash ‖ transactions hash ‖ nonce ‖ difficulty, is below 2^(256−14).
- The **ledger** stores blocks by hash in a key-value store, with the head under the key
  `"lh"`, and walks from the head back to genesis. On that walk it:
  - collects the unspent outputs of a key;
  - selects outputs to pay an amount;
  - finds the source transactions of the inputs;
  - signs and verifies transfers.
- **Wallet addresses** are base58 of version byte ‖ RIPEMD160(SHA256(public key)) ‖
  checksum. The checksum is the first 4 bytes of a double SHA-256.
- The **command line** checks the arguments of `send` and adds up a balance.

Module layout:

| module | file | what it models |
|---|---|---|
| `Primitives` | `primitives.dfy` | bytes, `int64`, the error results, the foreign primitives |
| `Tx` | `tx.dfy` | outputs, inputs, locking |
| `Wallet` | `wallet.dfy` | the address layout |
| `Transactions` | `transaction.dfy` | IDs, coinbase, trimmed copy, Sign, Verify, building a transfer |
| `Signing` | `signing.dfy` | the r ‖ s signature layout: a signer it fails for, and the fixed-width layout |
| `Blocks` | `block.dfy` | blocks and their transactions hash |
| `Proof` | `proof.dfy` | proof of work and block creation |
| `Storage` | `storage.dfy` | the store and the walk along previous hashes |
| `Iteration` | `iterator.dfy` | the chain iterator |
| `Resolver` | `resolver.dfy` | reference functions for what the ledger's walks compute, with their properties |
| `Ledger` | `blockchain.dfy` | the `BlockChain` class and its methods |
| `Cli` | `cmd.dfy` | `validateSend` and `getBalance` |
| `Sequences` | `seqs.dfy` | generic sequence lemmas |

How the model is put together:

- Foreign primitives (SHA-256, RIPEMD160, base58, ECDSA) are uninterpreted fields of a
  `Crypto` value. Gob serialisation is an uninterpreted `Encoder`. Every property is proved
  for all such primitives, unless it names the assumptions it needs. These are a base58 round
  trip, ECDSA correctness for one key pair (`KeyPairSound`), and, for the signature layout
  as written, r and s of equal widths (`EqualWidthScalars`).
- Go panics become error results: `log.Panic`, `runtime.Goexit`, `HandleError` and runtime
  index panics.
- The persistent store becomes a class holding a map.
- The ledger's methods are loops, proved against the recursive reference functions in
  `Resolver`.
- Those reference functions carry the properties the program relies on:
  - the greedy selection is a minimal prefix;
  - every input finds its first source transaction on the walk;
  - signing followed by verifying succeeds when the key pair is correct and the signer's r
    and s have the same width;
  - with r and s each padded to 32 bytes, a correct key pair alone suffices (`Signing`).

## Model

| member | source | states |
|---|---|---|
| Transactions.Hash | blockchain/transaction.go:50-56 | SHA-256 of the encoding of a copy with the ID cleared; its property is HashIgnoresId |
| Transactions.HashIgnoresId | blockchain/transaction.go:50-56 | the transaction hash blanks the ID first, so it does not depend on the ID |
| Transactions.SetID | blockchain/transaction.go:38-48 | inputs and outputs unchanged; for a transaction built with an empty ID, the ID set is the hash of the result |
| Transactions.IsCoinbase | blockchain/transaction.go:58-60 | one input, with an empty source ID and output index −1; CoinbaseTx's result satisfies it |
| Transactions.CoinbaseTx | blockchain/transaction.go:177-198 | succeeds exactly when the reward output can be locked; the result is a coinbase with the single input (empty ID, −1, data or "Coins to " + address), one output of 100 locked to the address, and an ID that is its hash |
| Transactions.Trimmed | blockchain/transaction.go:90-113 | same ID and outputs; every input keeps its reference and has empty signature and public key |
| Transactions.TrimmedCopy | blockchain/transaction.go:90-113 | the loop builds exactly the trimmed copy |
| Transactions.TrimmedDependsOnReferences | blockchain/transaction.go:90-113 | two transactions with the same ID, outputs and input references have the same trimmed copy |
| Transactions.DigestPreimage | blockchain/transaction.go:75-80 | what input i's digest is taken over: the trimmed copy with only input i carrying the key hash of the output it spends |
| Transactions.HasPrior | blockchain/transaction.go:66-70 | the source transaction of an input is known: the `ID == nil` test on the map lookup |
| Transactions.SigningDigest | blockchain/transaction.go:75-82 | the digest signed for input i, and recomputed by Verify at lines 129-134; SigningDigestIgnoresSignatures shows both sides agree |
| Transactions.SignatureOf | blockchain/transaction.go:85 | r ‖ s as the signer returns them; UnevenScalarsRejected shows where this layout fails |
| Transactions.SigningDigestIgnoresSignatures | blockchain/transaction.go:129-135 | an input's digest is the same before and after signatures and public keys are filled in, so Verify recomputes the digest Sign signed |
| Transactions.SignResult | blockchain/transaction.go:62-88 | what Sign leaves in the transaction; its meaning is SignResultMeaning and Sign computes it |
| Transactions.SignResultMeaning | blockchain/transaction.go:62-88 | coinbase unchanged; a missing source transaction is MissingPriorTransaction; succeeds iff every source is present and every output index is in range; on success only the signatures change, each the signature of its own input's digest |
| Transactions.Sign | blockchain/transaction.go:62-88 | the two loops compute SignResult: the presence check, then one signature per input on the evolving trimmed copy |
| Transactions.SignInput | blockchain/transaction.go:75-86 | one round of the signing loop leaves the trimmed copy's inputs as they were and yields the signature of that input's digest |
| Transactions.SignedAll | blockchain/transaction.go:75-87 | inputs signed one by one with their own digests are exactly SignResult's transaction |
| Transactions.InputVerifies | blockchain/transaction.go:137-150 | one input's check: the key and the signature split at half their lengths, verified against that input's digest |
| Transactions.VerifyFrom | blockchain/transaction.go:129-153 | the verification loop from input i on; VerifyFromError, VerifyFromAccepts and VerifyFromRejects state its meaning |
| Transactions.VerifyFromError | blockchain/transaction.go:129-153 | the only error the verification loop can raise is an out-of-range output index |
| Transactions.VerifyFromAccepts | blockchain/transaction.go:129-153 | the loop accepts iff every remaining input has an in-range index and a signature that verifies against its digest |
| Transactions.VerifyFromRejects | blockchain/transaction.go:129-153 | the loop returns false iff some input fails its signature while every earlier input is in range and verifies |
| Transactions.VerifyResult | blockchain/transaction.go:115-154 | what Verify returns; its meaning is VerifyMeaning and Verify computes it |
| Transactions.VerifyMeaning | blockchain/transaction.go:115-154 | coinbase verifies; a missing source is MissingPriorTransaction; otherwise true iff every input has an in-range index and a valid signature |
| Transactions.Verify | blockchain/transaction.go:115-154 | the method's loops compute VerifyResult, including the early `false` |
| Transactions.VerifyInput | blockchain/transaction.go:129-150 | one round of the verification loop keeps the trimmed copy's inputs and yields whether that input's signature verifies |
| Transactions.SignedVerifies | blockchain/transaction.go:115-154 | a transaction signed with a private key, whose inputs carry the matching public key, verifies against the same source transactions; the hypotheses are that the key pair is correct (`KeyPairSound`) and that the signer's r and s have equal widths (`EqualWidthScalars`) |
| Signing.UnevenScalarsRejected | blockchain/transaction.go:85-140 | for a correct key pair whose signer returns a 32-byte r and a 31-byte s, signing succeeds and verifying the signed transaction returns false |
| Signing.PadKeepsValue | blockchain/transaction.go:137-140 | left-padding with zeros to 32 bytes keeps the number `SetBytes` reads |
| Signing.FixedWidthSplits | blockchain/transaction.go:138-140 | splitting a fixed-width signature in half gives back the padded r and s |
| Signing.FixedWidthSignedVerifies | blockchain/transaction.go:62-154 | with r and s each padded to 32 bytes, a signed transaction verifies for every correct key pair whose scalars fit in 32 bytes, given a verifier that reads r and s as numbers |
| Transactions.TransferOutputs | blockchain/transaction.go:211-230 | InsufficientFunds below the amount; otherwise one output of `amount` to the receiver, plus change of accumulated − amount to the sender when positive; the outputs add up to the accumulated total |
| Transactions.BuildInputs | blockchain/transaction.go:215-223 | each selected (transaction, index) pair becomes an input exactly as many times as it was selected; inputs are unsigned and carry the wallet's public key |
| Transactions.AppendInputs | blockchain/transaction.go:219-222 | the inner loop adds one input per listed index of one transaction and no others |
| Tx.Lock | blockchain/tx.go:19-23 | a failed decoding is DecodeFailed and fewer than 5 decoded bytes fail; otherwise the key hash is what lies between the version byte and the 4-byte checksum, and the value is untouched |
| Tx.NewTxOutput | blockchain/tx.go:13-17 | an output of the value locked to the address's key hash, failing exactly when locking does |
| Tx.IsLockedWithKey | blockchain/tx.go:25-27 | true iff the key hashes are equal byte for byte |
| Tx.UsesKey | blockchain/tx.go:36-39 | true iff the hash of the input's public key equals the given key hash byte for byte |
| Tx.NewTxOutputForWallet | blockchain/tx.go:13-17 | an output paid to a wallet's address is locked exactly to the hash of that wallet's public key |
| Wallet.PublicKeyHash | wallet/wallet.go:63-71 | RIPEMD160 of the SHA-256 of the public key; AddressKeyHash and NewTxOutputForWallet are stated over it |
| Wallet.Address | wallet/wallet.go:29-51 | base58 of the address payload; AddressValidates and AddressKeyHash are its properties |
| Wallet.Checksum | wallet/wallet.go:73-77 | 4 bytes, a prefix of the double SHA-256 of the payload |
| Wallet.AddressPayload | wallet/wallet.go:35-44 | version byte 0, then the public-key hash, then the checksum of everything before it |
| Wallet.PayloadKeyHash | blockchain/tx.go:20-22 | version byte ‖ key hash ‖ 4-byte checksum splits the decoded address back into its parts |
| Wallet.ValidateAddress | wallet/wallet.go:80-91 | DecodeFailed when decoding fails, an index error below 5 bytes; otherwise true iff the last 4 bytes are the checksum of the rest |
| Wallet.AddressValidates | wallet/wallet.go:80-91 | a wallet's own address validates, given that base58 decoding undoes encoding |
| Wallet.AddressKeyHash | wallet/wallet.go:29-51 | the key hash read back from a wallet's address is the hash of its public key |
| Blocks.HashTransactions | blockchain/block.go:18-29 | SHA-256 of the joined transaction IDs; HashTransactionsOnlyTransactions is its property |
| Blocks.JoinIds | blockchain/block.go:18-29 | the transaction IDs joined in list order with no separator; JoinIdsFixedWidth and JoinIdsAppend are its properties |
| Blocks.JoinIdsFixedWidth | blockchain/block.go:18-29 | joining 32-byte IDs places the k-th ID at bytes 32k to 32k+32 (the join is unambiguous) |
| Blocks.JoinIdsAppend | blockchain/block.go:18-29 | joining distributes over concatenation |
| Blocks.HashTransactionsOnlyTransactions | blockchain/block.go:18-29 | the transactions hash depends only on the transactions, not on hash, nonce or previous hash |
| Proof.NewProofOfWork | blockchain/proof.go:20-27 | the target is 1 shifted left by 256 − 14, i.e. 4·256^30 |
| Proof.BelowTargetLeadingZeros | blockchain/proof.go:20-27 | a digest is below the target iff its first 14 bits are zero |
| Proof.FromBigEndianBound | blockchain/proof.go:51 | an n-byte big-endian number is below 256^n |
| Proof.FromToBigEndian | blockchain/proof.go:51 | writing a number below 256^n in n bytes and reading it back gives the number |
| Proof.ToFromBigEndian | blockchain/proof.go:51 | reading bytes as a number and writing it back gives the bytes |
| Proof.FromBigEndianAppend | blockchain/proof.go:51 | the value of hi ‖ lo is value(hi)·256^|lo| + value(lo) |
| Proof.Int64ToHex | blockchain/proof.go:74-81 | 8 bytes, from which HexToInt64 reads the number back |
| Proof.HexToInt64RoundTrip | blockchain/proof.go:74-81 | every 8-byte string is the encoding of the number it reads as |
| Proof.Int64ToHexInjective | blockchain/proof.go:74-81 | equal encodings iff equal numbers |
| Proof.InitData | blockchain/proof.go:29-39 | the mining preimage; its layout and injectivity are InitDataLayout and InitDataInjective |
| Proof.InitDataLayout | blockchain/proof.go:29-39 | the mining preimage is previous hash ‖ 32-byte transactions hash ‖ 8-byte nonce ‖ 8-byte difficulty, and nonce and difficulty read back |
| Proof.InitDataInjective | blockchain/proof.go:29-39 | different nonces give different preimages |
| Proof.InitDataIgnoresHashAndNonce | blockchain/proof.go:29-39 | the preimage and the target test do not depend on the block's stored hash and nonce |
| Proof.MeetsTarget | blockchain/proof.go:49-53 | the digest for the nonce, read as a big-endian number, is below the target; BelowTargetLeadingZeros characterises it |
| Proof.Validate | blockchain/proof.go:65-72 | true iff the digest of the preimage for the block's own nonce, read as a number, is below the target |
| Proof.FirstGoodNonce | blockchain/proof.go:47-58 | the nonce the search stops at, or None when it reaches MaxInt64; its meaning is FirstGoodNonceMeaning |
| Proof.FirstGoodNonceMeaning | blockchain/proof.go:47-58 | the search result, if any, is the least nonce at or above the start that meets the target; no nonce before it, or before MaxInt64, meets it |
| Proof.FirstGoodNonceStep | blockchain/proof.go:47-58 | one step of the search: stop at MaxInt64, stop at a hit, otherwise go on to the next nonce |
| Proof.Run | blockchain/proof.go:41-63 | corrected mining loop: the least nonce meeting the target and that nonce's digest, or None exactly when no nonce below MaxInt64 meets it |
| Proof.RunAsWritten | blockchain/proof.go:41-63 | the loop as written, including the digest left over from the last nonce tried when the search runs out |
| Proof.RunAsWrittenReturnsStaleHash | blockchain/proof.go:47-62 | an input on which the loop as written returns nonce MaxInt64 with a digest that is not that nonce's and is above the target, yet the block validates |
| Proof.Mined | blockchain/block.go:68-73 | the block mining is meant to produce: the least nonce meeting the target with its digest as the hash, or None; MinedNone and CreateBlock state its properties |
| Proof.MinedNone | blockchain/proof.go:47-58 | mining yields nothing exactly when no nonce below MaxInt64 meets the target |
| Proof.CreateBlock | blockchain/block.go:68-73 | a block of the transactions over the previous hash; its nonce is the least that meets the target, its hash is that nonce's digest and it validates; MiningExhausted exactly when no nonce does; the result is `Mined` |
| Proof.Genesis | blockchain/block.go:75-77 | a validating block holding only the coinbase, with an empty previous hash; MiningExhausted exactly when no nonce meets the target for that block; the result is `Mined` |
| Storage.WalkUnique | blockchain/iterator.go:20-42 | the blocks a walk from a key reads are determined by the key |
| Storage.WalkShape | blockchain/blockchain.go:162-164 | only the last block of a walk has an empty previous hash, and each previous hash keys the next block |
| Storage.WalkFrame | blockchain/blockchain.go:229-236 | storing under a key the walk does not use leaves the walk intact |
| Storage.WalkExtend | blockchain/blockchain.go:229-239 | a new block over the head, stored under a fresh key, extends the walk by one block at the front |
| Iteration.BlockChainIterator.Next | blockchain/iterator.go:20-42 | yields the block under the cursor and moves the cursor to its previous hash; NotFound for a missing key leaves the cursor where it was |
| Iteration.BlockChainIterator.NextOnWalk | blockchain/iterator.go:20-42 | along a walk, the block yielded is the walk's first and the cursor moves onto the rest |
| Ledger.BlockChain.Iterator | blockchain/iterator.go:14-18 | a fresh iterator at the head over the same store |
| Resolver.Scan | blockchain/blockchain.go:100-168 | the transactions found and the outpoints recorded as spent after scanning a list of transactions in walk order; ScanSnoc, ScanFindsScanned and RecordInputsSpent are its properties |
| Resolver.UnspentTransactions | blockchain/blockchain.go:100-168 | the scan over every transaction of the walk; FindUnspentTransactions computes it |
| Resolver.UnspentIndices | blockchain/blockchain.go:118-141 | the output indices the scan keeps for one transaction; UnspentIndicesMeaning is its meaning |
| Resolver.RecordInputs | blockchain/blockchain.go:144-159 | the spent map after one transaction's inputs; RecordInputsSpent is its meaning |
| Resolver.UnspentIndicesMeaning | blockchain/blockchain.go:118-141 | an output index is kept iff it is not recorded as spent and its output is locked to the key; kept indices increase |
| Resolver.RecordInputsSpent | blockchain/blockchain.go:144-159 | after a transaction's inputs are recorded, an outpoint counts as spent iff it was already spent or one of the inputs whose key hashes to the key spends it |
| Resolver.Step | blockchain/blockchain.go:113-160 | one transaction of the scan: it is appended once per kept output index, and its inputs are recorded unless it is a coinbase |
| Resolver.ScanFindsScanned | blockchain/blockchain.go:139 | every transaction the scan returns is one of those scanned |
| Resolver.LockedOutputs | blockchain/blockchain.go:170-184 | FindUTXO's collection over a transaction list; LockedOutputsAppend and LockedOutputsSound are its properties |
| Resolver.LockedOfMembers | blockchain/blockchain.go:176-180 | an output is selected iff it is one of the outputs and locked to the key |
| Resolver.LockedOutputsAppend | blockchain/blockchain.go:175-181 | FindUTXO's collection distributes over concatenation of the transaction list |
| Resolver.LockedOutputsSound | blockchain/blockchain.go:170-184 | every output FindUTXO returns is locked to the key and belongs to a returned transaction |
| Resolver.UnspentOutputsWhenSingleLocked | blockchain/blockchain.go:170-184 | when no transaction has more than one output locked to the key, FindUTXO returns exactly the unspent outputs of the per-index reference |
| Resolver.UnspentLockedOutputsSound | blockchain/blockchain.go:113-184 | every output the per-output reference lists is locked to the key and not spent by a transaction walked before its own |
| Resolver.UnspentLockedOutputsComplete | blockchain/blockchain.go:113-184 | every output locked to the key and not spent by a transaction walked before its own is listed by the reference |
| Resolver.DoubleSelectedOutput | blockchain/blockchain.go:187-209 | a one-block chain on which the transaction with two outputs of 5 is returned twice, so selecting 15 takes output 0 twice: FindSpendableOutputs reports 15 from a holding of 10 |
| Resolver.TwinOutputsScan | blockchain/blockchain.go:113-141 | a transaction with two outputs locked to the key and nothing spending them is returned twice |
| Resolver.TwinOutputsOffered | blockchain/blockchain.go:193-197 | listed twice, it offers each output twice |
| Resolver.TwinOutputsValue | blockchain/blockchain.go:187-209 | the two outputs of that transaction hold 10 in all |
| Resolver.TwinOutputsTaken | blockchain/blockchain.go:197-202 | taking 15 from four offers of 5 stops after three, with the first outpoint taken twice |
| Resolver.DoubleCountedOutput | blockchain/blockchain.go:138-140 | a concrete chain on which FindUTXO reports a spent output alongside the unspent one, because FindUnspentTransactions returns the transaction and FindUTXO re-reads all its locked outputs |
| Resolver.Candidates | blockchain/blockchain.go:193-197 | the (transaction, index, value) triples the selection loop is offered, in walk order; CandidatesSound is its property |
| Resolver.CandidatesOfSound | blockchain/blockchain.go:196-197 | each spend candidate from a transaction names one of its outputs locked to the key, with that output's value |
| Resolver.CandidatesSound | blockchain/blockchain.go:193-197 | each candidate comes from one of the unspent transactions |
| Resolver.Take | blockchain/blockchain.go:192-206 | the greedy selection; TakeAll, TakePrefix, TakeMinimal and TakeSaturated are its properties |
| Resolver.TakeAll | blockchain/blockchain.go:192-206 | when the total stays below the amount, everything offered is taken |
| Resolver.TakePrefix | blockchain/blockchain.go:192-206 | the greedy selection is a prefix of what is offered |
| Resolver.TakeMinimal | blockchain/blockchain.go:197-202 | every proper prefix of the selection totals below the amount (nothing is taken after the amount is reached) |
| Resolver.TakeSaturated | blockchain/blockchain.go:201-202 | once a prefix reaches the amount, offering more changes nothing (the `break Work`) |
| Resolver.TakeNonPositive | blockchain/blockchain.go:197 | nothing is taken for an amount that is not positive |
| Resolver.Group | blockchain/blockchain.go:199 | the selected indices grouped by transaction ID in selection order; GroupCounts is its meaning |
| Resolver.GroupCounts | blockchain/blockchain.go:199 | the map of selected indices lists each outpoint as often as it was taken |
| Resolver.SpendableSelection | blockchain/blockchain.go:187-209 | the greedy selection over the candidates of the scan's transactions; SelectionFacts states its properties |
| Resolver.SelectionFacts | blockchain/blockchain.go:187-209 | the selection is offered candidates in walk order, a minimal prefix, all candidates when short, and empty for a non-positive amount |
| Resolver.FirstIndex | blockchain/blockchain.go:247-251 | the position of the first transaction with the ID, or the length when there is none |
| Resolver.FirstWithId | blockchain/blockchain.go:242-258 | None iff no transaction has the ID; otherwise the first that has it |
| Resolver.FirstWithIdAppend | blockchain/blockchain.go:244-256 | searching a concatenation searches the first part, then the second |
| Resolver.FoundOnWalk | blockchain/blockchain.go:247-250 | a match found block by block, after none earlier, is the first match on the whole walk |
| Resolver.InputIds | blockchain/blockchain.go:264-268 | the set of the inputs' source IDs |
| Resolver.PriorTransactions | blockchain/blockchain.go:264-268 | succeeds iff every input's source is on the walk; the only error is NotFound |
| Resolver.PriorTransactionsContents | blockchain/blockchain.go:264-268 | the map is keyed by exactly the inputs' IDs, each mapped to the first transaction with that ID |
| Ledger.BlockChain.FindUnspentTransactions | blockchain/blockchain.go:100-168 | the nested loops over the walk compute the reference scan, transaction by transaction from the head |
| Ledger.UnspentCopies | blockchain/blockchain.go:118-141 | the output loop appends the transaction once per unspent output locked to the key |
| Ledger.Recorded | blockchain/blockchain.go:121-132 | the inner search finds the index iff it is recorded as spent |
| Ledger.RecordSpent | blockchain/blockchain.go:144-159 | the input loop records what RecordInputs records |
| Ledger.BlockChain.FindUTXO | blockchain/blockchain.go:170-184 | the outputs locked to the key of every returned transaction, in order |
| Ledger.LockedOutputsOf | blockchain/blockchain.go:176-180 | the inner loop collects the transaction's locked outputs |
| Ledger.BlockChain.FindSpendableOutputs | blockchain/blockchain.go:187-209 | the total and the per-transaction index lists of the greedy selection |
| Ledger.TakeOutputs | blockchain/blockchain.go:196-205 | one transaction's output loop extends the greedy selection, and `done` reports that the amount was reached |
| Ledger.TakeOutput | blockchain/blockchain.go:197-203 | one output is taken iff it is locked and the total is still short; `reached` iff taking it reaches the amount |
| Ledger.BlockChain.FindTransaction | blockchain/blockchain.go:242-259 | the first transaction with the ID on the walk from the head, or NotFound after genesis |
| Ledger.BlockChain.PriorTransactionsOf | blockchain/blockchain.go:264-268 | the loop builds the source-transaction map, failing on the first missing one |
| Ledger.BlockChain.SignTx | blockchain/blockchain.go:261-271 | Sign over the source transactions found on the walk; a missing source is NotFound |
| Ledger.BlockChain.VerifyTx | blockchain/blockchain.go:273-283 | Verify over the source transactions found on the walk; a missing source is NotFound |
| Ledger.BlockChain.AddBlock | blockchain/blockchain.go:211-240 | mines over the stored head and stores the block; the new block is `Mined` over the old head, validates, becomes the head, and the walk grows by exactly that block; MiningExhausted exactly when no nonce meets the target, HashCollision exactly when the mined hash is already stored, and on failure nothing changes |
| Ledger.BlockChain.NewTransaction | blockchain/transaction.go:200-240 | InsufficientFunds exactly when the selection falls short; then the outputs' error when the payment or change cannot be locked; otherwise the unsigned transaction pays the receiver and the change, has one input per selection entry (an outpoint selected twice is spent twice), and carries its own hash as ID, and the result is SignTx's on it: NotFound for a missing source, else SignResult |
| Ledger.SpendsSelection | blockchain/transaction.go:215-237 | signing keeps the selected outpoints and their counts, and clearing signatures gives the unsigned transaction back |
| Ledger.SignKeepsUnsigned | blockchain/transaction.go:62-88 | a signed transaction with its signatures cleared is the unsigned one |
| Ledger.InitBlockChain | blockchain/blockchain.go:31-66 | refused when a store exists; the coinbase's error when it cannot be built; otherwise MiningExhausted exactly when no nonce meets the target for the genesis block, and else a fresh store holding exactly the `Mined` genesis block paying the reward to the address, under its hash and as the head |
| Ledger.StoreGenesis | blockchain/blockchain.go:51-65 | a fresh store and chain holding only the genesis block, under its hash and as the head, satisfying the chain invariant |
| Cli.TrimSpace | cmd/cmd.go:201-204 | `strings.TrimSpace`; TrimSpaceShape, TrimSpaceEnds and TrimSpaceEmpty are its properties |
| Cli.TrimSpaceShape | cmd/cmd.go:201-206 | trimming leaves a piece of the string with only spaces removed on either side |
| Cli.TrimSpaceEnds | cmd/cmd.go:201-206 | what trimming leaves neither starts nor ends with a space |
| Cli.TrimSpaceEmpty | cmd/cmd.go:201-206 | a string trims to "" iff it consists of spaces |
| Cli.ValidateSend | cmd/cmd.go:200-211 | checks in order: a blank sender, then a blank receiver, then a non-positive amount; no error iff both names are non-blank and the amount is positive |
| Cli.Balance | cmd/cmd.go:78-85 | the sum of the values of the outputs FindUTXO returns for the key hash cut out of the decoded address; GetBalance and WalletBalance are stated over it |
| Cli.GetBalance | cmd/cmd.go:70-88 | an invalid address is an error; otherwise the sum of the values FindUTXO returns for the key hash carried in the address |
| Cli.WalletBalance | cmd/cmd.go:70-88 | a wallet's own address is accepted, and its balance is taken over the hash of its public key |

## Left out

- Serialisation and cryptography are uninterpreted parameters:
  - gob encoding;
  - SHA-256 and RIPEMD160;
  - base58;
  - ECDSA, with the random source folded into the signing function, `ecdsaSign`.
  - Nothing is proved about collisions.
  - `KeyPairSound` states ECDSA correctness for one key pair. `EqualWidthScalars` states that the signer's r and s always have the same length. Both are hypotheses of `Transactions.SignedVerifies`. Go's encoding does not guarantee the second; see Findings.
- Badger, the files and the printing are not modelled:
  - the on-disk database is a `Store` object holding a map from hash to block and the head pointer;
  - block (de)serialisation is the identity;
  - `DbExists` is a parameter of `InitBlockChain`;
  - `Close`, `Block.Info`, `Transaction.String` and all printing are left out.
- `ContinueBlockChain` (blockchain.go:68-98) is not modelled. It only reopens the store, so a `BlockChain` is constructed with `Valid()` as its invariant.
- The wallet file (`wallet/wallets.go`), key generation (`wallet/keys.go`) and `PrivateKeyHash` are not part of this model. A wallet is a private key and a public key.
- Keys made by `NewKeyPair` (wallet/keys.go:14-24) cannot be expected to satisfy `KeyPairSound`. The private key is on P-256, but the public key is the 65-byte uncompressed secp256k1 point for the same scalar, and Verify splits it in half as if it were a P-256 x ‖ y. The model proves nothing for those keys.
- `HandleError`, `log.Panic`, `runtime.Goexit` and runtime panics on a bad slice or index become `Err` results. A panic in the middle of an operation therefore becomes an error result with no partial effects.
- Ledger.BlockChain.AddBlock: the model adds a guard that returns `HashCollision` when the mined hash is already a key of the store. The Go code would overwrite the block and could make the walk cyclic. The guard is there only to keep the walk invariant.
- Tx.Lock and Transactions.Sign are modelled on values (a functional update that returns the new output or transaction). In Go these methods mutate through a pointer, but the structs are copied by value into slices and maps, so no aliasing is observable.
- Cli.GetBalance: does not model the 64-bit wrap-around of Go's `int` sum, because values are plain integers.
- Ledger.BlockChain.FindSpendableOutputs: does not model the 64-bit wrap-around of `accumulated`, for the same reason.
- Transactions.BuildInputs: Go iterates the map of selected outputs in a random order. The model takes the keys in an arbitrary order, so the contract states only how often each outpoint is spent, not the order of the inputs.
- The hex encoding of map keys is the identity, because hex encoding is injective.
- `strings.TrimSpace` works on `seq<char>`, with Go's `unicode.IsSpace` set written out. There is no UTF-8 decoding.
- Proof.CreateBlock: an empty transaction list is accepted, because blockchain/block.go:68-73 does not check for it; the model follows the code.
- A coinbase input has an empty source ID. `SignTx` and `VerifyTx` look that ID up on the walk before calling Sign or Verify. As in the code, this fails with NotFound unless some stored transaction has an empty ID.
- Mining at MaxInt64 is corrected in `Proof.Run`, which `CreateBlock` uses. The behaviour as written is kept in `Proof.RunAsWritten`; see Findings.
- Transactions.Sign keeps Go's r ‖ s layout, which is the one `NewTransaction` uses. The fixed-width layout is proved separately in `Signing`, so the ledger's own signing promises nothing when r and s differ in width.
- Ledger.BlockChain.FindUTXO and `Cli.GetBalance` keep the double count as written. The per-output reference `Resolver.UnspentLockedOutputs` is proved correct on its own, and it agrees with the code when no transaction has two outputs locked to the key.
- Ledger.BlockChain.FindSpendableOutputs and `NewTransaction` keep the double selection as written: an outpoint can be selected, and spent, more than once. No corrected selection is modelled; the correction covers only the balance.

## Findings

| source | as written | input that shows it | evidently intended | confidence | as-written member | corrected member |
|---|---|---|---|---|---|---|
| blockchain/proof.go:47-62 | when no nonce below MaxInt64 meets the target, the loop ends with nonce = MaxInt64 and returns the digest computed for MaxInt64 − 1, which is stale and above the target; CreateBlock stores that block | a hash function for which every nonce below MaxInt64 gives 32 bytes of 0xFF and MaxInt64 gives zeros: the returned block has a hash that is not its nonce's digest, yet `Validate` accepts it | report that mining failed instead of returning a nonce and a hash that do not belong together | not executed | Proof.RunAsWritten, Proof.RunAsWrittenReturnsStaleHash | Proof.Run |
| blockchain/transaction.go:85-140 | Sign stores `r.Bytes()` ‖ `s.Bytes()`, which drops leading zero bytes, and Verify splits the signature at half its length | a correct key pair whose signer returns a 32-byte r and a 31-byte s: the 63-byte signature splits into 31 and 32 bytes, so verifying the signed transaction returns false | write r and s in 32 bytes each, so that the halves are the scalars | not executed | Signing.UnevenScalarsRejected | Signing.FixedWidthSignResult, Signing.FixedWidthSignedVerifies (the ledger keeps the code's layout) |
| blockchain/blockchain.go:138-180 | FindUnspentTransactions returns a transaction once per unspent output locked to the key, and FindUTXO re-reads all of its locked outputs, spent ones included; FindSpendableOutputs (lines 187-209) offers the outputs of every returned copy, so it can select one outpoint twice | a transaction with two outputs locked to the key, one of which a later transaction spends: FindUTXO reports both, and the spent one counts in the balance; and a block holding one transaction with two outputs of 5 locked to the key: selecting 15 takes output 0 twice, so NewTransaction pays 15 from a holding of 10 | report, and offer, each unspent output once | not executed | Resolver.DoubleCountedOutput, Resolver.DoubleSelectedOutput | Resolver.UnspentLockedOutputs, Resolver.UnspentLockedOutputsSound, Resolver.UnspentLockedOutputsComplete (this corrects the balance only; the ledger, the balance and the selection keep the code's behaviour) |

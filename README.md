# A verified model of the go_blockchain ledgers

The repository holds two small blockchain servers written in Go.

- **The transaction ledger** (`transactions/`). Its blocks carry Bitcoin-style
  transactions. Each transaction spends earlier outputs through its inputs and
  locks values to addresses through its outputs.
  - Coinbase transactions mint a subsidy of 10.
  - The ledger answers balance queries by scanning the chain backwards for
    unspent outputs.
  - It builds a transfer by greedily selecting spendable outputs up to the
    amount, with a change output for any excess.
  - It seals each new block by searching for a nonce whose block hash starts
    with `difficulty` zeros (1 here).
- **The proof-of-work ledger** (`proof-work/`). Its blocks carry a single
  integer value and are sealed at difficulty 6.

In both, the write handler appends the generated block only when it validates
against the current tail. A block validates when its predecessor hash links to
the tail and its stored hash recomputes.

The model, file by file:

- `golib.dfy` (module `GoLib`) stands in for the pieces of Go's standard
  library the programs call:
  - `strings.Repeat`, `strings.HasPrefix`, `fmt.Sprintf("%x")` and `strconv.Itoa`;
  - SHA-256 and hex encoding, as uninterpreted deterministic function values
    (`Primitives`).
- `work.dfy` (module `Work`): the shared difficulty test `isHashValid`.
- `transaction.dfy` (module `Transactions`): inputs, outputs, transactions, the
  coinbase shape, the lock checks, `SetID` and `NewCoinbaseTX`.
- `chain.dfy` (module `Chain`): the transaction ledger's blocks, the block hash,
  block validity, the chain invariant and the genesis block.
- `utxo.dfy` (module `Utxo`): reference definitions of what the backward scan,
  `FindUTXO`, the balance and `FindSpendableOutputs` return, stated over the
  block sequence. Also the lemmas about them: soundness and completeness of
  the scan, what the selection takes, and the multiset of outputs a selection
  map names.
- `ledger.dfy` (module `Ledger`): the class `Blockchain` with the imperative
  operations. The loops of the scans and of the selection are proved equal to
  their reference definitions. The transfer builder is proved to return a
  transfer of the selected outputs (`Utxo.IsTransfer`), and the nonce search is
  proved to return the block of the first counter that seals it.
- `proofwork.dfy` (module `ProofWork`): the proof-of-work variant, with its own
  block type, hash record, nonce search and guarded append.

Go's map iteration order in `NewUTXOTransaction` is unspecified. The model
picks keys by an arbitrary choice, and its contract holds whatever order is
picked: the multiset of referenced outputs equals the multiset the selection
map names.

The model keeps four behaviours of the code as they are:

- a transaction is listed once per live output;
- `FindUTXO` and `FindSpendableOutputs` take every address-locked output of a
  listed transaction, without re-checking whether it was spent;
- the scan stops at the first block with no transactions;
- the genesis hash is computed over the all-empty block.

The genesis block is not sealed. Its hash is computed over the zero block
(`NewGenesisBlock`), so it does not recompute to its own hash
(`ProofWork.GenesisNotSelfValidating`, and `Chain.GenesisNotSelfValidating`
given that a longer input never gets a shorter SHA-256 digest). The sealing invariant of both chains
(`ChainSealed`) therefore covers every block after the genesis block.

## Model

| member | source | states |
|---|---|---|
| Work.IsHashValid | transactions/main.go:234-237 | definition of the difficulty test: the hash starts with `difficulty` copies of '0'; characterised by Work.IsHashValidIff |
| Work.IsHashValidIff | transactions/main.go:234-237 | a hash meets difficulty d exactly when it has at least d characters and the first d are all '0' |
| Work.IsHashValidMonotone | proof-work/main.go:192-195 | a hash that meets a difficulty meets every lower difficulty |
| GoLib.FormatHex | transactions/main.go:220 | `fmt.Sprintf("%x")` of the counter: a non-empty string of hexadecimal digits that starts with '0' exactly when the counter is 0 |
| GoLib.FormatHexInjective | transactions/main.go:220 | distinct nonce counters give distinct hexadecimal nonce strings |
| GoLib.Itoa | proof-work/main.go:160 | `strconv.Itoa`: decimal digits, with a leading '-' exactly for a negative value; its inverse is stated by GoLib.ItoaRoundTrip |
| GoLib.ItoaRoundTrip | proof-work/main.go:160 | the decimal rendering of the block value can be read back: no two values print the same |
| Transactions.IsCoinbase | transactions/transaction.go:23-25 | definition: exactly one input, whose referenced identifier is empty and whose output index is -1; used by Utxo.TransferNotCoinbase |
| Transactions.CanUnlockOutputWith | transactions/transaction.go:55-57 | definition: the input's script signature equals the unlocking data; used by Utxo.SpentThroughIff |
| Transactions.CanBeUnlockedWith | transactions/transaction.go:60-62 | definition: the output's public key script equals the unlocking data; used by Utxo.LockedOutputsFilter |
| Transactions.SetId | transactions/transaction.go:28-39 | SetID changes only the identifier; applied to a transaction with an empty identifier, the new identifier is the fingerprint of the transaction with an empty identifier |
| Transactions.NewCoinbaseTx | transactions/transaction.go:64-76 | the result is a coinbase with the single output (10, to); its input memo is `data`, or "Reward to '<to>'" when `data` is empty; its identifier is sealed |
| Chain.HashTransactions | transactions/main.go:318-328 | definition: the raw SHA-256 digest of the block's transaction identifiers, concatenated in block order |
| Chain.CalculateHash | transactions/main.go:198-204 | definition: the hex-encoded SHA-256 of timestamp, predecessor hash and nonce followed by the transaction digest; what it depends on is stated by Chain.CalculateHashReads |
| Chain.CalculateHashReads | transactions/main.go:198-204 | the block hash depends only on timestamp, predecessor hash, nonce and the concatenated transaction identifiers (through HashTransactions at transactions/main.go:318-328), not on the stored hash |
| Chain.IsBlockValid | transactions/main.go:185-195 | definition: the block's predecessor hash equals the old block's hash and its stored hash recomputes; kept along the chain by Chain.AppendValidBlock |
| Chain.AppendValidBlock | transactions/main.go:140-143 | appending a block that validates against the tail keeps every later block linked to and recomputing against its predecessor |
| Chain.AppendSealedBlock | transactions/main.go:140-143 | appending a block whose hash meets the difficulty keeps every block after the genesis block sealed |
| Chain.TamperedNonceInvalid | transactions/main.go:185-204 | under collision-free primitives, changing the nonce of a valid block makes it invalid |
| Chain.GenesisNotSelfValidating | transactions/main.go:43-46 | under collision-free primitives whose digest length never shrinks as the input grows, and a non-empty timestamp, the genesis block does not recompute to its own hash |
| Chain.NewGenesisBlock | transactions/main.go:43-46 | the genesis block holds one coinbase paying 10 to "Ivan" with the fixed memo, empty predecessor hash and nonce, and the hash of the zero block |
| Utxo.ScanStartNonEmpty | transactions/main.go:248-251 | every block from the scan's start on holds a transaction |
| Utxo.ScanStartUnique | transactions/main.go:248-251 | the scan's start is the index after the newest empty block, or 0 when there is none |
| Utxo.OlderBlocksIgnored | transactions/main.go:249-251 | history older than an empty block never affects what the scan visits |
| Utxo.SpentThroughIff | transactions/main.go:253-260 | an output is marked spent exactly when a visited non-coinbase transaction has an input made by the address that references it |
| Utxo.LiveCountIsCardinality | transactions/main.go:261-272 | the number of times a transaction is listed is the number of its outputs locked to the address and not marked spent |
| Utxo.ListingSound | transactions/main.go:244-277 | every listed transaction was visited and has an output locked to the address that no transaction visited up to it spends |
| Utxo.ListingComplete | transactions/main.go:244-277 | every visited transaction with such a live output is listed |
| Utxo.SpentOutputNotLive | transactions/main.go:254-267 | an output spent by an input of the address in a transaction visited no later never makes its transaction listed |
| Utxo.LockedOutputsFilter | transactions/main.go:284-290 | the per-transaction filter keeps exactly the outputs locked to the address, each as often as it occurs |
| Utxo.UtxosLocked | transactions/main.go:280-293 | FindUTXO returns only outputs locked to the address |
| Utxo.CandidatesSound | transactions/main.go:303-305 | every output the selection considers is an address-locked output of a listed transaction, with its value |
| Utxo.StopPoint | transactions/main.go:303-313 | the selection stops after the shortest prefix whose total reaches the amount, or takes everything when none does |
| Utxo.StopPointUnique | transactions/main.go:303-313 | those facts determine where the selection stops |
| Utxo.SelectionSpendable | transactions/main.go:296-316 | every selected output is an address-locked output of a listed transaction, with its value |
| Utxo.ShortfallTakesAll | transactions/main.go:315 | a total below the amount means every spendable candidate was taken |
| Utxo.EarlyStopReachesAmount | transactions/main.go:309-311 | an early return implies the total reached the amount |
| Utxo.NonPositiveAmountSelectsNothing | transactions/main.go:301-305 | an amount of at most 0 selects nothing: total 0 and an empty map |
| Utxo.GroupIff | transactions/main.go:307 | the map holds an index under an identifier exactly when a selected output names it |
| Utxo.SelectedMapSpendable | transactions/main.go:296-316 | every (identifier, index) in the returned map is an address-locked output of a listed transaction |
| Utxo.GroupRefs | transactions/main.go:307 | the map names exactly the selected outputs, with multiplicity, whatever order its keys are visited in |
| Utxo.PairsOfRemove | transactions/transaction.go:90 | any key of the map may be visited first without changing the outputs named |
| Utxo.TransferConservesValue | transactions/transaction.go:97-100 | a transfer's output values add up to the selected total |
| Utxo.TransferNotCoinbase | transactions/transaction.go:90-103 | a transfer spending real outputs is never mistaken for a coinbase |
| Utxo.BalanceIsCandidateTotal | transactions/main.go:161-166 | the balance the handler reports equals the total value of every candidate output the selection walks |
| Utxo.NotEnoughFundsBelowBalance | transactions/transaction.go:84-88 | whatever the output values, a "Not enough funds" error means the amount exceeds the reported balance |
| Utxo.NotEnoughFundsIffBalance | transactions/transaction.go:84-88 | when no candidate output has a negative value, "Not enough funds" is reported exactly when the amount exceeds the reported balance |
| Utxo.GenesisListing | transactions/main.go:54-58 | on a fresh chain the coinbase is listed once for "Ivan" and never for anyone else |
| Utxo.GenesisBalance | transactions/main.go:161-166 | on a fresh chain "Ivan" has balance 10 and everyone else 0 |
| Utxo.SelfPayListing | transactions/main.go:262-271 | a transaction with two live outputs is listed twice |
| Utxo.SelfPayDoubleCounted | transactions/main.go:161-166 | with no re-filtering, a self-payment of 4 plus change 6 out of a 10 coinbase reports balance 20 |
| Utxo.GenesisSelection | transactions/main.go:296-316 | on a fresh chain, any amount from 1 to 10 selects exactly output 0 of the genesis coinbase, of value 10 |
| Utxo.GenesisTransferShape | transactions/transaction.go:79-106 | a transfer of such an amount from "Ivan" on a fresh chain has one input spending that output, pays the amount first, and adds a change output of 10 minus the amount to "Ivan" exactly when the amount is below 10 |
| Utxo.PaymentListing | transactions/main.go:244-277 | after that transfer is appended, the scan lists it for the payee, lists it for "Ivan" exactly when there is change, and no longer lists the spent coinbase |
| Utxo.PaymentUtxos | transactions/main.go:280-293 | after that transfer, FindUTXO gives the payee exactly the paid output and "Ivan" exactly the change output, if any |
| Utxo.PaymentBalances | transactions/main.go:161-166 | after that transfer, the payee's balance is the amount and "Ivan"'s is 10 minus the amount |
| Ledger.SpentSetAppend | transactions/main.go:257 | appending an index under an identifier records exactly one more spent output |
| Ledger.RecordSpent | transactions/main.go:255-259 | the spent map afterwards records exactly what it did before plus every output an input made by the address references |
| Ledger.CollectUnspent | transactions/main.go:261-272 | the transaction is collected once per output locked to the address whose index is not recorded as spent under its identifier |
| Ledger.ScanTransaction | transactions/main.go:253-272 | one transaction's step extends the spent set and the listing exactly as the reference definitions say, skipping inputs of a coinbase |
| Ledger.ScanBlock | transactions/main.go:253-273 | one block's step extends the spent set and the listing by that block's transactions in stored order |
| Ledger.Blockchain.FindUnspentTransactions | transactions/main.go:244-277 | returns exactly the reference listing, newest block first, stopping at the first empty block |
| Ledger.Blockchain.FindUTXO | transactions/main.go:280-293 | returns the address-locked outputs of every listed transaction, in listing order |
| Ledger.Blockchain.Balance | transactions/main.go:161-166 | the reported balance is the sum of FindUTXO's values |
| Ledger.SelectOutputs | transactions/main.go:304-312 | one transaction's outputs extend the selection, the total and the map; when the amount is reached, the selection taken so far is exactly the prefix up to the stop point |
| Ledger.Blockchain.FindSpendableOutputs | transactions/main.go:296-316 | returns the total of the greedy selection and the map grouping the selected indices by transaction |
| Ledger.SpendOutputs | transactions/transaction.go:91-94 | one input made by `from` per selected index of a transaction, in order |
| Ledger.SpendAll | transactions/transaction.go:90-95 | every input is made by `from`, and the outputs referenced are, with multiplicity, exactly those the map names, in any key order |
| Ledger.Blockchain.NewUTXOTransaction | transactions/transaction.go:79-106 | fails with "ERROR: Not enough funds" exactly when the total falls short. Otherwise the first output pays the amount to `to`, a change output to `from` exists exactly when the total exceeds the amount, one input per selected output is made by `from`, and the identifier is sealed |
| Ledger.Blockchain.GenerateBlock | transactions/main.go:207-232 | passes on the transfer's error; otherwise returns one-transaction blocks linked to the old block, valid against it, with a hash of difficulty 1 and the nonce of the first counter that seals the block; the search-exhausted error only when some transfer of the selection is sealed by none of the counters below the bound |
| Ledger.Blockchain.AddBlock | transactions/main.go:48-52 | appends the block at the tail, leaving earlier blocks unchanged |
| Ledger.Blockchain.WriteBlock | transactions/main.go:122-147 | keeps the chain invariant, including that every block after the genesis block meets the difficulty; on success appends one block linked to the old tail, carrying the timestamp, whose only transaction is a transfer of the selection from `from` to `to`, and whose hash meets the difficulty; changes nothing on an error, reports the funds error exactly when the total falls short, and reports the search-exhausted error only when no counter below the bound seals the transfer block |
| ProofWork.Record | proof-work/main.go:160 | definition: timestamp, decimal value, predecessor hash and nonce, concatenated; its ambiguity is stated by ProofWork.RecordAmbiguous |
| ProofWork.CalculateHash | proof-work/main.go:159-165 | definition: the hex-encoded SHA-256 of the record; what it depends on is stated by ProofWork.HashOfRecord |
| ProofWork.HashOfRecord | proof-work/main.go:159-165 | the hash depends on the block only through the concatenation of timestamp, decimal value, predecessor hash and nonce |
| ProofWork.RecordAmbiguous | proof-work/main.go:160 | distinct blocks can share that concatenation and hence a hash (timestamp "1" with value 23, timestamp "12" with value 3) |
| ProofWork.IsBlockValid | proof-work/main.go:146-156 | definition: the block links to the old block and its stored hash recomputes; kept along the chain by ProofWork.AppendValidBlock |
| ProofWork.TamperedValueInvalid | proof-work/main.go:146-165 | under collision-free primitives, changing the value of a valid block makes it invalid |
| ProofWork.AppendValidBlock | proof-work/main.go:122-127 | appending a block that validates against the tail keeps the chain invariant |
| ProofWork.AppendSealedBlock | proof-work/main.go:122-127 | appending a block whose hash meets the difficulty keeps every block after the genesis block sealed |
| ProofWork.NewGenesisBlock | proof-work/main.go:39-42 | the genesis block has value 0, empty predecessor hash and nonce, and the hash of the zero block |
| ProofWork.GenesisNotSelfValidating | proof-work/main.go:39-42 | under collision-free primitives and a non-empty timestamp, the genesis block does not recompute to its own hash |
| ProofWork.GenerateBlock | proof-work/main.go:168-190 | a returned block carries the value and timestamp, links to the old block, has a hash of difficulty 6 that recomputes, is valid against the old block, and carries the nonce of the first counter that seals it; no result means no counter below the bound seals it |
| ProofWork.Blockchain.AddBlock | proof-work/main.go:44-48 | appends the block at the tail, leaving earlier blocks unchanged |
| ProofWork.Blockchain.constructor | proof-work/main.go:50-54 | a new chain holds only the genesis block and satisfies the chain invariant |
| ProofWork.Blockchain.WriteBlock | proof-work/main.go:111-131 | keeps the chain invariant, including that every block after the genesis block meets the difficulty; on success appends one block linked to the old tail, carrying the value and the timestamp, whose hash meets the difficulty; otherwise changes nothing; no result only when no counter below the bound seals a block with the value and timestamp on top of the old tail |
| Ledger.Blockchain.constructor | transactions/main.go:54-58 | a new chain holds only the genesis block and satisfies the chain invariant |

## Left out

- HTTP routing, JSON decoding and encoding, `respondWithJSON`, `.env` loading, `spew.Dump` and progress printing: input and output plumbing with no ledger logic. The write handlers are kept only for their guarded-append decision (`WriteBlock`), and the balance handler only for its sum (`Balance`).
- The `sync.Mutex` inside `Blockchain`: the model is sequential.
- The global `bc`: the operations are methods of an explicit `Blockchain` object.
- `time.Now()`: the timestamp string is a parameter.
- SHA-256, `encoding/gob` and hex encoding: these are library calls. They are uninterpreted deterministic functions. Tamper detection is proved only under an explicit collision-freedom precondition, an assumption rather than a fact about SHA-256; `Chain.GenesisNotSelfValidating` also takes as a precondition that a longer input never gets a shorter digest (`GoLib.DigestLengthMonotone`). `GoLib.AssumptionsSatisfiable` shows the two preconditions can hold together.
- `log.Panic` when gob encoding fails: the encoder is a total function here.
- Ledger.Blockchain.GenerateBlock: the source's nonce search is unbounded. The model's search takes a `fuel` bound and returns the model-only error "nonce search exhausted" when the bound is reached, so it does not capture non-termination.
- ProofWork.GenerateBlock: the same bound, with `None` as the model-only outcome.
- Blocks and transactions are values rather than pointers. `SetID` returns the updated transaction instead of writing through the pointer. In the source the transaction is still local when sealed, so no aliasing is lost.
- Loop bodies of `FindUnspentTransactions`, `FindSpendableOutputs` and `NewUTXOTransaction` are factored into their own methods (`ScanBlock`, `ScanTransaction`, `RecordSpent`, `CollectUnspent`, `SelectOutputs`, `SpendAll`, `SpendOutputs`). The early return of `FindSpendableOutputs` is signalled by `SelectOutputs`'s `reached` result.
- Value conservation of the balance query: it does not hold for the code as written, because listed transactions are not re-filtered (`Utxo.SelfPayDoubleCounted` exhibits balance 20 where 10 exists). It is therefore not claimed.
- `(*Transaction).name`: an empty method with no behaviour.
- Utxo.NotEnoughFundsIffBalance: the direction "balance below the amount implies the funds error" is proved only when no candidate output has a negative value. The code accepts negative amounts, and a transfer of a negative amount creates an output with a negative value. After the selection has reached the amount, such an output can still lower the reported balance below it.
- Go's fixed-width `int`: values, amounts and counters are unbounded integers, so overflow of sums and of the nonce counter is not modelled.

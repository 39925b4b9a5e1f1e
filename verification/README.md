# The balance index of ontology-rosetta, modelled and proved in Dafny

The server keeps a local index of an Ontology node's token transfers so that it can answer
"what was the balance of account A in contract C at height h" and report every transfer as Rosetta
operations. This project models that index from the bytes of a key to the API answers, and proves
that the answers agree with the simple thing the index speeds up: the sum of all transfers so far.

`dafny verify dfyconfig.toml` checks everything.

## How the model is laid out

| file | what it models |
|---|---|
| `ByteStrings`, `Numbers` | lexicographic order of byte strings; big-endian magnitudes, little-endian heights, decimal text |
| `Lexinum` | the order-preserving height codec, with wrapping `uint32` arithmetic |
| `Addresses`, `Keys` | compressed addresses, database keys, the positional key parser |
| `SortedKeys`, `Layout` | reverse seek and step over ordered keys; entries behind the bytes; reading a balance |
| `Transfers` | which events are kept, gas classification, the effect of a transfer |
| `DiffTables`, `Blocks`, `Changes` | the table of shared big integers, the loops over one block, the changes it makes |
| `KeptEvents` | what is kept from events and stored with transactions, told by their fields alone |
| `Index`, `Writes` | what the entries mean, what storing a block does, a clean pass, storing a block again |
| `Currencies`, `Stores` | the token table; the store object: opening, `setBlock`, block and balance queries |
| `Steps` | the server as a state machine: loop steps, crashes, restarts |
| `Indexer` | the polling loop `IndexBlocks`, with the node's answers and the faults as inputs, taking those steps |
| `Runs` | what every run keeps, and what readers see whose reads fall into different states |
| `Operations`, `BlockService` | operations printed from stored transfers, the block endpoint |
| `AccountService` | the account balance endpoint, and what currency and contract lists stand for |
| `Reconciliation`, `Conservation` | balances against reported operations; balances against minted and burned |
| `Intents`, `Construction` | transfer intents; preprocess with its request metadata, metadata and payloads |
| `Validation` | the scan over all accounts |

A database is a map from byte strings to values, read through reverse seeks in byte order. `LedgerOf`
is the abstraction: the entries the bytes stand for. `Store` methods work on the bytes and are specified by
functions of the ledger; the theorems over runs are about the ledger. `Reflects(db, chain, n)` says
that a ledger holds exactly what the first n blocks are to leave.

Conventions that keep the code's meaning:

- An address is the 160-bit number its 20 bytes spell, a hash the 256-bit number of its 32 bytes; the bytes
  are written out wherever the code writes them.
- Base-58 and hex text is a value that either holds an address or does not parse. Decimal amounts are real text.
- A stored block record is kept as a value: its wire encoding is only assumed to be undone by decoding.
- A JSON number in request metadata stands for the real that it denotes; from 2^64 on, where converting it depends
  on the processor, it is refused.
- Notification events come decoded, with an amount that is not negative, or marked as not a transfer.
- A transaction of the database takes effect as a whole or not at all. The node's height, failing fetches and
  writes, random draws and the node's gas price are inputs.
- A chain is shorter than 2^32 blocks, so a height and its successor are `uint32` values.
- The token table does not change during a run.

## What the code does not do, and exactly when

- Stored balances lose their sign (`services/store.go:666`). The balance of a pair at a height is its running total
  if and only if no total up to that height is negative, and otherwise too high (`Index.RecordedIsRunning`,
  `Runs.IndexRefinement`, `Reconciliation.Reconciles`, `Reconciliation.EndpointBalance`, `Conservation.Conserved`);
  `Index.NegativeTotalDamaged` is a block on which the answer is wrong.
- The comment in `services/block_service.go:126-128` takes for granted that a failed transaction keeps only its gas
  fee. It does so if and only if no eligible event comes before the first one that pays gas
  (`Transfers.FailedKeepsOnlyGas`); `Transfers.FailedKeepsAnother` is an input on which it does not.
- `validateOps` accepts a null receiver, for which printing drops the credit. Printing an intended transfer
  gives the same intent again if and only if the receiver is not null (`Intents.IntentNormalForm`);
  `Intents.NullReceiverIntended` is such an input.
- The decoder accepts bytes the encoder never writes; `Lexinum.DecoderAcceptsMore` is an input. Encoding gives a
  decoded byte string back if and only if the string is canonical, which can be seen from its bytes
  (`Lexinum.EncodeAfterDecode`); on heights, decoding after encoding is always the identity.
- The retry loop for a nonce gives up with the last draw. The nonce it sets is taken if and only if all 100 draws
  gave taken ones (`Construction.NonceUnique`); `Construction.TakenNonceSet` is an input on which they do.
- A gas price in a request has no effect on what is charged (`services/construction_service.go:850-851`):
  `Construction.PriceCharged` says what is.
- Beside a height, an all-zero block hash is not compared (`services/store.go:527`, `Runs.BlockIdentity`).

## Model

| member | source | states |
|---|---|---|
| Numbers.StoredAmount | services/store.go:666 | What is read back from `Bytes()` is the magnitude of what was written, so equal to it exactly for non-negative numbers |
| Numbers.NatBytesMinimal | services/store.go:666 | The bytes have no leading zero, and zero has none |
| Numbers.Uint32RoundTrip | services/store.go:633-634 | Heights written as four little-endian bytes are read back unchanged |
| Numbers.ParseIntText | services/construction_service.go:635 | Parsing the decimal text of an integer, of either sign, gives the integer |
| Numbers.IntTextForm | services/block_service.go:142 | Decimal text has a sign only for negative numbers, and no leading zeros |
| Lexinum.Pow | lexinum/lexinum.go:96-106 | Square and multiply with wrapping products computes a^b modulo 2^32 for all inputs |
| Lexinum.CountDigits | lexinum/lexinum.go:71-74 | The loop ends with the number of base-253 digits, 1 for zero, although powers are computed with wrap-around |
| Lexinum.AtMostFourDigits | lexinum/lexinum.go:70-75 | No height needs more than four digits, so the count fits its byte |
| Lexinum.EncodingLength | lexinum/lexinum.go:49-94 | Every encoding has 2 to 8 bytes, and the first is 0xff exactly for big heights |
| Lexinum.KnownEncodings | lexinum/lexinum.go:49-94 | The bytes of the first and the last heights of either form |
| Lexinum.EncodeHeight | lexinum/lexinum.go:49-94 | The imperative encoder, with its digit buffer filled backwards, writes the digits most significant first |
| Lexinum.EncodeOrder | lexinum/lexinum.go:47-94 | Over all of uint32, encodings compare byte by byte as the heights compare, and are equal only for equal heights |
| Lexinum.DecodeHeight | lexinum/lexinum.go:14-45 | On any byte string the decoder stays in bounds, and accumulates the base-253 value of the digits modulo 2^32 |
| Lexinum.NoWrapAround | lexinum/lexinum.go:28-38 | On encoder output no partial sum of the decoder exceeds the height, so nothing wraps |
| Lexinum.DecodeAfterEncode | lexinum/lexinum.go:14-94 | Decoding undoes encoding for every uint32 |
| Lexinum.DigitsOfHorner | lexinum/lexinum.go:28-37 | Digits without a leading zero are the digits of the number they stand for |
| Lexinum.EncodeAfterDecode | lexinum/lexinum.go:14-94 | Encoding undoes decoding exactly on the canonical byte strings, and those are exactly the encodings of heights |
| Lexinum.DecoderAcceptsMore | lexinum/lexinum.go:14-45 | A byte string that decodes, is not canonical, and is not what the encoder writes for the height |
| Addresses.SliceRoundTrip | services/store.go:842-858 | Both readers of compressed addresses recover the address, and the first byte tells the length |
| Addresses.SlicePrefixFree | services/store.go:845-858 | No compressed address is a prefix of another |
| Keys.PairPrefixFree | services/store.go:837-840 | What starts with one account and contract's prefix starts with no other's |
| Keys.KeyForms | services/store.go:60-67 | The bytes of every kind of key, and of the compressed addresses in it |
| Keys.EncodedInjective | services/store.go:62-67 | Different entries have different keys, across all kinds of entries |
| Keys.AccountKeyOrder | services/store.go:226-239 | Within one account and contract, key order is height order |
| Keys.ParseWritten | services/store.go:291-321 | The positional parser and decompression recover the account and contract the writer encoded |
| Layout.SetEntry | services/store.go:667-681 | Setting a value under an encoded key changes that entry and no other |
| Layout.CursorFindsLatest | services/store.go:438-442 | A reverse seek or step from a pair's key has the pair's prefix exactly if the pair has an entry in reach, and then stands on the latest |
| Layout.ReadBalance | services/store.go:428-447 | The seek of the balance query returns the latest recorded amount at or before the height, 0 without one |
| Layout.ReadPrevious | services/store.go:638-665 | The seek with step-back returns the amount recorded strictly before the height, also when the key is already there |
| Transfers.GasShape | services/store.go:178-214 | Exactly the first event that pays gas is marked; eligible events around it are kept unmarked, after it none if the transaction failed |
| Transfers.GasAtMostOnce | services/store.go:1165-1187 | At most one kept transfer is the gas fee, sent by the payer; a failed transaction keeps only ONG and nothing after the fee |
| Transfers.ExamineCases | services/store.go:1177-1186 | Once the gas fee was seen it stays seen; before that an event is marked exactly if it carries the raw mark and the payer sent it |
| Transfers.FailedKeepsOnlyGas | services/block_service.go:126-128 | A failed transaction keeps only its gas fee if and only if no eligible event precedes the first payment |
| Transfers.FailedKeepsAnother | services/block_service.go:126-128 | A failed transaction that keeps a transfer which is not its gas fee |
| Transfers.TableMeaning | services/store.go:1124-1154 | After any transfers the table holds exactly the touched pairs, each with credits minus debits |
| DiffTables.DiffTable.BalanceCal | services/store.go:1124-1162 | On shared objects: entries stay pairwise distinct, only the two sides change, and the stored amount is the transfer's own, also for self transfers |
| DiffTables.DiffTable.Debit | services/store.go:1125-1139 | The sender's entry drops by the amount in place, or gets a new object; the event's object is untouched |
| DiffTables.DiffTable.Credit | services/store.go:1140-1154 | The receiver's entry grows in place, or becomes the event's own object |
| Blocks.ProcessNotice | services/store.go:184-214 | The event loop enters and stores exactly the kept transfers, in order; `KeptMeans` says which these are |
| KeptEvents.KeptMeans | services/store.go:184-214 | By event fields alone: exactly which events are kept, in order, that each kept transfer has the contract, sender, receiver and amount of its event, and which one is marked as the gas fee |
| KeptEvents.DiffMeans | services/store.go:178-214 | The difference of a pair over a block is the sum of the amounts of its kept events to the account minus those from it |
| Blocks.DigestBlock | services/store.go:132-224 | The loops over a block produce its record, its table of differences and its unsigned hashes; `RecordMeans` and `DiffMeans` say what these are |
| KeptEvents.RecordMeans | services/store.go:148-183 | Transaction by transaction, the record has its hash, the failure mark of its last notification, and what was kept for its payer from exactly the notifications about it |
| KeptEvents.OwnRecord | services/store.go:166-183 | With hashes of their own, transactions get exactly the notifications with their hash |
| Blocks.SharesPartition | services/store.go:178-214 | Whatever transaction each notification goes to, the stored transfers together have the effect of all kept transfers |
| Changes.BuildChanges | services/store.go:226-243 | Walking the nested Go maps in any order lists every pair once, with its key at the height and its prefix |
| Writes.WriteAllEntries | services/store.go:637-670 | Changes written one on top of the other leave what writing them all at once would |
| Writes.WriteOrderIrrelevant | services/store.go:637-670 | Any two orders of the changes leave the same ledger |
| Index.LookupIsRecorded | services/store.go:428-447 | In a ledger of n blocks the lookup at any stored height, touched or not, depends only on the blocks up to it |
| Index.RecordedIsRunning | services/store.go:666 | A recorded amount is never below the running total, and equal to it if and only if no total up to its height is negative |
| Index.NegativeTotalDamaged | services/store.go:666 | A first block with one burn of 1, after which the balance answered is 1 and the total is -1 |
| Index.NextBlock | services/store.go:635-690 | Storing the next block takes the exact contents for n blocks to those for n + 1, every kind of entry included |
| Index.ReflectsUnique | services/store.go:635-690 | The entries are determined by the first n blocks alone |
| Layout.LedgerDetermines | services/store.go:635-690 | The bytes of a database are determined by its entries |
| Index.CleanReflects | services/store.go:117-264 | One clean pass leaves exactly the expected entries |
| Index.StoredAgain | services/store.go:644-670 | Storing any indexed block again moves the height marker and changes nothing else |
| Index.StoredAgainLatest | services/store.go:644-670 | Storing the latest block again leaves every entry as it was |
| Stores.Store.constructor | services/store.go:808-834 | Opening recovers the height in the database, none if there is none |
| Stores.Store.SetBlock | services/store.go:625-696 | The transaction takes effect as a whole or not at all; the new contents do not depend on the order of the changes |
| Stores.Store.GetBlockId | services/store.go:466-495 | A request's identifier resolves to a height, a hash or both, or to the error for what is malformed |
| Stores.Resolved | services/store.go:466-495 | What every form of identifier resolves to |
| Stores.Store.GetBlockInfoRaw | services/store.go:509-606 | Lookup by height or by hash, with a mismatching non-zero hash refused, completes the identifier |
| Stores.Store.GetBlockInfo | services/store.go:497-507 | As the raw lookup, but heights above the one in memory are refused |
| Stores.Store.CheckUnsignedTxHash | services/store.go:382-397 | In the snapshot that is opened, a hash is known exactly if it has an entry |
| Stores.Store.GetBalance | services/store.go:399-464 | One balance for each requested contract that passes the filter, each the latest recorded amount at the block's height |
| Currencies.NewTokens | services/store.go:762-796 | The whole table: contract, decimals, symbol, metadata and wasm flag of the last configured token for each contract, otherwise of ONG and ONT, and nothing else |
| Currencies.OwnCurrencyValid | services/store.go:721-759 | A registered token's own description passes the currency check and names that token |
| Currencies.CurrencyChecked | services/store.go:721-759 | Exactly the registered tokens' own descriptions pass the currency check |
| Indexer.Reopen | services/store.go:808-834 | A database of n blocks opened after a crash tracks the same n blocks, by the restart step |
| Indexer.IndexOne | services/store.go:127-264 | One block fetched, digested and written by a commit and a publish step: one more block is held, or on a failed write nothing changed; storing block 0 again changes no byte |
| Indexer.SameBytes | services/store.go:99-267 | Stores that hold the same blocks hold the same bytes, whatever interrupted them on the way |
| Indexer.IndexPass | services/store.go:118-264 | A pass stores all blocks below the height of its fault, or up to the node's height, and takes steps of the server |
| Indexer.PassMeans | services/store.go:118-264 | A pass loses no block, does not end before the node's height or its fault, and goes beyond neither |
| Indexer.IndexBlocks | services/store.go:99-267 | Under any faults the store keeps holding an exact prefix of the chain that never shrinks, of the length the passes so far reach; an early exit leaves all blocks of the node, more than one, and comes at the first pass that finds that; all along it takes steps of the server |
| Runs.CrashSafety | services/store.go:101-119 | In every reachable state the database is that of one clean pass over blocks 0 to H, no more and no less, and the height in memory is at most H |
| Runs.LoopIsSafe | services/store.go:99-267 | What the loop does from any reachable state goes on as a run, and every state in between holds a clean pass over its blocks |
| Runs.NoHeightSkipped | services/store.go:110-117 | The block about to be written is the next one, or block 0 again while it is the only one |
| Runs.RunIsMonotone | services/store.go:616-623 | Neither the stored blocks nor the height readers see ever go back, restarts included |
| Runs.IndexRefinement | services/store.go:637-670 | In every reachable state the lookup at a stored height is never below the running total, and is it if and only if no total up to there is negative |
| Runs.BalanceStable | services/store.go:428-447 | A balance at a stored height is the same in every later state of the run |
| Runs.TornRead | services/store.go:405-507 | The two reads of the height, the block lookup and the balance read may each see a later state; an answer is still that of one request in the state of the block lookup, and a request that names no block is never refused |
| Runs.UnsignedKnown | services/store.go:382-397 | The lookup of an unsigned hash finds it exactly if one of the stored blocks has a transaction with it, and ever after |
| Runs.BlockIdentity | services/store.go:509-606 | Every stored block is found by height, by hash and by both as itself; mismatches and unknown blocks get their errors |
| Runs.QueryStable | services/store.go:497-507 | A block query that names its block and was answered once has the same answer in every later state that is up |
| Operations.AppendOperations | services/block_service.go:123-196 | Appends a debit and a related credit, or one of them for mint and burn, numbered on from the list |
| Operations.PrintedFields | services/block_service.go:123-196 | Every field of every operation of a transfer: number, relation, kind, status, account with sub-account, amount, currency |
| Operations.TxNumbered | services/block_service.go:198-237 | The operations of a transaction are numbered from 0, succeed, and are related to the one before or to none |
| Operations.TxPrinted | services/block_service.go:198-237 | The operations of each stored transfer stand in its place, numbered on, with its own mark as gas fee |
| Operations.PrintedEffect | services/block_service.go:123-196 | The operations of a transfer report, for every account and contract, what the transfer does to the balance |
| Operations.ReadStored | services/block_service.go:204-229 | A stored transfer reads back as the transfer that was kept |
| Operations.TransformTransaction | services/block_service.go:198-237 | The loop prints all transfers of a transaction, or stops with the first error |
| Operations.StoredTxEffect | services/block_service.go:198-237 | Transfers the indexer stored never fail to read, and their operations report their total effect |
| BlockService.Block | services/block_service.go:34-76 | Answers with the block, its parent and its transactions, or the first error |
| AccountService.AccountBalance | services/account_service.go:29-47 | From the fields of the request: without a sub-account the lines of ONT and ONG, with one its contract's line alone, and an error of its own for each malformed part |
| AccountService.FilterMeans | services/store.go:409-416 | The filter is made exactly if every currency listed is valid, and then has exactly the registered contracts whose own currency is listed |
| AccountService.BalancesMean | services/store.go:417-459 | One balance for every wanted contract, in order; or the error, exactly if a contract is not registered |
| Reconciliation.DigestReports | services/block_service.go:204-229 | What a block's record reports for a pair is the difference that was indexed for it |
| Reconciliation.Reconciles | services/store.go:399-464 | In every run, at every stored height, a balance is never below the sum of the operations reported so far, and is it if and only if no such sum up to there is negative |
| Reconciliation.EndpointReports | services/block_service.go:34-76 | Asked by height, hash, both or for the latest, and with height, block and parent read in different states, the block endpoint's whole answer is determined by the chain: identifiers, time, and the transactions of the node's block in order, each with its hash and the operations of what was kept for it |
| Reconciliation.EndpointAnswers | services/store.go:466-606 | A block request is answered if and only if it is about a stored block, by height only up to the height in memory |
| Reconciliation.EndpointBalance | services/store.go:399-464 | For any registered contracts and valid currencies, and however the block is named, the answer lists the wanted contracts in order, each with the decimal sum of all operations reported up to there if and only if no such sum was negative |
| Reconciliation.NativeBalances | services/account_service.go:40-41 | Without sub-account and currencies the answer has two lines, ONT and ONG, each the reported sum if and only if no such sum was negative |
| Conservation.EffectsConserved | services/store.go:1124-1154 | Over all accounts the effects of any transfers add up to minted minus burned; plain and self transfers cancel |
| Conservation.Conserved | services/store.go:637-670 | In every run the balances of a contract's accounts never add up to less than minted minus burned, and to exactly that if and only if none of them ever had a negative total |
| Intents.ValidateRelation | services/construction_service.go:869-895 | Accepts exactly if the later operation names the earlier one, follows it, and is not named by it |
| Intents.MadeFields | services/construction_service.go:609-724 | The exact fields of two operations that make a transfer |
| Intents.ValidateOps | services/construction_service.go:609-724 | Accepts exactly the operations that intend a transfer, in either order and with the relation on either side, and returns it |
| Intents.IntentUnique | services/construction_service.go:704-723 | Operations intend at most one transfer |
| Intents.IntentNormalForm | services/construction_service.go:609-724 | Printing an intended transfer intends the same transfer again if and only if the receiver is not null |
| Intents.NullReceiverIntended | services/construction_service.go:720-722 | An accepted intent with a null receiver that cannot be printed back |
| Construction.CarriedIsBuilt | services/construction_service.go:477-530 | Options that speak of a transfer build exactly that transfer if the payer parses, as a wasm call exactly for a registered wasm token |
| Construction.CarriesOne | services/construction_service.go:355-366 | The four compared fields determine the transfer |
| Construction.Preprocess | services/construction_service.go:403-459 | Succeeds exactly for intents without unsupported fields whose metadata reads; the options carry the intent and what was read; the first bad field decides the error |
| Construction.SettingsRead | services/construction_service.go:791-859 | Exactly which request metadata reads, and what is read from each field |
| Construction.OptionsAsked | services/construction_service.go:403-459 | The options have the nonce and the payer that the request names; without a payer the sender pays |
| Construction.PriceCharged | services/construction_service.go:819-859 | What gas price and limit are charged, for any request metadata: the requested price never is |
| Construction.Metadata | services/construction_service.go:195-266 | Succeeds exactly online, for options that make a transaction and get a nonce; sets the raised gas price and limit and that nonce, and nothing else; each failure has its error; every lookup has a snapshot of its own |
| Construction.DrawNonce | services/construction_service.go:215-238 | The loop stops at the first draw that fails or is free, or keeps the last of 100 |
| Construction.NonceUnique | services/construction_service.go:214-260 | At most one nonce can be set; in the snapshot of its lookup it is taken if and only if it was drawn and all 100 draws gave taken ones |
| Construction.TakenNonceSet | services/construction_service.go:214-236 | A hundred draws of one stored nonce, after which it is set |
| Construction.MakePayloads | services/construction_service.go:346-400 | Succeeds exactly if the options speak of the transfer the operations intend and the payer has 20 bytes; then the transaction makes that transfer, and its hash is to be signed by the sender first and by the payer if it is another, each once, with the contract as sub-account unless it is native |
| Construction.Pipeline | services/construction_service.go:195-459 | What preprocessing accepts goes through if and only if a nonce is found, always passes the checks before signing, is built as intended, at the raised price, with that nonce, and is to be signed by the sender and by a differing payer of the request |
| Validation.Scan | services/store.go:280-324 | Exactly one record for each account and contract with an entry, carrying the greatest-height key and whether the contract is written compressed; no key fails to parse |

## Left out

- The database engine, the wire format of records, logging, sleeping, channels and contexts: a sorted map with atomic
  transactions, records as values, and rounds given as input stand for them.
- Heights at the top of `uint32`: with a block at height 2^32 - 1 the loop of `IndexBlocks` would not end; the chain
  is shorter here.
- `decodeTransfer`, EVM log unpacking and JSON numbers: events come decoded.
- `chain/payload.go` and `chain/chain.go`, and the builders of invoke code: they are not part of this model;
  `ConstructTransfer` ends with what the builders are given, and assumes that they succeed.
- The second transaction of `Validate`, which compares with balances asked from a node.
- Signing, hashing, key derivation, the combine, derive, hash, parse and submit endpoints.
- `MakePayloads`: the serialized transaction is not spelled out, and its hash is a function that is an input.
- Gas price averaging: its result is an input.
- `BlockTransaction`: it prints one transaction of a record in the way `TransformTransaction` does.
- Sync status, mempool, network and process code, HTTP routing, configuration and the command-line tools.
- Errors of the database engine itself, other than a missing key.

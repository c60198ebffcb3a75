# silly-pups: models and proofs

The repository is a set of Dogecoin services: a block explorer with its own chain indexer, an
SPV wallet that signs post-quantum commitments, an arcade with a leaderboard and payouts, and
the C library the wallet is built on. This project models the parts with hard, self-contained
logic and proves what they are for. `dafny verify dfyconfig.toml` checks all of it.

Code that changes things step by step is written as methods and classes: offset-driven parsers,
buffer writers, in-place array loops, tables updated by a loop. Each is proved equal to a
function on values, and the theorems are about those functions and about whole runs of them.

| file | subject |
|---|---|
| `ChainTables.dfy`, `ChainIndexer.dfy` | indexing blocks into three tables while the node switches branch |
| `Bytes.dfy`, `Wire.dfy`, `TxCodec.dfy` | the transaction wire format, legacy and BIP 144, as writers and readers |
| `Cursor.dfy`, `TxDecode.dfy` | the explorer's parsers and writers as loops over offsets and buffers |
| `Text.dfy`, `LegacyTx.dfy` | the wallet's unsigned templates and its own parsers |
| `PrevoutLedger.dfy`, `UnchargedSpend.dfy` | wallet nets computed from raw bytes through a prevout index |
| `Carrier.dfy`, `BaseTx.dfy` | payloads split over scriptSigs and reassembled; TX_BASE reconstruction |
| `Limbs.dfy`, `Uint256.dfy` | 256-bit arithmetic on eight 32-bit limbs |
| `CoinSelection.dfy`, `SendPlan.dfy` | greedy selection, fees, change, and the passes of a send |
| `Base58.dfy`, `Address.dfy` | Base58Check in three services, addresses and scripts |
| `AesCbc.dfy` | CBC with padding over an abstract block cipher |
| `RecordMerge.dfy`, `RateLimiter.dfy`, `PinLockout.dfy`, `Leaderboard.dfy`, `HeadersFile.dfy` | small stateful components and what holds over all their runs |

Hash functions, the block cipher, the signing programs and the carrier extension program are
function parameters; the theorems hold for every choice of them that meets the stated laws.
Proof bodies are explicit: no lemma relies on automatic induction.

## What the code does against expectation

Each of these is proved, with an input on which it happens and the exact condition under which
the expected law does hold.

- Starting the indexer raises the last height to the start height even when the tables end below
  it, so the heights between stay unindexed until a rewind reaches them; with automatic rewinds
  on, the service reaches such a state by itself (`ChainIndexer.SafeIffConsistent`,
  `ChainIndexer.StartCanLeaveGap`, `ChainIndexer.MissingStaysMissing`,
  `ChainIndexer.RewindClosesGap`).
- A transaction with no input and one output is written with the bytes of the segwit marker and
  does not read back (`TxCodec.ParseUndoesWrite`, `TxCodec.LongCountIsAccepted`).
- A wallet net is too high by the debits of a transaction that also spends an unindexed outpoint
  while paying only the wallet (`PrevoutLedger.ConservationIff`,
  `UnchargedSpend.NetsExceedWallet`).
- TX_BASE is not recovered when the base transaction itself commits to the same digest or has no
  output (`BaseTx.ReconstructionInvertsExtension`, `BaseTx.CommittingBaseIsLost`), and gains
  value from a TX_R that names an output twice (`BaseTx.RebuildConserves`,
  `BaseTx.NamedTwiceGainsValue`).
- Parts made of a payload of 65536 bytes or more carry truncated lengths and do not read back;
  the payload is never recovered (`Carrier.MadePartComesBackIff`, `Carrier.LongPayloadIsLost`,
  `Carrier.MadePayloadComesBackIff`).
- The retry loop of a send never makes a second attempt, so a send can be refused although the
  coins cover it, even without the carrier reserve when they fund it with the reserve
  (`SendPlan.PickCoins`, `SendPlan.Fund`, `SendPlan.RefusedThoughCovered`,
  `SendPlan.FallbackRefused`).
- The carrier template leaves the payment out when the amount is at or below the dust limit, and
  a carrier send pays its reserve as fee; a comment in the C program says the fee stays intact
  (`SendPlan.CarrierTemplate`, `SendPlan.CarrierSendPaysReserve`, `SendPlan.SmallPaymentIsLost`).
- The Base58 table lists 128 of its 256 entries, so characters from 128 to 255 read as digit 0
  (`Base58.DecodeIsPlain`, `Base58.ForeignPrefixIsIgnored`, `Address.ArcadeAgreesWithWallet`,
  `Address.ForeignPrefixKeepsScript`).
- CBC decryption returns 0 also for a well-formed single block of padding
  (`AesCbc.NothingDecryptedIff`, `AesCbc.PaddingBlockIsLost`).
- A comment in the row merge promises the time of a confirmation; the code compares counters it
  has already updated and keeps the first time (`RecordMerge.PromisedTimeIff`,
  `RecordMerge.ConfirmedTimeIsLost`).
- The function named negate is the one's complement, for no number its negative modulo 2^256
  (`Uint256.Negate`).
- Truncating a header file whose heights go down can drop records at or below the height
  (`HeadersFile.KeepsExactlyIff`, `HeadersFile.LowRecordIsLost`).

## Model

| member | source | states |
|---|---|---|
| `ChainIndexer.RunsStayConsistent` | quantum-explorer/service/core_indexer.go:255-585 | Over every run of starts, stops, passes and rewinds in which each start and rewind is safe, with the node switching branch between passes, the three tables are exactly what indexing one branch over a contiguous range ending at the last height writes |
| `ChainIndexer.StepKeeps` | quantum-explorer/service/core_indexer.go:255-585 | Every single safe step keeps that invariant |
| `ChainIndexer.SafeIffConsistent` | quantum-explorer/service/core_indexer.go:114-269 | A start or a rewind keeps the invariant if and only if it is safe: a condition on the persisted height, the start height and the rewind height that an operator can check first |
| `ChainIndexer.StartCanLeaveGap` | quantum-explorer/service/core_indexer.go:221-390 | A concrete run of the service alone, with automatic rewinds on, after which the next start leaves a height without a row: rows end at 1 and indexing resumes at 3 |
| `ChainIndexer.StepKeepsMissing` | quantum-explorer/service/core_indexer.go:255-585 | Whatever the node answers, an event leaves a skipped height without a row and the rows below it as they are, unless it rewinds to that height or below; if it does, indexing resumes below it |
| `ChainIndexer.MissingStaysMissing` | quantum-explorer/service/core_indexer.go:255-585 | Over every run in which no rewind, manual or automatic, reaches it, a height a start skipped gets no row, and the block rows below it are never dropped or replaced, whatever branch the node is on |
| `ChainIndexer.GapStays` | quantum-explorer/service/core_indexer.go:221-390 | After that start, over every run without a rewind to height 2 or below, height 2 stays out and height 1 keeps its row |
| `ChainIndexer.RewindClosesGap` | quantum-explorer/service/core_indexer.go:343-381 | After that start, five more retriable failures and a pass leave all rows from 1 to 3 |
| `ChainIndexer.DefaultRunsStayConsistent` | quantum-explorer/service/core_indexer.go:255-390 | With automatic rewinds off, every run keeps the invariant as long as manual rewinds are safe; starts then always are |
| `ChainIndexer.PassKeeps` | quantum-explorer/service/core_indexer.go:255-390 | One pass either changes nothing but the tip or leaves a range of the node's current branch |
| `ChainIndexer.WalkFindsFork` | quantum-explorer/service/core_indexer.go:496-553 | The downward walk stops at the lowest height from which every row disagrees with the node, never below the indexed range |
| `ChainIndexer.CheckFindsFork` | quantum-explorer/service/core_indexer.go:496-553 | A successful check drops exactly the rows that disagree with the node's branch; everything below agrees with it block by block |
| `ChainIndexer.CheckAligns` | quantum-explorer/service/core_indexer.go:496-553 | After a successful check the tables are a range of the node's current branch |
| `ChainIndexer.CheckSucceedsIff` | quantum-explorer/service/core_indexer.go:496-553 | A check succeeds iff the node answers for every height from the last one down to where its branch and the rows agree, or down to the lowest row |
| `ChainIndexer.HashesStayUnique` | quantum-explorer/service/core_indexer.go:142-149 | Over every run, safe or not and whatever the nodes report, no two heights hold the same block hash |
| `ChainIndexer.PassPersists` | quantum-explorer/service/core_indexer.go:285-396 | A pass that gets past its check persists its last height and the tip it saw |
| `ChainIndexer.StallCountsToFive` | quantum-explorer/service/core_indexer.go:335-381 | Whatever was counted before, a failure at another height or one not retried starts the count again: four retriable failures at a height leave tables and last height, the fifth rewinds by the configured number of blocks |
| `ChainIndexer.IndexingStopsStall` | quantum-explorer/service/core_indexer.go:335-390 | A height that is indexed starts the count again |
| `ChainIndexer.RestartResumes` | quantum-explorer/service/core_indexer.go:210-269 | After such a pass, at or above the start height, stopping and starting again changes nothing but the stall counter |
| `ChainIndexer.IndexingExtends` | quantum-explorer/service/core_indexer.go:255-390 | Indexing on from an aligned range writes exactly the rows of that branch below the first failing height, and then does what that failure asks for, the automatic rewind included; without a failure the whole batch |
| `ChainIndexer.HealthyPass` | quantum-explorer/service/core_indexer.go:255-390 | On a node that answers every query one pass leaves exactly the rows of the node's branch up to a batch above what the check kept, or to the tip, persisted |
| `ChainIndexer.PassesCatchUp` | quantum-explorer/service/core_indexer.go:255-390 | While the node stays on one branch and answers, n passes leave exactly the rows of that branch, from where they started or from the fork if none was kept, up to n batches above what the first check kept, or to the tip |
| `ChainIndexer.ShorterBranchStalls` | quantum-explorer/service/core_indexer.go:255-390 | While every node seen has a branch no longer than the last indexed height, passes change the reported tip and nothing else, whatever the nodes answer |
| `ChainIndexer.CoreIndexer.constructor` | quantum-explorer/service/core_indexer.go:37-77 | A fresh indexer has empty tables, height 0 and is stopped |
| `ChainIndexer.CoreIndexer.BlockHashAtHeight` | quantum-explorer/service/core_indexer.go:555-562 | The stored hash of a height, empty when there is no row |
| `ChainIndexer.CoreIndexer.PersistState` | quantum-explorer/service/core_indexer.go:392-396 | Last height and tip are persisted and nothing else changes |
| `ChainIndexer.CoreIndexer.RollbackFrom` | quantum-explorer/service/core_indexer.go:564-585 | Rows of all three tables at or above the height go and the others stay; the last height is left to the callers |
| `ChainIndexer.CoreIndexer.InsertAddressRows` | quantum-explorer/service/core_indexer.go:398-494 | The insertion loop over outputs and addresses, texts trimmed and lower-cased as the code does, is the reference address table, first row winning |
| `ChainIndexer.CoreIndexer.WriteTxs` | quantum-explorer/service/core_indexer.go:398-494 | The write loop over a block's transactions, txids trimmed and lower-cased, is the reference table of that block |
| `ChainIndexer.CoreIndexer.IndexHeight` | quantum-explorer/service/core_indexer.go:398-494 | A height is written entirely or, on a failed query or a duplicate hash, not at all |
| `ChainIndexer.CoreIndexer.FindRollbackHeight` | quantum-explorer/service/core_indexer.go:496-553 | The loop over heights returns the reference walk's fork height, and only reads |
| `ChainIndexer.CoreIndexer.HandlePossibleReorg` | quantum-explorer/service/core_indexer.go:496-553 | The check reports failure, or rolls back and persists as the reference check does |
| `ChainIndexer.CoreIndexer.RewindChainFrom` | quantum-explorer/service/core_indexer.go:114-138 | Refused while running or below zero; otherwise rows from the height go and the height before it is persisted |
| `ChainIndexer.CoreIndexer.StartLoop` | quantum-explorer/service/core_indexer.go:221-269 | A running loop is left alone; otherwise indexing resumes at the larger of persisted and start height, with the persisted tip |
| `ChainIndexer.CoreIndexer.StopLoop` | quantum-explorer/service/core_indexer.go:243-247 | Stopping changes nothing but the running flag |
| `ChainIndexer.CoreIndexer.NoteIndexFailure` | quantum-explorer/service/core_indexer.go:255-390 | The stall counter counts retriable failures at one height; the fifth triggers the automatic rewind |
| `ChainIndexer.CoreIndexer.IndexHeights` | quantum-explorer/service/core_indexer.go:255-390 | The batch loop is the reference batch, stopping at the first failure |
| `ChainIndexer.CoreIndexer.LoopPass` | quantum-explorer/service/core_indexer.go:255-390 | One turn of the loop is one step of the specification |
| `ChainTables.RollbackUndoesIndexing` | quantum-explorer/service/core_indexer.go:398-585 | Rolling an indexed range back to a height leaves exactly what indexing up to the height below writes, in all three tables |
| `ChainTables.ScratchTxRow` | quantum-explorer/service/core_indexer.go:398-494 | Every txid listed in a block of the range has exactly one row, if it is the text of 32 bytes, and none otherwise: height, hash, time and the sum of the outputs of its last listing there, bytes and verdict of the last listing with bytes |
| `ChainTables.ScratchAddressRow` | quantum-explorer/service/core_indexer.go:398-494 | Every address an output of the range pays has the row of that output, with its value and height |
| `ChainTables.ScratchIsWithin` | quantum-explorer/service/core_indexer.go:398-494 | No row belongs to a height outside the range or to a transaction of another block |
| `ChainTables.ScratchRowsAreReal` | quantum-explorer/service/core_indexer.go:398-494 | Every address row is that of an output, in the block of its height, that lists the address, which is not empty; every row has a txid that is the text of 32 bytes |
| `ChainTables.NodeTextsAreStored` | quantum-explorer/service/core_indexer.go:398-494 | In terms of the texts the node sent: hash and txid are stored trimmed and in lower case, raw bytes trimmed, the value as the sum of the outputs |
| `ChainTables.NodeAddressIsStored` | quantum-explorer/service/core_indexer.go:398-494 | An address is stored trimmed with its output's value, and not at all when nothing is left of it |
| `ChainTables.StoredTxids` | quantum-explorer/service/core_indexer.go:398-494 | A txid gets rows iff it decodes to 32 bytes |
| `ChainTables.TidyTwice` | quantum-explorer/service/core_indexer.go:555-562 | Trimming and lower-casing a stored hash or txid once more changes nothing |
| `Wire.VarIntRoundTrip` | quantum-explorer/service/txdecode.go:387-407 | Reading a written variable-length integer gives it back with the bytes after it |
| `Wire.VarIntConsumed` | quantum-explorer/service/main.go:300-332 | Whatever encoding is accepted, the canonical one is no longer, and as long only when it is the same bytes |
| `Wire.ReadVarIntIff` | quantum-explorer/service/main.go:300-332 | A size is read iff the bytes start with one of its four forms, shortest or not, and the rest is what follows |
| `Cursor.ReadVarIntAt` | quantum-explorer/service/main.go:300-332 | Reading at an offset returns the value and the next offset, or fails on truncated bytes |
| `Cursor.ReadInAt` | quantum-explorer/service/txdecode.go:230-324 | One input read at an offset: outpoint, script, sequence |
| `Cursor.ReadOutAt` | quantum-explorer/service/txdecode.go:230-324 | One output read at an offset: signed value and script |
| `Cursor.ReadStacksAt` | quantum-explorer/service/txdecode.go:230-324 | One witness stack per input, read in order |
| `Cursor.AppendVarInt` | quantum-explorer/service/txdecode.go:387-407 | The case split writes the canonical encoding of every 64-bit value |
| `Cursor.AppendTx` | quantum-explorer/service/such_falcon_verify.go:475-504 | The buffer loops write the legacy form of the transaction |
| `TxCodec.ParseUndoesWrite` | quantum-explorer/service/txdecode.go:230-355 | Parsing a written transaction gives it back if and only if it is not one with no input and one output |
| `TxCodec.LongCountIsAccepted` | quantum-explorer/service/txdecode.go:230-324 | A text with no input, its count written in three bytes, and one output is accepted as legacy; written again it is not read back as that |
| `TxCodec.RewriteNormalises` | quantum-explorer/service/txdecode.go:230-355 | For every accepted non-segwit byte string with an input, writing it again parses to the same transaction and is never longer; it is the same bytes iff as long |
| `TxCodec.LegacyIsWritable` | quantum-explorer/service/txdecode.go:230-324 | Everything the parser accepts as legacy is within the field widths, and its canonical form is no longer than what was read |
| `TxCodec.WitnessedIsWritable` | quantum-explorer/service/txdecode.go:230-324 | Everything the parser accepts with the segwit marker is within the field widths, and its canonical form is no longer, and as long only when it is the same bytes |
| `TxCodec.WitnessFormLaws` | quantum-explorer/service/txdecode.go:326-385 | For the BIP 144 form: parsing recovers fields and witness, the txid bytes are the stripped form, weight is 3 times base plus total (BIP 141, Transaction size calculations), virtual size is a quarter rounded up |
| `TxCodec.LegacyWeight` | quantum-explorer/service/txdecode.go:378-385 | A legacy transaction weighs four times its length |
| `TxCodec.PartialParsersAgree` | quantum-explorer/service/main.go:334-422 | On all bytes the full parser accepts, the input, output and base parsers return its parts; the base parser accepts exactly the legacy ones |
| `TxCodec.NothingMayFollow` | quantum-explorer/service/txdecode.go:230-324 | What the full parser accepts it refuses with any bytes after it, while the input, output and base parsers read the same from it |
| `TxCodec.LegacyOutputsIff` | pq-wallet/service/doge_legacy_tx.go:152-204 | Reading outputs succeeds iff the input and output sections are whole; the length test before refuses nothing else |
| `TxCodec.PrefixParsersReadBack` | quantum-explorer/service/such_falcon_verify.go:403-473 | The base parser and the wallet's output walk read a written transaction back whatever follows it |
| `TxCodec.WriteTxInjective` | quantum-explorer/service/such_falcon_verify.go:475-504 | Two well-formed transactions with the same bytes are the same, without exception |
| `TxCodec.WireLenOfLegacy` | pq-wallet/service/doge_legacy_tx.go:208-295 | The measured length of a legacy transaction followed by anything is exactly its length |
| `TxCodec.WireLenOfWitness` | pq-wallet/service/doge_legacy_tx.go:208-295 | The same for the BIP 144 form |
| `TxCodec.WireLenOfNoInputs` | pq-wallet/service/doge_legacy_tx.go:208-295 | A text without inputs and with a zero flags byte is measured in full, one byte longer than its legacy form |
| `TxCodec.WireFlagsRefused` | pq-wallet/service/doge_legacy_tx.go:208-295 | Flags of 2 and above are refused, and so is a text that ends before its flags |
| `TxDecode.ParseBitcoinTx` | quantum-explorer/service/txdecode.go:230-324 | The offset-driven parser accepts and returns what the reference grammar does, error cases included |
| `TxDecode.ParseTxInputs` | quantum-explorer/service/main.go:385-422 | Inputs only; stops after them, skips the segwit marker |
| `TxDecode.ParseTxOutputs` | quantum-explorer/service/main.go:334-383 | Outputs only; stops after them, skips the segwit marker |
| `TxDecode.ParseRawTxForBase` | quantum-explorer/service/such_falcon_verify.go:403-473 | Refuses the marker, ignores bytes after the lock time |
| `TxDecode.LegacyBytesForTxID` | quantum-explorer/service/txdecode.go:326-355 | The loop writes the stripped form |
| `TxDecode.SerializeParsedTxBase` | quantum-explorer/service/such_falcon_verify.go:475-504 | Writes the transaction, or nothing when a previous txid is not 32 bytes |
| `TxDecode.CalcWeight` | quantum-explorer/service/txdecode.go:378-381 | Three times the stripped length plus the total length |
| `TxDecode.CalcVsize` | quantum-explorer/service/txdecode.go:383-385 | The weight divided by four, rounded up |
| `TxDecode.TxidFromRaw` | quantum-explorer/service/such_falcon_verify.go:528-537 | The double hash in display order, by an in-place reversal |
| `LegacyTx.TxidWireDisplays` | pq-wallet/service/doge_legacy_tx.go:23-51 | Exactly the strings of at most 64 hexadecimal digits are accepted, and the wire bytes display as the string in lower case padded with zeros |
| `LegacyTx.TxidWireBytes` | pq-wallet/service/doge_legacy_tx.go:23-51 | The half-length in-place reversal writes the reference wire hash |
| `Text.TrimIs` | pq-wallet/service/spv_tx_net.go:75-81 | Trimming takes exactly the ASCII white space at both ends |
| `Text.LowerIs` | pq-wallet/service/spv_tx_net.go:75-81 | Lower-casing maps the 26 letters and nothing else |
| `Text.DigitsAre` | pq-wallet/service/doge_legacy_tx.go:23-51 | The hexadecimal digits in the order of their values |
| `LegacyTx.SerializeUnsignedLegacyP2PKHTx` | pq-wallet/service/doge_legacy_tx.go:87-135 | Writes version 1, the chosen coins in order with empty scripts, the outputs and the lock time, or fails on a bad txid |
| `LegacyTx.ParseLegacyTxPrevouts` | pq-wallet/service/spv_tx_net.go:30-71 | The outpoints of a legacy transaction in order; a short buffer has none and is no error |
| `LegacyTx.PrevoutsFailIff` | pq-wallet/service/spv_tx_net.go:30-71 | Reading prevouts fails iff the text has at least ten bytes and its inputs do not parse; a shorter text has none |
| `LegacyTx.ParseLegacyTxOutputs` | pq-wallet/service/doge_legacy_tx.go:152-204 | The outputs after the inputs; no marker handling |
| `LegacyTx.LegacyTxWireLen` | pq-wallet/service/doge_legacy_tx.go:208-295 | The length walk over inputs, outputs and witness is the reference length |
| `LegacyTx.TemplateReadsBack` | pq-wallet/service/doge_legacy_tx.go:87-295 | Whatever follows the written template, the parsers find the coins in order, the outputs, the exact length, version 1, the lock time, empty scripts and final sequence numbers |
| `PrevoutLedger.BuildPrevoutWalletIndex` | pq-wallet/service/spv_tx_net.go:75-106 | The loops over raw texts build the reference index: every output of every text that decodes, parses and hashes |
| `PrevoutLedger.ListedIsIndexed` | pq-wallet/service/spv_tx_net.go:75-106 | Every output of every listed transaction is in the index, with its own value and ownership unless a later listing of that txid has other outputs |
| `PrevoutLedger.TextIsIndexed` | pq-wallet/service/spv_tx_net.go:75-106 | From the text: hexadecimal of either case with space around, of at least ten bytes that parse, has each of its outputs indexed under its display txid |
| `PrevoutLedger.HashOfP2pkh` | pq-wallet/service/spv_tx_enrich.go:225-235 | A script has a P2PKH hash iff it is that script of the 20 bytes |
| `PrevoutLedger.DecodeSPVRawTxFlow` | pq-wallet/service/spv_tx_enrich.go:121-223 | Wallet and external totals of the outputs, OP_RETURN left out, scripts that are not P2PKH counted as external when positive |
| `PrevoutLedger.FlowConserves` | pq-wallet/service/spv_tx_enrich.go:121-223 | Wallet value, external value and ignored value (OP_RETURN, and negative value that is not P2PKH) add up to the output total; the counterparty is the first foreign P2PKH output |
| `PrevoutLedger.WalletNetFromPrevoutIndex` | pq-wallet/service/spv_tx_net.go:114-162 | Net, debit and completeness of one transaction against the index, with the early exits for a missing prevout |
| `PrevoutLedger.CompleteIff` | pq-wallet/service/spv_tx_net.go:114-162 | A net is complete iff no prevout is missing, or the wallet is paid and no positive output outside OP_RETURN goes anywhere else; then it is the wallet's outputs less what is charged |
| `PrevoutLedger.ListedSpendsNet` | pq-wallet/service/spv_tx_net.go:75-162 | A transaction that spends only outputs of listed transactions has a complete net: its outputs to the wallet less the value of the wallet's own among the outputs it spends |
| `PrevoutLedger.ListedLedgerBalances` | pq-wallet/service/spv_tx_net.go:75-162 | When the texts list the whole ledger and every output it spends, the nets add up to exactly the unspent wallet value |
| `PrevoutLedger.ListedIndexIsCovered` | pq-wallet/service/spv_tx_net.go:75-106 | Every wallet coin of the index built from a list of raw texts belongs to the set of transactions, when that set holds every listed transaction that pays the wallet |
| `PrevoutLedger.Conservation` | pq-wallet/service/spv_tx_net.go:75-162 | Over any set of distinct legacy transactions that covers the index, all complete and no outpoint spent twice, the nets add up to the wallet value left unspent plus the wallet value spent uncharged |
| `PrevoutLedger.ConservationIff` | pq-wallet/service/spv_tx_net.go:114-162 | The nets equal the unspent wallet value if and only if no spend of a wallet coin goes uncharged, which happens when its transaction also spends an unindexed outpoint |
| `UnchargedSpend.NetsExceedWallet` | pq-wallet/service/spv_tx_net.go:114-162 | Two transactions, indexed from their own texts, that meet every hypothesis of conservation: the nets total 10 and the wallet holds 5 |
| `Carrier.PushesRoundTrip` | quantum-explorer/service/main.go:435-477 | A written list of data pushes reads back as that list |
| `Carrier.ReadPushIff` | quantum-explorer/service/main.go:435-477 | A push is read iff the bytes start with its length as opcode, in one byte or in two, and the data |
| `Carrier.PushIsShortest` | pq-wallet/vendors/libdogecoin/src/pqc_carrier.c:82-108 | A push is written in the shortest of these forms |
| `Carrier.ParsePushOnlyScript` | quantum-explorer/service/main.go:435-477 | The offset loop reads exactly the push-only scripts |
| `Carrier.ParseCarrierPartFromScriptSig` | quantum-explorer/service/main.go:479-524 | The method reads a part from exactly the scripts the specification does |
| `Carrier.PartOfPushesIff` | quantum-explorer/service/main.go:479-524 | A script is a part iff it pushes a known tag, an eight-byte header whose counters and lengths are in range and read back from it, three chunks and something more |
| `Carrier.KnownTags` | quantum-explorer/service/main.go:489-499 | The algorithm is one of the texts FLC1, DIL2 and RCG4, and the tag that text followed by FULL, or DL21FULL for DIL2 |
| `Carrier.RedeemLeavesTrue` | pq-wallet/vendors/libdogecoin/src/pqc_carrier.c:192-205 | Run on the five data pushes of a part, the redeem script leaves true and nothing else |
| `Carrier.PartRoundTrip` | quantum-explorer/service/main.go:479-524 | A scriptSig with a known tag, a header and three chunks reads back as that part |
| `Carrier.BuildPartScriptSig` | pq-wallet/vendors/libdogecoin/src/pqc_carrier.c:255-303 | Writes tag, header, three chunks and redeem script; refuses no parts and data over three chunks |
| `Carrier.HeaderIs` | pq-wallet/vendors/libdogecoin/src/pqc_carrier.c:270-278 | A header is the format number, index, count, a zero, and both lengths as 16-bit values with the high byte first |
| `Carrier.PartTotal` | pq-wallet/service/send_pq.go:684-687 | The least number of parts of 1560 bytes, at least one, that holds a payload of the given length: one part less would not |
| `Carrier.MkPart` | pq-wallet/vendors/libdogecoin/src/cli/such.c:1487-1562 | For payloads of any length, the part maker writes part i with the count modulo 2^8 and the lengths modulo 2^16, or refuses an index at or above that count |
| `Carrier.MadePartReads` | pq-wallet/vendors/libdogecoin/src/cli/such.c:1487-1562 | What the explorer reads from a made part of a payload of any length: the truncated lengths and count with the right data, or no part iff the truncated key length is 0 or above the truncated payload length |
| `Carrier.MadePartComesBackIff` | pq-wallet/vendors/libdogecoin/src/cli/such.c:1487-1562 | A made part with a key reads back as that part of the payload iff the payload is below 65536 bytes |
| `Carrier.LongPayloadIsLost` | pq-wallet/vendors/libdogecoin/src/cli/such.c:1487-1562 | One key byte and 65535 signature bytes: the part is made and reads as no part |
| `Carrier.VerifiedIsShort` | quantum-explorer/service/main.go:526-624 | Whatever a transaction carries, only payloads below 65536 bytes with a key, a signature and an indexed hash are verified |
| `Carrier.MadePayloadComesBackIff` | quantum-explorer/service/main.go:526-624 | For payloads of any length cut by the part maker and placed one part per input in any order: every outcome returns that key and signature iff neither is empty, together they are below 65536 bytes, and their hash is indexed |
| `Carrier.LibraryMakesStandardCut` | pq-wallet/vendors/libdogecoin/src/cli/such.c:1487-1562 | What the part maker writes for index i is the i-th part of the standard cut |
| `Carrier.StandardCutIsCut` | pq-wallet/service/send_pq.go:675-688 | The standard cut is a cut of the payload into as many parts as the wallet budgets for |
| `Carrier.DummyIsNoPart` | pq-wallet/service/pq_carrier_recovery.go:53-86 | A recovery scriptSig is never taken as a carrier part, for any tag and counters |
| `Carrier.VerifyCarrierPhase1` | quantum-explorer/service/main.go:526-624 | Returns an outcome that some visiting order of the groups allows: the first verified group, or the count of parts |
| `Carrier.VerifiedIsRead` | quantum-explorer/service/main.go:526-624 | A verified outcome reports input, tag and algorithm of the first input with a part of its group, the lengths of that header, a payload put together from the last part of each index, and the entry of its hash; the algorithm is the tag's first four bytes, DIL2 for DL21FULL |
| `Carrier.UnmatchedMeans` | quantum-explorer/service/main.go:526-624 | When nothing is verified, no group of parts is complete, long enough, split into key and signature, and indexed by its hash |
| `Carrier.GroupsMixTags` | quantum-explorer/service/main.go:547-551 | Parts with different tags share a group only for the two Dilithium tags |
| `Carrier.CollectParts` | quantum-explorer/service/main.go:526-624 | The parts of all inputs in input order |
| `Carrier.GroupParts` | quantum-explorer/service/main.go:526-624 | Parts grouped by algorithm, part count and lengths, in order |
| `Carrier.JoinSlots` | quantum-explorer/service/main.go:526-624 | Slots filled by index, later parts overwriting, joined only when all are filled |
| `Carrier.ReassemblyInvertsSplitting` | quantum-explorer/service/main.go:526-624 | Any key and signature cut into the budgeted parts and placed one per input in any order among other inputs is recovered exactly, and verified iff the hash of both is indexed |
| `BaseTx.CommitmentRoundTrip` | quantum-explorer/service/main.go:640-652 | A canonical commitment script reads back as its tag and digest |
| `BaseTx.ParseCommitmentIff` | quantum-explorer/service/main.go:640-652 | Exactly the scripts written of a known tag and 32 bytes are commitments |
| `BaseTx.CommitsIff` | quantum-explorer/service/such_falcon_verify.go:370-380 | Only the Falcon commitment to the digest is taken out |
| `BaseTx.CollectSpent` | quantum-explorer/service/such_falcon_verify.go:332-393 | The outputs of TX_C that TX_R spends, and the value they bring back |
| `BaseTx.FilterOutputs` | quantum-explorer/service/such_falcon_verify.go:332-393 | Spent outputs and matching commitments are removed, the rest kept in order |
| `BaseTx.KeptAre` | quantum-explorer/service/such_falcon_verify.go:366-378 | Exactly the outputs that no input names and that do not commit to the digest are kept, in order |
| `BaseTx.ReconstructBaseTxContext` | quantum-explorer/service/such_falcon_verify.go:332-393 | The whole reconstruction on bytes, with its error cases |
| `BaseTx.RebuildConserves` | quantum-explorer/service/such_falcon_verify.go:332-393 | For every TX_R: the output total loses the value of removed unspent commitments and gains that of outputs named again by a later input, as 64-bit words; it is conserved iff that gain is 0 as a word, which it is when no output is named twice |
| `BaseTx.RebuildFailsIff` | quantum-explorer/service/such_falcon_verify.go:332-393 | Rebuilding fails iff no input names the transaction or nothing is kept; else only the value of the first kept output changes |
| `BaseTx.NamedTwiceGainsValue` | quantum-explorer/service/such_falcon_verify.go:332-393 | A TX_R that names one carrier of 400 twice rebuilds 1000 into 1400 |
| `BaseTx.AddCommitAndCarrierOutputs` | pq-wallet/vendors/libdogecoin/src/cli/such.c:909-1022 | For every base and every 64-bit carrier value: appends the commitment and equal carriers and takes their product, wrapped, from output 0, which is the commitment when the base has no output; refused for no parts or when output 0 is below the wrapped product |
| `BaseTx.ExtendKeepsTotal` | pq-wallet/vendors/libdogecoin/src/cli/such.c:909-1022 | The extension keeps the output total as a 64-bit word, and the total itself iff output 0 does not wrap |
| `BaseTx.RebuildInvertsExtend` | quantum-explorer/service/such_falcon_verify.go:332-393 | Rebuilding an extension gives the base back iff the base has outputs and none commits to the same digest |
| `BaseTx.ReconstructionInvertsExtension` | quantum-explorer/service/such_falcon_verify.go:332-504 | The same on bytes: from the written extension and any TX_R spending exactly its carriers the written base is recovered, iff that condition holds |
| `BaseTx.CommittingBaseIsLost` | quantum-explorer/service/such_falcon_verify.go:332-504 | For every hash and digest, a base that commits to the digest itself, its extension and a TX_R spending exactly the carriers, from which the base is not recovered |
| `Uint256.ShiftLeft` | pq-wallet/vendors/libdogecoin/src/arith_uint256.c:44-63 | In place, for every shift count: the number times 2^s modulo 2^256 |
| `Uint256.ShiftRight` | pq-wallet/vendors/libdogecoin/src/arith_uint256.c:65-84 | In place, for every shift count: the number divided by 2^s, rounded down |
| `Uint256.ShiftLeftMultiplies` | pq-wallet/vendors/libdogecoin/src/arith_uint256.c:44-63 | The limb layout after a left shift stands for the product modulo 2^256 |
| `Uint256.ShiftRightDivides` | pq-wallet/vendors/libdogecoin/src/arith_uint256.c:65-84 | The limb layout after a right shift stands for the floored quotient |
| `Uint256.Negate` | pq-wallet/vendors/libdogecoin/src/arith_uint256.c:28-33 | One's complement of the number, 2^256 - 1 - x, which for no x is its negative modulo 2^256 |
| `Uint256.SetCompact` | pq-wallet/vendors/libdogecoin/src/arith_uint256.c:86-101 | On any number: the word replaces the lowest limb before the shift; overflow iff word times 256^(size-3) is at least 2^256; negative iff the sign bit is set and that value is not 0 |
| `Uint256.CompactOfZero` | pq-wallet/vendors/libdogecoin/src/arith_uint256.c:86-101 | On a zeroed number the result is word times 256^(size-3), floored for size up to 3, modulo 2^256 |
| `Uint256.OverflowTests` | pq-wallet/vendors/libdogecoin/src/arith_uint256.c:86-101 | The three byte-count tests recognise exactly the products of 2^256 and above |
| `Uint256.CompactParts` | pq-wallet/vendors/libdogecoin/src/arith_uint256.c:86-101 | A compact word is a size byte, a sign bit and a 23-bit field |
| `Uint256.IsZero` | pq-wallet/vendors/libdogecoin/src/arith_uint256.c:176-181 | True iff the number is 0 |
| `Uint256.LessThan` | pq-wallet/vendors/libdogecoin/src/arith_uint256.c:183-189 | True iff the first number is smaller |
| `Uint256.Equal` | pq-wallet/vendors/libdogecoin/src/arith_uint256.c:191-196 | True iff the numbers are equal |
| `Uint256.LessThanOrEqual` | pq-wallet/vendors/libdogecoin/src/arith_uint256.c:198-200 | True iff the first number is not larger |
| `Uint256.GreaterThan` | pq-wallet/vendors/libdogecoin/src/arith_uint256.c:202-204 | True iff the first number is larger |
| `Uint256.GreaterThanOrEqual` | pq-wallet/vendors/libdogecoin/src/arith_uint256.c:206-208 | True iff the first number is not smaller |
| `Uint256.Add` | pq-wallet/vendors/libdogecoin/src/arith_uint256.c:148-157 | The sum modulo 2^256 |
| `Uint256.Sub` | pq-wallet/vendors/libdogecoin/src/arith_uint256.c:159-174 | NULL iff the second number is larger, otherwise the exact difference |
| `Uint256.Div` | pq-wallet/vendors/libdogecoin/src/arith_uint256.c:112-146 | NULL iff the divisor is 0, otherwise the floored quotient, also for divisors of 2^255 and above |
| `Uint256.DivideBit` | pq-wallet/vendors/libdogecoin/src/arith_uint256.c:121-142 | One turn of the loop: quotient and remainder of the bits read so far |
| `Uint256.LeadingBitsFit` | pq-wallet/vendors/libdogecoin/src/arith_uint256.c:121-123 | Before each doubling the remainder is below 2^255, so no bit is lost |
| `Uint256.PullBit` | pq-wallet/vendors/libdogecoin/src/arith_uint256.c:121-130 | Doubling and setting the next bit of the dividend, exactly |
| `Uint256.SetBit` | pq-wallet/vendors/libdogecoin/src/arith_uint256.c:139-141 | Setting a bit in place adds its weight when the bits from it down are clear |
| `CoinSelection.SelectUTXOs` | pq-wallet/service/tx_build.go:37-52 | Refused iff the need is not positive or above the total of positive coins; otherwise a prefix of the sorted coins that reaches the need, and no choice of fewer coins does |
| `CoinSelection.SortByValue` | pq-wallet/service/tx_build.go:41 | In place: a descending permutation |
| `CoinSelection.FrontIsLargest` | pq-wallet/service/tx_build.go:37-52 | Any k coins total at most the k largest |
| `CoinSelection.FirstReachingIsFewest` | pq-wallet/service/tx_build.go:37-52 | The first prefix that reaches the need has the fewest coins that can |
| `CoinSelection.UnreachableIff` | pq-wallet/service/tx_build.go:37-52 | No prefix reaches the need iff the total of positive coins falls short |
| `SendPlan.ClampRate` | pq-wallet/service/send_pq.go:30-38 | A rate in the allowed range stays; one outside becomes the nearer bound |
| `SendPlan.EconomicFeeIsLeast` | pq-wallet/service/send_pq.go:52-57 | A fee meets the rate for the size iff it is at least the computed one: the rounding up is exact |
| `SendPlan.FeePerInput` | pq-wallet/service/send_pq.go:60-74 | A further input never lowers the estimate and raises it by its own bytes' worth, rounded up |
| `SendPlan.FeeFloors` | pq-wallet/service/send_pq.go:41-74 | Counts below one are taken as one, an absent change output as one output less, and negative extra outputs as none |
| `SendPlan.EstimateCoversSigned` | pq-wallet/service/send_pq.go:41-49 | The size estimate is an upper bound on the signed transaction, for signature scripts of up to 108 bytes and any number of inputs |
| `SendPlan.PickCoins` | pq-wallet/service/send_pq.go:250-276 | The retry loop is decided by its first attempt, made with the fee of one input |
| `SendPlan.Fund` | pq-wallet/service/send_pq.go:250-304 | Refused iff the coins cannot reach the need of one input, or those picked for it fall short of the fee of all of them; otherwise change and fee are as computed, dust left to the fee |
| `SendPlan.RefusedThoughCovered` | pq-wallet/service/send_pq.go:250-286 | Three coins that cover the amount and the fee of three inputs are refused |
| `SendPlan.BuildUnsignedDogeP2PKH` | pq-wallet/service/tx_build.go:57-87 | Payment, change above dust, and the commitment when the digest decodes to 32 bytes, written as a template |
| `SendPlan.HandleSendPQSafe` | pq-wallet/service/send_pq.go:240-460 | At most two passes over the same coins, each with the result the pass specification allows: the first with the reserve when a carrier is wanted; if it ends without a carrier, a second without the reserve when that is allowed, and otherwise a refusal; in every other case the first result stands |
| `SendPlan.SendPass` | pq-wallet/service/send_pq.go:240-490 | One pass: its result is the one the funding and the built template allow, with the fewest coins that reach the need of one input |
| `SendPlan.PassIsDecided` | pq-wallet/service/send_pq.go:240-490 | A pass is refused iff its coins do not fund it, ends on a txid iff they do and a chosen txid is malformed, has a carrier iff the extension gave one, and is otherwise a plain template over the chosen coins |
| `SendPlan.CarrierIff` | pq-wallet/service/send_pq.go:357-440 | A pass ends with a carrier iff one was wanted and committed to, the keys are there, the signature can be revealed, the change pays for the parts, and the extension of the signed bytes gave more than 80 bytes |
| `SendPlan.FallbackRefused` | pq-wallet/service/send_pq.go:240-304 | Three coins that fund a send with the carrier reserve and are refused for the same send without it |
| `SendPlan.PlainSendConserves` | pq-wallet/service/send_pq.go:250-356 | For every send that ends without a carrier, reading the bytes gives the chosen coins in order and the outputs; coins = sent + change + f with f between the estimate and the estimate plus dust; the measured length is exact |
| `SendPlan.SendEndsConserved` | pq-wallet/service/send_pq.go:240-460 | The same of what a send returns: every result without a carrier was funded without the reserve, reads back as the plain send with a fee between the estimate and the estimate plus dust, and its commitment is the one signed over a template that reads back as the same coins, change first when a carrier was wanted and the change allows one |
| `SendPlan.CarrierEndsOnBase` | pq-wallet/service/send_pq.go:240-460 | Every result with a carrier was signed over and extended from the same bytes, which read back as the chosen coins and, in this order, the change and the payment above dust; the value per part keeps dust in the change, and the fee contains the reserve of the pass |
| `SendPlan.CarrierSendReadsBack` | pq-wallet/service/send_pq.go:362-440 | With the library's extension the returned bytes read back as the chosen coins, the change less the carriers and still at least dust, exactly the amount to the recipient when above dust, the commitment, and equal carriers |
| `SendPlan.DigestIff` | pq-wallet/service/tx_build.go:70-82 | A commitment is taken iff its text, trimmed and in either case, is the hexadecimal of 32 bytes |
| `SendPlan.FeeMeetsRate` | pq-wallet/service/send_pq.go:52-74 | Such a send pays at least the rate for its signed bytes |
| `SendPlan.ClampIsLargest` | pq-wallet/service/send_pq.go:371-394 | The per-part carrier value is the largest up to the configured one that leaves the dust limit in the change; refused iff dust per part does not fit |
| `SendPlan.EstimatedParts` | pq-wallet/service/send_pq.go:675-688 | From hexadecimal texts: the parts the decoded payload needs, and one for a text of odd length |
| `SendPlan.ClampedCarriersAreFunded` | pq-wallet/service/send_pq.go:371-394 | With the clamped value the extension's own check on output 0 passes and at least the dust limit stays |
| `SendPlan.CarrierTemplate` | pq-wallet/service/send_pq.go:362-370 | The template for the extension, in a pass with or without the reserve, pays the recipient iff the amount is above dust, and its fee contains exactly the reserve of its pass |
| `SendPlan.CarrierSendPaysReserve` | pq-wallet/vendors/libdogecoin/src/cli/such.c:1000-1014 | The extended transaction pays the whole reserve of its pass as fee on top of the estimate, and no reserve in a pass without one |
| `SendPlan.SmallPaymentIsLost` | pq-wallet/service/send_pq.go:362-370 | A concrete send of half the dust limit: the template and every extension of it pay the recipient nothing, and estimate, reserve and amount go to the fee |
| `Base58.Base58Decode` | pq-wallet/service/base58check.go:52-87 | The chunk loop is the reference chunk decoding, with one zero byte per leading '1' |
| `Base58.DecodeChunk` | pq-wallet/service/base58check.go:60-70 | The accumulator of a chunk stays below 58^10, inside 64 bits |
| `Base58.DecodeIsPlain` | pq-wallet/service/base58check.go:19-87 | A text is accepted iff each ten-byte piece of it is digits and whole two-byte characters up to 255, and then reads as the digits it stands for; this is the plain decoding iff the text is ASCII or not so readable |
| `Base58.CutCharacterIsRefused` | pq-wallet/service/base58check.go:52-87 | A two-byte character that the tenth byte cuts in two is refused |
| `Base58.RuneIs` | pq-wallet/service/base58check.go:52-70 | A character is read as digit 0 iff its two bytes are what UTF-8 writes for 128 to 255 |
| `Base58.ChunksRead` | pq-wallet/service/base58check.go:52-87 | The chunk decoding of any text, read on from any digits before it, is the plain value of the digits it stands for |
| `Base58.ForeignPrefixIsIgnored` | pq-wallet/service/base58check.go:19-36 | Any two-byte character up to 255 in front of digits is read as digit 0 and changes nothing |
| `Base58.Base58Encode` | quantum-explorer/service/base58.go:11-34 | The division loop, the zero loop and the in-place reversal give the reference encoding |
| `Base58.AlphabetIs` | quantum-explorer/service/base58.go:9 | The digit of each value is the one at that place of the alphabet |
| `Base58.DecodeUndoesEncode` | pq-wallet/service/base58check.go:52-87 | decode(encode(b)) = b iff b has a nonzero byte or is a single zero byte |
| `Base58.EncodeUndoesDecode` | quantum-explorer/service/base58.go:11-34 | encode(decode(s)) = s for every digit string of nonzero value |
| `Address.Base58CheckDecode` | pq-wallet/service/base58check.go:98-114 | Version and payload of a string of at least five bytes with a matching checksum |
| `Address.AddressBytes` | quantum-explorer/service/base58.go:37-66 | The address of a P2PKH or P2SH script is the Base58 of version, hash and the first four bytes of the double hash of both, with the four version bytes of script kind and network |
| `Address.OtherScriptsHaveNone` | quantum-explorer/service/base58.go:48-66 | Each kind of script is recognised iff it has that exact form around 20 bytes, and only the first two kinds have an address |
| `Address.SpaceAround` | pq-wallet/service/address_doge.go:15-40 | Space around an address changes nothing |
| `Address.TrimTakesOnlySpace` | pq-wallet/service/address_doge.go:15-40 | Only white space is taken off the ends of an address |
| `Address.CheckDecodeUndoesEncode` | quantum-explorer/service/base58.go:36-44 | A checked string decodes to its version and payload iff its bytes are not all zero |
| `Address.ScriptUndoesAddress` | pq-wallet/service/address_doge.go:15-40 | Address to script undoes script to address for every P2PKH script on both networks, and refuses the other network and P2SH |
| `Address.AddressUndoesScript` | quantum-explorer/service/base58.go:46-66 | Every ASCII address that is accepted is, up to surrounding space, the one written for its script |
| `Address.ForeignPrefixKeepsScript` | pq-wallet/service/address_doge.go:15-40 | A foreign character before an accepted address leaves it accepted for the same script |
| `Address.B58DecodeInt` | arcade/service/server.py:185-189 | The loop computes the plain value, or fails on a character outside the alphabet |
| `Address.B58CheckDecode` | arcade/service/server.py:192-212 | Zero bytes for leading ones, minimal bytes of the value, checksum removed |
| `Address.ArcadeAgreesWithWallet` | arcade/service/server.py:192-212 | The Python decoder and the wallet agree on a text, refusals included, unless it is readable text outside ASCII whose digits carry their checksum; the Python decoder refuses all text outside ASCII |
| `AesCbc.Aes256CbcEncrypt` | pq-wallet/vendors/libdogecoin/src/aes.c:28-65 | Writes the CBC encryption of the data, padded when asked (RFC 5652 section 6.3), and returns its length; nothing for empty data or partial blocks without padding |
| `AesCbc.Aes256CbcDecrypt` | pq-wallet/vendors/libdogecoin/src/aes.c:67-110 | Writes the plaintext and returns its length without padding, 0 for malformed padding |
| `AesCbc.CheckPadding` | pq-wallet/vendors/libdogecoin/src/aes.c:93-108 | The fixed sixteen-step loop fails iff the padding is malformed |
| `AesCbc.CbcRoundTrip` | pq-wallet/vendors/libdogecoin/src/aes.c:28-110 | CBC decryption undoes CBC encryption on whole blocks for any cipher whose decrypt undoes its encrypt (NIST SP 800-38A section 6.2) |
| `AesCbc.EncryptedBlock` | pq-wallet/vendors/libdogecoin/src/aes.c:28-65 | Every ciphertext block is the cipher of its plaintext block combined with the ciphertext block before it, or with the start vector |
| `AesCbc.DecryptedBlock` | pq-wallet/vendors/libdogecoin/src/aes.c:67-110 | Every plaintext block is the decipherment of its ciphertext block combined with the ciphertext block before it, or with the start vector |
| `AesCbc.PaddedIs` | pq-wallet/vendors/libdogecoin/src/aes.c:54-63 | Padding adds from 1 to 16 bytes up to a whole block, each of them their count |
| `AesCbc.WellPaddedIff` | pq-wallet/vendors/libdogecoin/src/aes.c:93-108 | Whole blocks are well padded iff they are the padding of something |
| `AesCbc.UnpadUndoesPad` | pq-wallet/vendors/libdogecoin/src/aes.c:54-63 | Padding is well formed and removing it gives the data back |
| `AesCbc.DecryptUndoesEncrypt` | pq-wallet/vendors/libdogecoin/src/aes.c:28-110 | Decrypting the encryption returns the data: all data with padding, whole blocks without |
| `AesCbc.NothingDecryptedIff` | pq-wallet/vendors/libdogecoin/src/aes.c:93-109 | For non-empty whole blocks with padding on, nothing comes out iff the padding is malformed or the plaintext is one block of nothing but padding |
| `AesCbc.PaddingBlockIsLost` | pq-wallet/vendors/libdogecoin/src/aes.c:93-109 | Under every key and start vector the encryption of one block of padding is well formed and decrypts to nothing |
| `RecordMerge.MergeTxRecords` | pq-wallet/service/state_store.go:106-235 | The map and order list stand for the list of rows throughout: the result is the reference merge |
| `RecordMerge.UpdateRow` | pq-wallet/service/state_store.go:126-224 | The field updates in code order are the reference update of a row |
| `RecordMerge.MergesAreOneMerge` | pq-wallet/service/state_store.go:106-235 | A run of merges, each from what the one before stored, is one merge of everything that came in |
| `RecordMerge.MergesKeepRows` | pq-wallet/service/state_store.go:106-235 | After any merges txids are unique, normalised and in order of first appearance, and each row depends only on its own txid's rows |
| `RecordMerge.OrderIsFirstSeen` | pq-wallet/service/state_store.go:106-235 | Rows stand in the order in which their txids first came |
| `RecordMerge.MergeRowFacts` | pq-wallet/service/state_store.go:144-223 | What one merge does to counters, flags and time: the time is the first one set |
| `RecordMerge.PlainRowMerge` | pq-wallet/service/state_store.go:144-223 | For rows that are not manual sends: the first amount and address and the last source stand; direction moves only to a known one at least as definite, never on the word of a row without raw bytes against one with; an SPV correction takes over direction, amount and address |
| `RecordMerge.RankIs` | pq-wallet/service/state_store.go:47-56 | Out is more definite than in, and in than anything else, in any case and spacing |
| `RecordMerge.ManualOutIs` | pq-wallet/service/state_store.go:127-134 | A wallet send is a row from manual that goes out, in any case and spacing |
| `RecordMerge.FoldedTexts` | pq-wallet/service/state_store.go:160-177 | Raw bytes and each evidence text are the first that any row of the txid has |
| `RecordMerge.StoredIsLast` | pq-wallet/service/state_store.go:106-119 | Of stored rows with one txid the last stands, in the place of the first |
| `RecordMerge.PromisedTimeIff` | pq-wallet/service/state_store.go:144-223 | The merged row has the time of the confirmation, as the comment promises, iff one of the two times is missing or both are equal, or the incoming row is neither better confirmed nor the first with a height |
| `RecordMerge.ConfirmedTimeIsLost` | pq-wallet/service/state_store.go:144-223 | Two concrete rows: seen at 100, confirmed at 900, and the merged row keeps 100 |
| `RecordMerge.FoldedFields` | pq-wallet/service/state_store.go:144-223 | Confirmations and heights are the largest seen, PQ flags are set iff some row sets them, the time is the first one set |
| `RecordMerge.ManualTakesOver` | pq-wallet/service/state_store.go:127-143 | A manual send row makes the merged row one, with its amount and address |
| `RecordMerge.SendStaysSend` | pq-wallet/service/state_store.go:129-215 | Whatever rows follow, a manual send stays one, and its amount and address depend only on later manual sends |
| `RecordMerge.SendDirection` | pq-wallet/service/state_store.go:129-215 | The direction text of a send row is rewritten only by another manual send that goes out |
| `RecordMerge.SendArrives` | pq-wallet/service/state_store.go:127-143 | A manual send that comes in makes its txid's row one, whatever came before |
| `RecordMerge.SendStaysSendInMerges` | pq-wallet/service/state_store.go:106-235 | Over every run of merges: once the rows of a txid made its stored row a manual send it stays one, and amount and address are those of the send and of later manual sends |
| `RateLimiter.FilterInPlace` | quantum-explorer/service/rate_limit.go:44-50 | Filtering over its own front keeps exactly the entries since the cutoff, in order |
| `RateLimiter.IpRateLimiter.Allow` | quantum-explorer/service/rate_limit.go:34-58 | State and answer of one request |
| `RateLimiter.LimiterRefinesHistory` | quantum-explorer/service/rate_limit.go:34-58 | In every run with a non-decreasing clock each answer is the one the full history gives: fewer than the limit of earlier allowed requests of the client in the window that ends now |
| `RateLimiter.NoWindowOverLimit` | quantum-explorer/service/rate_limit.go:34-58 | Then no closed window of the configured length holds more than the limit of allowed requests of one client |
| `RateLimiter.ClientsShared` | quantum-explorer/service/rate_limit.go:34-43 | Requests are counted together iff their addresses are equal or each is blank or the word unknown |
| `RateLimiter.OldTimesAreForgotten` | quantum-explorer/service/rate_limit.go:34-58 | After a request the list of its client holds nothing older than the window |
| `PinLockout.Server.PinLockoutCheck` | pq-wallet/service/pin_lockout.go:77-98 | Blocked iff a lockout is running; an expired one is removed with its counter |
| `PinLockout.Server.RecordPINUnlockFailure` | pq-wallet/service/pin_lockout.go:100-128 | Counts the failure; the third sets a one-hour lockout and clears the counter |
| `PinLockout.Server.PinLockoutStatus` | pq-wallet/service/pin_lockout.go:131-147 | Reports a running lockout and removes an expired one |
| `PinLockout.Server.ClearPINLockoutState` | pq-wallet/service/pin_lockout.go:69-74 | Counter and lockout are removed, the session is left alone |
| `PinLockout.Server.UnlockSealedWallet` | pq-wallet/service/wallet_seal.go:141-192 | Opens a session iff not blocked and the PIN is right; only a wrong PIN that reached decryption is counted |
| `PinLockout.Server.LockWalletSession` | pq-wallet/service/wallet_seal.go:194-199 | The session ends, counter and lockout stay |
| `PinLockout.Server.LoadWallet` | pq-wallet/service/wallet_ops.go:37-79 | Allowed iff a session is open, which it prolongs |
| `PinLockout.Server.SealWallet` | pq-wallet/service/wallet_seal.go:87-139 | Sealing clears counter and lockout and opens a session |
| `PinLockout.Server.RemoveWallet` | pq-wallet/service/wallet_ops.go:185-188 | Removing clears counter and lockout and ends the session |
| `PinLockout.CounterBounded` | pq-wallet/service/pin_lockout.go:100-128 | In every run the counter is at most 2, and 0 while a lockout is set |
| `PinLockout.FailureCounts` | pq-wallet/service/pin_lockout.go:100-128 | With an expired lockout put aside, the third failure sets 3600 seconds and clears the counter, the others are counted, and none counts during a lockout |
| `PinLockout.ResetForgives` | pq-wallet/service/wallet_seal.go:132-190 | After sealing, importing, removing or a right PIN no failure and no lockout is left |
| `PinLockout.SessionOpenIff` | pq-wallet/service/wallet_seal.go:132-206 | In every run a session is open iff less than 2700 seconds have passed since the last event that granted one (a right PIN let through, sealing, a load while open) and no lock or removal came since |
| `PinLockout.LockedOutStaysLocked` | pq-wallet/service/wallet_seal.go:141-192 | In every run: from the third failure until the hour is over, whatever events follow short of sealing, importing or removing the wallet, nothing is counted or tried, and the next right PIN opens a session iff its check comes after the hour |
| `PinLockout.NoSessionOpensInLockout` | pq-wallet/service/wallet_seal.go:141-206 | In that hour a session that is over is never opened or prolonged again; only one still open can be prolonged |
| `PinLockout.AtMostThreePerHour` | pq-wallet/service/wallet_seal.go:141-192 | In every run without a successful unlock or reset, no half-open 3600-second window holds more than three wrong-PIN decryption attempts |
| `Leaderboard.Clean` | arcade/service/server.py:757 | The shown name is the first 13 characters of the trimmed name, or DOGE when nothing is left |
| `Leaderboard.RefusalIs` | arcade/service/server.py:756-766 | A submission is refused iff its score is not from 1 to 999999999 or its time not from 0 to 864000, the score first |
| `Leaderboard.LeaderboardStore.TryAdd` | arcade/service/server.py:756-786 | Validation, insertion and pruning of one submission, and its answer |
| `Leaderboard.LeaderboardStore.Top10` | arcade/service/server.py:743-754 | Name, score and time of the first ten rows in leaderboard order |
| `Leaderboard.OrderedIsSorted` | arcade/service/server.py:743-754 | The order is a sorted arrangement of exactly the stored rows |
| `Leaderboard.StoredIsTopTen` | arcade/service/server.py:756-786 | After any submissions the stored table is the first ten of all accepted ones, sorted by score, time and id, each with an id of its own |
| `Leaderboard.StoredAreBest` | arcade/service/server.py:756-786 | The stored rows are min(10, all) of the accepted ones, and each has a higher score than every accepted row not stored, or the same in less time, or the same in the same time and earlier |
| `Leaderboard.AcceptedKeepsFields` | arcade/service/server.py:756-786 | An accepted submission is kept with its own score, time and moment, and its cleaned name |
| `Leaderboard.AddedIffTopTen` | arcade/service/server.py:756-786 | A submission is reported as added iff it is valid and among the first ten of all accepted ones |
| `HeadersFile.HeadersDb.Truncate` | pq-wallet/service/legacy_headers_file.go:45-116 | The reported height and size and the file afterwards, with every refusal |
| `HeadersFile.TruncationRefusedIff` | pq-wallet/service/legacy_headers_file.go:45-116 | Truncation goes through iff height, size, magic, version and first record are in range; each refusal has its own reason and leaves the file; an accepted one reports its new size |
| `HeadersFile.HeadersDb.TipHeight` | pq-wallet/service/legacy_headers_file.go:142-171 | The largest stored height, 0 for none |
| `HeadersFile.HeadersDb.HashHexAtHeight` | pq-wallet/service/legacy_headers_file.go:174-203 | The hash of the first record at the height, or empty |
| `HeadersFile.HeadersDb.Header80HexAtHeight` | pq-wallet/service/legacy_headers_file.go:206-236 | The 80-byte header of the first record at the height, or empty |
| `HeadersFile.FindIsFirst` | pq-wallet/service/legacy_headers_file.go:174-236 | A lookup finds exactly the first record at the height |
| `HeadersFile.RecordReads` | pq-wallet/service/legacy_headers_file.go:142-236 | A record of hash, height, chain work and header reads back as its height, hash and header |
| `HeadersFile.KeepsExactlyIff` | pq-wallet/service/legacy_headers_file.go:81-112 | Truncation keeps exactly the records at or below the height iff no record at or below it comes after one above it |
| `HeadersFile.LowRecordIsLost` | pq-wallet/service/legacy_headers_file.go:45-116 | A concrete file with heights 1, 3, 2: truncating it to 2 is accepted and loses the record of height 2 |
| `HeadersFile.NonDecreasingKeepsExactly` | pq-wallet/service/legacy_headers_file.go:43-116 | With non-decreasing heights it always does |
| `HeadersFile.TipIsReported` | pq-wallet/service/legacy_headers_file.go:142-171 | The tip scan of the truncated file returns the reported height |
| `HeadersFile.LookupsAfterTruncation` | pq-wallet/service/legacy_headers_file.go:174-236 | Lookups at or below the height are unchanged, lookups above it find nothing |
| `HeadersFile.TruncatingTwice` | pq-wallet/service/legacy_headers_file.go:45-116 | Truncating again reports the same and changes nothing, for any order of heights |

## Left out

- HTTP handlers, JSON, remote procedure calls, SQL engines, subprocesses, files and clocks: their results are parameters or fields, and one table transaction is one step.
- The order in which threads interleave: a loop pass, a request and an unlock are each one step; stopping and starting the indexer while a pass runs is not modelled.
- Crashes between a committed block and the persisted height, and `setStartHeightIfNeeded`.
- The indexer's hourly metrics, backfills of raw bytes and addresses, and creation times; the fallback fetch of raw bytes is part of the block data.
- ChainIndexer.RunsStayConsistent: txids are unique on a branch and a block hash determines its branch, as the chain guarantees.
- Wrap-around of Go integers on lengths and totals no real input reaches: lengths are unbounded, and sums of values in a send stay below 2^63.
- Text.Trim: only ASCII white space is trimmed, in every place where the programs trim Unicode space.
- ChainIndexer.CoreIndexer.BlockHashAtHeight: trimming and lower-casing a stored hash again when it is read is not repeated, since it changes nothing (ChainTables.TidyTwice).
- The counterparty and wallet address texts that the output walk of the wallet collects, and floating-point display amounts; merged amounts are reals.
- The text form of digests: commitments are keyed by their bytes.
- Carrier.VerifyCarrierPhase1: the order in which groups are visited is left open, as iteration over a Go map is.
- BaseTx.AddCommitAndCarrierOutputs: the part count is given, and allocation failures and hexadecimal decoding are left out.
- SendPlan.HandleSendPQSafe: address errors, environment settings, and the second extension attempt made from values scraped out of an error text; the signed transaction is bounded in size, not built.
- SendPlan.EstimateCoversSigned: signature scripts above 108 bytes, which a compressed key and a low signature do not reach.
- CoinSelection.SortByValue: the library sort is replaced by an insertion sort; the contract leaves the order of equal values open.
- Uint256.SetBit: the shift of 1 into bit 31 is 2^31, as compilers make it.
- Conversion between 256-bit numbers and byte strings, and `get_low64`.
- AesCbc.Aes256CbcDecrypt: the ciphertext is a value, so decrypting a buffer onto itself is not covered; null pointers are not modelled.
- Address.ScriptFromAddress: surrounding space outside ASCII.
- PinLockout.Server.UnlockSealedWallet: an unreadable or unwritable lockout file, and the wallet contents; switching encryption off is an unlock followed by a lock.
- Leaderboard.Clean: Python also strips four control characters and Unicode space.
- HeadersFile.HeadersDb.Truncate: failing reads and writes of the file.
- Decimal amount parsing, display of amounts, bech32 and segwit addresses, and the OP_RETURN previews: easy or outside the claims.
- The SPV log scraping, broadcast merging and direction heuristics of the wallet, which have no crisp specification.

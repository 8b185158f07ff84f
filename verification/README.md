# Xcosh Core: verified model

A Dafny model of the three stateful parts of Xcosh Core, a proof-of-work ledger node written in Go, with proofs of what every run of them keeps.

* **The ledger** (`node/ledger.go`, with `core/`, `internal/consensus/`, `storage/`). `LedgerNode.LedgerCore` is a class over account objects on the heap and a `Storage.Database`; each of its methods is proved to take the ledger's model to the state given by a function in `LedgerModel`. `LedgerTheorems` proves over those functions what every run keeps: a valid chain, a store that mirrors it, balances that equal a replay of the chain; `LedgerContents` that every transfer in the ledger carries a signature that verifies, and `LedgerCoins` that coins are conserved. `Consensus` holds the reward schedule, the difficulty rule and the proof-of-work target; `Conservation` the sums of coins; `Transfers` and `Blocks` the payloads, the hashed bytes and the validation.
* **The nonce search** (`ConsensusEngine.Mine`). `MiningWorkers` is a state machine over the interleaved operations of any number of workers.
* **The peer multiplexer and peer loop** (`internal/p2p/peer.go`). `Multiplex` lays out message codes, `PeerLoop` is a state machine over the channel operations of `Peer.run`, `pingLoop`, `readLoop` and the protocols.
* **The dial scheduler and the server loop** (`internal/p2p/dial.go`, `internal/p2p/p2p.go`). `DialScheduler.Scheduler` is a class over task objects with back-indices, proved against `DialModel`; `Network` runs the scheduler's model together with the server loop, the connections being set up and the dial tasks.

How the Go program appears here:

* Integers have Go's ranges (`u64`, `u32`, `i64`), and arithmetic that can leave a range wraps explicitly (`Add64`, `Sub64`, `Wrap64`, `WrapInt64`).
* A Go string and a byte slice are both a `string`, one character a byte.
* Keccak-256, JSON and signature checks are uninterpreted functions in `Blocks.Env`. That JSON gives back what was written is the hypothesis `JsonRoundTrips`, and that the lengths of its parts add up is `JsonSizes`. No hash is assumed injective.
* The clock, the nonce that mining finds and the random slots of the scheduler are parameters or free choices. `NonceFound` says which nonces mining can return; `MiningWorkers.ResultIsMined` proves that the search returns only such nonces.
* `MineBlock` is two methods, `BeginMining` up to its first unlock and `FinishMining` for the rest; the locals it carries across are the field `mining`. In between, the mempool may change and the process may restart, and in `LedgerModel.AnyNext` the chain may also be reorganised; one mining run is in flight at a time.
* Where the program panics, the method returns `false` (or the outcome `Halted`).

Things the code does that its comments do not say, each proved with its exact condition:

* `MineBlock` trims the mempool by the number of mined transfers. The entries it removes are the mined ones, entry by entry, exactly if the pool has a front that fits the block and can be paid for in turn, after which nothing that fits can be paid for; equivalently, if each of that many first ones can be paid for in turn (`Accounts.TrimIsExact`). As a bag of transfers the pool loses what was mined exactly if the transfers skipped among those first ones equal, count for count, the ones picked after them (`Accounts.TrimRemovesPicked`); on a pool without repeats that is the same condition (`Accounts.TrimWithoutRepeats`). `Accounts.TrimDropsTheWrongOne` gives a pool where an unmined transfer is dropped and the mined one stays.
* `MineBlock` credits a miner named `SYSTEM_GENESIS`, but a replay of the chain does not. The two balances agree exactly for other miners, or when there is nothing to credit (`LedgerTheorems.FinishAgreement`).
* `MineBlock` panics on its own block exactly when the JSON is over the limit or the parent has the last int64 timestamp (`LedgerTheorems.OwnBlockPasses`). Its 512-byte allowance stands for the block without transfers and the commas between them; when those take no more, the size never is the reason (`LedgerTheorems.AllowanceSuffices`). A mined block's difficulty wraps to 0 exactly at the uint32 limit (`LedgerTheorems.MinedDifficulty`).
* The bytes hashed for a block hold the parent's hash and the transfers' signatures; a change of one field alone shows in them (`Blocks.ParentChangesData` and its siblings), but of a transfer only its signature does (`Blocks.SignatureChangesData`), and the miner and the bits do not (`Blocks.DataIgnoresMiner`).
* Validation does not hash a block again, and an empty hash meets every target. So an appended block, unlike a mined one, need not store its own hash, and it may carry any difficulty and any later timestamp (`LedgerTheorems.AppendIgnoresContents`). Both limits above can be reached that way (`LedgerTheorems.LastTimestampStopsMining`, `LedgerTheorems.LargestDifficultyWraps`).
* A reorganisation while a mining run is in flight can break the chain. Whatever the chain has become, if it is valid when the run ends, then it stays valid if and only if the run's block extends it: its old parent is one index below the height and has the tip's hash, and the tip is earlier (`LedgerTheorems.ReorganisedRun`; over whole runs `LedgerTheorems.AnyRunStored`). A rollback, and a rollback followed by another block of the same height, do break it (`LedgerTheorems.ReorganisedRunBreaks`). A rollback also takes back what the picked transfers did to the balances (`LedgerTheorems.RolledBackRunBalances`).
* An appended block may spend what its sender does not have, and is accepted all the same (`LedgerTheorems.AppendIgnoresBalances`). The replay clamps the balance to zero, so coins appear: exactly the shortfall, which is zero if and only if every sender could pay (`Conservation.PaidMeansNoShortfall`), as long as no credit overflows, and coins disappear exactly where one does (`LedgerCoins.CoinsConserved`; `Conservation.CreditsOverflow` gives two transfers that overflow). In a run whose appended blocks are paid for, coins are the circulating supply and no addition overflows (`LedgerCoins.RunSolvent`).
* Difficulty 1 and difficulty 0 ask for the same 20 zero bits, and difficulty 2 asks for 22 (`Consensus.PoWCountsZeroBits`).
* The limit M on dialed peers is a soft one. With A active dials (50 by default) and both positive, no run has more than M + min(M, A/2) dialed peers (`Network.DialedPeersBounded`), and in every configuration some run has exactly that many (`NetworkOverrun.DialLimitOverrun`): 58 for a limit of 33, which is that of 100 peers with the default ratio. No run exceeds M if and only if M is not positive or at most one dial is active (`NetworkOverrun.DialLimitKept`).
* If the lengths of the shared protocols and the base range add up to 2^64 or more, offsets wrap: some protocol then gets no message of its first code. Below that every message arrives (`Multiplex.MessageArrives`; `Multiplex.HalvesOverrun` gives two protocols that are too long).

## Model

| member | source | states |
|---|---|---|
| Consensus.EmissionBound | internal/consensus/consensus.go:33-35 | for every height the coins issued by the schedule are at most 78,499,999,913,650,000, below MaxSupply, with equality exactly from the 33rd full halving era on |
| Consensus.EmissionByEras | internal/consensus/consensus.go:87-93 | the sum of the rewards below a height is the sum over its full eras plus the current era's share |
| Consensus.RewardVanishes | internal/consensus/consensus.go:87-93 | the era reward is zero exactly from era 33 on |
| Consensus.AllowedIsScheduled | core/validator.go:91-99 | on a supply that followed the schedule the MaxSupply truncation never changes the reward |
| Consensus.DifficultyMovesByOne | internal/consensus/consensus.go:96-120 | for all inputs: the next difficulty is at least 1; it moves by more than 1 exactly where an early block wraps the largest one; when it rises and when it falls |
| Consensus.DifficultyFallsWithTime | internal/consensus/consensus.go:96-120 | of two times the later never gives the higher difficulty, except exactly where only it counts as early or where an early one wraps the largest difficulty; early and late lie two apart |
| Consensus.PoWCountsZeroBits | internal/consensus/consensus.go:123-141 | a 32-byte hash passes exactly when it has min(256, 20 + d) leading zero bits, d counted from 2 |
| Consensus.PoWMonotone | internal/consensus/consensus.go:123-141 | acceptance at one difficulty implies acceptance at every lower one |
| Consensus.BelowPow2 | internal/consensus/consensus.go:124-129 | a big-endian byte string is below 2^k exactly when all but its last k bits are zero |
| Consensus.PowLimitIsPow2 | internal/consensus/consensus.go:28 | the hexadecimal limit constant is 2^236 - 1 |
| Text.FormatUintParses | storage/db.go:50-59 | formatting a number in a base and parsing it gives the number back |
| Text.HexRoundTrip | core/block.go:190-194 | hex-encoding bytes and decoding them gives the bytes back |
| Transfers.PayloadRoundTrip | core/tx.go:59-62 | every payload can be read back into recipient, value, fee and nonce, whatever dashes the recipient has |
| Transfers.IDPreimageDetermines | core/tx.go:76-83 | with keys of one length, equal ID pre-images mean equal keys and equal payload fields |
| Transfers.AddressOfKey | crypto/crypto.go:45-48 | an address is "xcosh" and 28 hexadecimal digits, which decode to the first 14 bytes of the key, so addresses are equal exactly if those are |
| Blocks.DataBegins | core/block.go:92-94 | the hashed bytes begin with the parent's hash and the transfers' signatures |
| Blocks.ParentChangesData | core/block.go:92-103 | another parent hash gives different bytes to hash |
| Blocks.SignatureChangesData | core/block.go:73-77 | so does another transfer in one place, if and only if its signature is another |
| Blocks.IndexChangesData | core/block.go:92-103 | so does another index |
| Blocks.TimestampChangesData | core/block.go:92-103 | so does another timestamp, negative ones included |
| Blocks.PolicyChangesData | core/block.go:79-89 | so does another supply limit or halving interval, except zero for the default it stands for |
| Blocks.DifficultyChangesData | core/block.go:92-103 | so does another difficulty |
| Blocks.MessageChangesData | core/block.go:92-103 | so does another message |
| Blocks.DataIgnoresMiner | core/block.go:92-103 | the miner and the bits change nothing |
| Blocks.NonceChangesData | core/block.go:92-103 | two nonces of one block give different bytes to hash |
| Blocks.RewardChangesData | core/block.go:92-103 | changing only the reward changes the bytes to hash |
| Blocks.PreparingKeepsData | core/block.go:107-128 | what Mine fills in changes no hashed byte but those of a missing reward, which becomes the scheduled one; no policy field is left at zero |
| Blocks.ValidatesExactly | core/validator.go:22-107 | a block is valid exactly on the conditions on its fields, among them zero or the right policy, and the reward cut to what the supply leaves |
| Blocks.ValidHashHasZeros | core/validator.go:56-61 | a valid block's 32-byte hash begins with 20 zero bits and, from difficulty 2, as many more as the difficulty |
| Storage.Database.SaveBlock | storage/db.go:42-60 | stores the block under its key and points last_index at it, changing nothing else |
| Storage.Database.DeleteBlock | storage/db.go:90-104 | removes the block's key and points last_index at the block before, or removes it for block 0 |
| Storage.Database.ClearAll | storage/db.go:107-124 | leaves the store empty |
| Storage.SavedIsRead | storage/db.go:42-87 | what was saved last is what GetLastIndex and GetBlock read, and no other block is disturbed |
| Storage.DeletedIsGone | storage/db.go:63-104 | after a delete the block is not read, the one before it is the last, and no other block is disturbed |
| Storage.BlockKeysDistinct | storage/db.go:50 | a block key is "block_" and the height in decimal; keys of different heights differ, and none is last_index |
| Storage.SaveMirrors | storage/db.go:42-60 | saving the next block of a mirrored chain leaves a store that mirrors the longer chain |
| Storage.DeleteMirrors | storage/db.go:90-104 | deleting the tip leaves a store that mirrors the shorter chain |
| Storage.DeleteUndoesSave | storage/db.go:90-104 | deleting a block that was just saved restores the very store |
| Storage.LoadsTheMirroredChain | node/ledger.go:130-145 | the loading loop reads back exactly the mirrored chain |
| Storage.LoadedExactly | node/ledger.go:135-145 | of any store it loads exactly the blocks that heights up to the first missing key decode to, passing over what does not decode |
| Accounts.SettleIsReplay | node/ledger.go:350-363 | charging and paying as MineBlock does equals RebuildState's way on every transfer that can be paid for, self-transfers and new accounts included |
| Accounts.TransferMoves | node/ledger.go:177-200 | a replayed transfer takes value and fee, or all there is, from its sender, gives the value to its recipient, raises the sender's nonce by one, and touches nobody else |
| Accounts.BlockPays | node/ledger.go:202-208 | a replayed block then pays reward and fees to its miner, unless that is SYSTEM_GENESIS or empty, and nobody else |
| Accounts.ReplayCounts | node/ledger.go:175-209 | after a replay an account's nonce is the number of transfers it sent in the chain |
| Accounts.SelectReplaysPicked | node/ledger.go:332-374 | the selection loop leaves the balances of a replay of exactly the picked transfers |
| Accounts.SelectPicksAffordable | node/ledger.go:350-354 | every picked transfer's sender could pay its cost when its turn came |
| Accounts.SelectPartitions | node/ledger.go:335-369 | the loop looks at a prefix of the mempool, all of it unless the size limit ends it, and each entry there is either picked or skipped |
| Accounts.SelectCountsBytes | node/ledger.go:333-347 | the loop's count is the allowance plus the encodings of the picked transfers, and stays within the limit |
| Accounts.TrimIsExact | node/ledger.go:371-373 | the trimmed prefix is the picked transfers, entry by entry, if and only if each of that many first ones can be paid for in turn, and if and only if the pool has a payable front that fits, after which nothing that fits can be paid for |
| Accounts.TrimRemovesPicked | node/ledger.go:371-373 | the pool loses exactly the picked transfers, as a bag, if and only if those passed over among that many first ones equal those picked after them |
| Accounts.TrimWithoutRepeats | node/ledger.go:371-373 | on a pool without repeated entries it does if and only if each of that many first ones can be paid for in turn |
| Accounts.TrimDropsTheWrongOne | node/ledger.go:371-373 | an unaffordable transfer ahead of an affordable one: the mined one stays in the mempool and the other is dropped |
| Accounts.ApplyBlockSame | node/ledger.go:175-209 | what RebuildState does to balances depends only on balances, a missing account counting as zero |
| Conservation.ConservationModulo | node/ledger.go:175-209 | for every chain, modulo 2^64, balances plus uncredited coins equal the supply plus the shortfall that the clamps to zero forgave |
| Conservation.TransfersExact | node/ledger.go:182-206 | transfers that do not wrap move coins from balances to fees, exceeding what was there by exactly the forgiven shortfall, if and only if no credit overflows; none does, nor does the fee total, while total and shortfall are below 2^64 |
| Conservation.CreditsOverflow | node/ledger.go:199 | two transfers that do not wrap, of the largest value to an empty account: the second credit overflows |
| Conservation.PaidMeansNoShortfall | node/ledger.go:187-192 | the shortfall is zero if and only if every sender could pay when its turn came |
| Conservation.ConservationExact | node/ledger.go:67-73 | on a chain whose transfers do not wrap, balances plus uncredited coins are the issued coins plus the shortfall, as exact sums, if and only if no addition of the replay overflows; none does while issued coins and shortfall are below 2^64 |
| LedgerNode.LedgerCore.constructor | node/ledger.go:108-116 | no blocks, accounts or pending transfers, whatever the database holds |
| LedgerNode.LedgerCore.RebuildState | node/ledger.go:175-209 | the account map becomes the replay of the block on the old one |
| LedgerNode.LedgerCore.GetTotalCirculatingSupply | node/ledger.go:67-73 | the 64-bit sum of all rewards |
| LedgerNode.LedgerCore.VerifyConsensusIntegrity | node/ledger.go:76-94 | false, where the program panics, exactly when the genesis hash misses the checkpoint or the supply exceeds MaxSupply |
| LedgerNode.LedgerCore.SpawnGenesis | node/ledger.go:212-240 | appends and stores the sealed genesis block |
| LedgerNode.LedgerCore.LoadFromDisk | node/ledger.go:129-172 | nothing for an empty store, the stored chain and its replay, a wiped store and a fresh genesis for a foreign one, or a panic for one that fails the checks |
| LedgerNode.InitializeLedger | node/ledger.go:97-126 | the ledger after loading, or after spawning genesis when nothing was stored |
| LedgerNode.LedgerCore.AddToMempool | node/ledger.go:243-279 | accepts exactly the transfers to an "xcosh" address whose signature verifies, and changes nothing for others; the mempool is then sorted by fee and holds one more transfer, and only the sender's nonce changes |
| LedgerNode.SortByFee | node/ledger.go:273-275 | the result is sorted by fee and is a permutation |
| LedgerNode.LedgerCore.SelectTransfers | node/ledger.go:329-369 | the loop's accounts, picks and fee total are those of the specified selection |
| LedgerNode.LedgerCore.BeginMining | node/ledger.go:321-375 | refuses, unchanged, exactly the miners without the prefix; otherwise the picked transfers are charged and paid, and as many leave the front of the mempool |
| LedgerNode.LedgerCore.FinishMining | node/ledger.go:377-437 | the block is appended and stored and the miner gets reward and fees; or nothing but the target changes, where the program panics, exactly when the block fails validation |
| LedgerNode.LedgerCore.AppendBlockDirectly | node/ledger.go:501-520 | appends, stores and applies exactly the blocks that link and validate, and otherwise changes nothing |
| LedgerNode.LedgerCore.RollbackBlock | node/ledger.go:454-480 | removes the tip everywhere, returns its transfers and replays the rest; refuses to remove genesis |
| LedgerTheorems.GenesisFields | node/ledger.go:212-232 | the genesis block has 64 zero bytes for a parent, no transfers, the target asked for, and the configured policy and message |
| LedgerTheorems.ChainLength | core/validator.go:30-32 | int64 timestamps bound the length of a valid chain, so no index wraps |
| LedgerTheorems.ChainFollowsSchedule | core/validator.go:91-99 | a valid chain's supply is the scheduled emission and its tip's index is its position |
| LedgerTheorems.ChainFacts | core/validator.go:22-107 | in every valid chain index equals position, hashes link, timestamps rise, each hash meets its difficulty, rewards follow the schedule, and miner, policy and size are as required |
| LedgerTheorems.TimestampsIncrease | core/validator.go:30-32 | of any two blocks of a valid chain the later one has the later timestamp |
| LedgerTheorems.NextKeeps | node/ledger.go:321-520 | every step keeps the chain valid, the store its mirror, and the balances those of the replay, with the fees and reward of a run in flight uncredited |
| LedgerTheorems.RunKeeps | node/ledger.go:97-520 | so does every state of every run from a database that is empty, foreign, or a mirror of a valid chain |
| LedgerTheorems.BeginKeeps | node/ledger.go:321-375 | between the phases of MineBlock the balances are the replay with the selected transfers applied |
| LedgerTheorems.FinishAgreement | node/ledger.go:429-436 | after MineBlock the balances equal the replay if and only if the miner is not SYSTEM_GENESIS or the credit is zero |
| LedgerTheorems.AppendKeeps | node/ledger.go:501-520 | appending a block keeps the whole invariant |
| LedgerTheorems.RollbackKeeps | node/ledger.go:454-480 | rolling back keeps the whole invariant |
| LedgerTheorems.RestartKeeps | node/ledger.go:97-172 | a restart keeps the chain and the store, and its balances are the replay |
| LedgerTheorems.RunReloads | node/ledger.go:129-172 | after any run a fresh node rebuilds the same chain and balances if and only if the genesis hash is the checkpoint, and else halts |
| LedgerContents.SubmitExactly | node/ledger.go:243-279 | a transfer enters the mempool if and only if its recipient has the prefix and its signature verifies; otherwise nothing changes, and if so only the pool and the sender's nonce |
| LedgerContents.RunAuthentic | node/ledger.go:254-257 | in every run whose replaced mempools and appended blocks hold only transfers that verify, every transfer in the mempool, in flight and in the chain verifies |
| LedgerContents.RunHeld | node/ledger.go:97-520 | so for any property of transfers: no step makes up a transfer |
| LedgerTheorems.RespawnConsistent | node/ledger.go:153-167 | the wipe-and-respawn branch leaves a consistent one-block ledger, whatever was stored |
| LedgerTheorems.LoadExactly | node/ledger.go:129-172 | when a store is loaded, wiped or refused, by the six fields of its first block, the checkpoint and the supply |
| LedgerTheorems.OwnBlockPasses | node/ledger.go:421-423 | MineBlock's own block passes validation if and only if its JSON fits and the parent's timestamp is not the last int64 |
| LedgerTheorems.AllowanceSuffices | node/ledger.go:333-347 | if JSON lengths add up, the own block passes whenever the allowance covers the block without transfers and the commas, and beyond that exactly if what the picked transfers left free does |
| LedgerTheorems.MinedBlockSelfHashed | core/block.go:107-133 | a mined block's stored hash is the hash of its final fields and nonce, and its reward is the scheduled one |
| LedgerTheorems.MinedBlockCommits | core/block.go:92-103 | the bytes behind that hash begin with the tip's hash and the signatures of the picked transfers |
| LedgerTheorems.MinedBlockMeetsTarget | node/ledger.go:395-417 | its hash meets its own difficulty, which is then the engine's target |
| LedgerTheorems.MinedFields | node/ledger.go:377-413 | the mined block carries the picked transfers, the miner, the parent's hash, the next index, the allowed reward, the adjusted difficulty and the policy |
| LedgerTheorems.MinedDifficulty | node/ledger.go:389-396 | a mined block's time is later than its parent's and its difficulty is positive and within one of the parent's, except at the uint32 limit |
| LedgerTheorems.ReturnedReverses | node/ledger.go:461-463 | a rollback leaves the mempool as the tip's transfers in reverse order followed by the old mempool |
| LedgerTheorems.RollbackUndoesAppend | node/ledger.go:454-520 | appending a block and rolling it back restores the chain, the store and all balances |
| LedgerCoins.CoinsConserved | node/ledger.go:67-73 | when no transfer wraps, balances, fees in flight and uncredited coins add up to the circulating supply, which is the scheduled emission and below MaxSupply, plus the shortfall, if and only if no credit in the replay or in flight overflows; none does while emission and shortfall are below 2^64 |
| LedgerCoins.NextFits | node/ledger.go:321-520 | in each step after which emission and shortfall fit 64 bits, no credit, miner's credit or fee sum overflows: while picking, when the mined block is credited, for an appended block, and in the replays of a rollback or restart |
| LedgerCoins.RunConserves | node/ledger.go:321-520 | so in every state of every run whose incoming transfers do not wrap; and while emission and shortfall fit 64 bits no addition of the step that led there overflows |
| LedgerCoins.NextSolvent | node/ledger.go:321-520 | a step whose appended block, if any, is paid for leaves no shortfall |
| LedgerCoins.RunSolvent | node/ledger.go:67-73 | in every run of such steps balances, fees in flight and uncredited coins are the circulating supply, below MaxSupply, and no step overflows |
| LedgerCoins.FreshStartSolvent | node/ledger.go:212-240 | a node that starts with a fresh genesis block has no shortfall |
| LedgerTheorems.AppendIgnoresContents | core/validator.go:56-61 | a block with an empty hash is appended at any difficulty and any later time, if and only if its JSON fits, and it does not store its own hash |
| LedgerTheorems.AppendIgnoresBalances | core/validator.go:22-107 | with a transfer in it such a block is accepted alike, and the shortfall grows by what the sender lacks, so by something if and only if the sender cannot pay |
| LedgerTheorems.LastTimestampStopsMining | node/ledger.go:383-387 | after one with the last int64 timestamp MineBlock's own block never passes validation |
| LedgerTheorems.LargestDifficultyWraps | node/ledger.go:389-396 | after one with the largest difficulty the next mined block has difficulty 0 exactly if it comes early |
| LedgerTheorems.ReorganisedRun | node/ledger.go:377-423 | on whatever valid chain a mining run ends, the chain with its block is valid if and only if the old parent is one index below the height and has the tip's hash, and the tip is earlier |
| LedgerTheorems.AnyNextStored | node/ledger.go:321-520 | every step, with reorganisations in flight, keeps the chain valid and the store its mirror if and only if a run that ends extends the chain there is then |
| LedgerTheorems.AnyRunStored | node/ledger.go:97-520 | in every such run the chain is valid and stored throughout if and only if every mining run that ends extends it |
| LedgerTheorems.ReorganisedRunBreaks | node/ledger.go:454-520 | after a rollback in flight, and after a rollback and another block of the same height, the run does not extend the chain |
| LedgerTheorems.RolledBackRunBalances | node/ledger.go:429-480 | when a run ends after a rollback in flight, the balances are the replay's if and only if its transfers change no balance |
| LedgerCoins.MiningAddsNoShortfall | node/ledger.go:350-354 | a mined block adds no shortfall; only an appended one can |
| MiningWorkers.NoNonceTwice | core/block.go:153-176 | in every interleaving, before the counter wraps, no nonce is hashed twice and none below 50,000 is hashed |
| MiningWorkers.ChunksScannedWhole | core/block.go:158-161 | each chunk has one owner, who alone hashes in it, and hashes all of it before taking another |
| MiningWorkers.OneResult | core/block.go:139-187 | the caller gets at most one nonce, it is good and was hashed, and it never changes; every good nonce that was hashed is offered by its worker, which then stops |
| MiningWorkers.HandsOverOnce | core/block.go:182-186 | the caller has a nonce exactly if it received one and stopChan is closed exactly if it closed it, each once |
| MiningWorkers.SearchReturns | core/block.go:147-186 | a run that cannot go on, while the counter has room, has returned a good nonce and ended every worker |
| MiningWorkers.StopBounded | core/block.go:149-152 | once stopChan is closed at most three operations are left for each worker |
| MiningWorkers.ResultIsMined | core/block.go:169-175 | with the target test the result is a nonce that meets the target for the prepared block |
| Multiplex.MatchProtocols | internal/p2p/peer.go:332-352 | sorts the capabilities in place and computes the layout of the shared ones |
| Multiplex.LayoutUnique | internal/p2p/peer.go:332-352 | the layout is determined by the shared capabilities and their lengths |
| Multiplex.PeersAgree | internal/p2p/peer.go:332-352 | two peers compute the same layout, in any order of lists and with duplicates, if equal name and version mean equal length |
| Multiplex.RangesTile | internal/p2p/peer.go:378-385 | each code of [16, 16 + total) has exactly one owner and no other code has one, if and only if 16 + total fits 64 bits |
| Multiplex.GetProto | internal/p2p/peer.go:378-385 | finds an owner of the code if and only if there is one, in any order of the map |
| Multiplex.Handle | internal/p2p/peer.go:291-318 | classifies every code, and gives a protocol its own code back |
| Multiplex.MessageArrives | internal/p2p/peer.go:397-424 | every code below its protocol's length leaves above the base range, belongs to that protocol alone and comes back as itself, if and only if the ranges fit 64 bits; if they do not, some protocol does not own its own first code |
| Multiplex.HalvesOverrun | internal/p2p/peer.go:332-352 | two protocols of 2^63 codes: the second one owns no code |
| Multiplex.RefusedOrOwned | internal/p2p/peer.go:397-403 | a code is refused exactly from the length on, and one that leaves is owned by the protocol that wrote it |
| Multiplex.MessageReachesTheOtherEnd | internal/p2p/peer.go:397-424 | between two peers every such code reaches the same protocol at the other end as the same code, under the same condition |
| Multiplex.CountMatchingProtocols | internal/p2p/peer.go:320-330 | the nested loops count the matching pairs |
| Multiplex.UselessMeansEmpty | internal/p2p/p2p.go:645-648 | the count is zero exactly when the layout would be empty |
| PeerLoop.WritesExclude | internal/p2p/peer.go:397-414 | the places of the write token add up to exactly one until run stops, then to at most one; two subprotocol writes never overlap |
| PeerLoop.SendsNeverBlock | internal/p2p/peer.go:186-289 | a goroutine that has reached a send on writeStart, writeErr, readErr or protoErr always finds room |
| PeerLoop.StepKeeps | internal/p2p/peer.go:205-249 | every channel operation keeps the token count and the bounds on pending errors |
| PeerLoop.RunStopsExactly | internal/p2p/peer.go:219-247 | run leaves its loop exactly on a failed write, a read error, a reported error or a disconnect request, and hands the token back after a good write |
| PeerLoop.NothingReadIsLost | internal/p2p/peer.go:291-318 | until p.closed is closed every ping read is answered or pending, and every message read is delivered or being offered |
| PeerLoop.ReaderNotStranded | internal/p2p/peer.go:291-318 | when readLoop waits in a select it can proceed, or the goroutine it waits for can, or run can, towards closing p.closed |
| PeerLoop.ShutdownProgress | internal/p2p/peer.go:244-289 | once p.closed is closed every unfinished goroutine and every WriteMsg call has a step of its own |
| PeerLoop.ShutdownBounded | internal/p2p/peer.go:244-289 | after the connection is closed only a bounded number of steps is left, apart from new WriteMsg calls |
| PeerLoop.ShutdownCompletes | internal/p2p/peer.go:244-249 | a run that cannot go on after that has ended every goroutine and every WriteMsg call, so wg.Wait returns |
| DialScheduler.Scheduler.constructor | internal/p2p/dial.go:108-129 | an empty scheduler, with 50 active dials where none are configured |
| DialScheduler.Scheduler.AddToStaticPool | internal/p2p/dial.go:297-303 | the task takes the new last slot and knows it |
| DialScheduler.Scheduler.RemoveFromStaticPool | internal/p2p/dial.go:305-313 | the last task moves into the gap and all back-indices stay right |
| DialScheduler.Scheduler.UpdateStaticPool | internal/p2p/dial.go:290-295 | the node joins the pool exactly if it is static, not there yet and may be dialed |
| DialScheduler.Scheduler.StartStaticDials | internal/p2p/dial.go:280-288 | starts the drawn tasks one by one, n of them unless the pool runs empty |
| DialScheduler.Scheduler.FillSlots | internal/p2p/dial.go:169-170 | at the top of the loop at most the free slots are used, and all of them unless the pool runs empty |
| DialScheduler.Scheduler.TaskDone | internal/p2p/dial.go:175-179 | the node is no longer being dialed, and returns to the pool exactly if it is static and may be dialed again |
| DialScheduler.Scheduler.PeerAdded | internal/p2p/dial.go:181-190 | the peer is known, counted if dialed, and its task leaves the pool by a swap that keeps the other indices right |
| DialScheduler.Scheduler.PeerRemoved | internal/p2p/dial.go:192-197 | the peer is forgotten, uncounted if dialed, and returns to the pool exactly if it is static and may be dialed |
| DialScheduler.Scheduler.AddStatic | internal/p2p/dial.go:199-209 | a new node gets a fresh task, in the pool exactly if it may be dialed; a known one changes nothing |
| DialScheduler.Scheduler.RemoveStatic | internal/p2p/dial.go:211-219 | the node is no longer static and its task leaves the pool; a running dial is not stopped |
| DialScheduler.Scheduler.ExpireHistory | internal/p2p/dial.go:245-251 | forgets exactly the expired entries, in some order, updating the pool for each |
| DialScheduler.Scheduler.TaskResolved | internal/p2p/dial.go:359-383 | the resolved node is stored in the task, and is the static node's if the task still is |
| DialModel.StartAllKeeps | internal/p2p/dial.go:280-288 | every dial that startStaticDials starts is, when it is started, of a static node with a port that is not the node itself, not being dialed, no peer and not dialed recently; the dials stay within maxActiveDials |
| DialModel.PoolHolds | internal/p2p/dial.go:261-295 | the pool holds exactly such nodes |
| DialModel.ChecksInOrder | internal/p2p/dial.go:261-278 | checkDial reports the first thing that is wrong |
| DialModel.DoneKeeps | internal/p2p/dial.go:175-179 | after a finished task the node is not being dialed, and the pool is again exactly the static nodes that may be dialed |
| DialModel.PeerAddedKeeps | internal/p2p/dial.go:181-190 | likewise after a peer is added, and counted if dialed |
| DialModel.PeerRemovedKeeps | internal/p2p/dial.go:192-197 | likewise after a peer is removed, and uncounted if dialed |
| DialModel.AddStaticKeeps | internal/p2p/dial.go:199-209 | likewise after a static node is added, which leaves a known one as it was |
| DialModel.RemoveStaticKeeps | internal/p2p/dial.go:211-219 | likewise after a static node has left the map |
| DialModel.AllExpiredKeeps | internal/p2p/dial.go:245-251 | likewise after exactly the expired entries have left the history, in any order |
| DialModel.StartKeeps | internal/p2p/dial.go:315-324 | likewise after a dial starts, which was allowed, takes one slot, is remembered until its expiry, and leaves the pool |
| Network.MaxDialedConns | internal/p2p/p2p.go:465-478 | zero exactly if dialing is off or no peers are allowed, and else, for settings that are not negative, the largest share of MaxPeers the ratio allows, at least 1 |
| Network.StepKeeps | internal/p2p/p2p.go:556-613 | every event of the server, the scheduler, a connection or a dial task keeps the joint invariant |
| Network.AdmitKeeps | internal/p2p/p2p.go:584-600 | admitting a peer that passed the checks keeps counts and limits |
| Network.DialedPeersBounded | internal/p2p/dial.go:253-259 | in every run the dialed peers exceed their limit by no more than the limit itself and no more than half the active dials |
| Network.StartBudget | internal/p2p/dial.go:253-259 | a free slot leaves room for one more dialed peer even if every running dial becomes one |
| Network.PeerLimitsHold | internal/p2p/p2p.go:540-650 | in every run the inbound counter is right, self is no peer, the peers admitted untrusted keep to MaxPeers and the inbound ones to MaxPeers less the dialed limit, and the scheduler's peers are the server's after each report |
| Network.FirstCheckpointPasses | internal/p2p/p2p.go:578-582 | a connection passes exactly if it is no peer, not the node itself, and within the limits or trusted by then |
| Network.AddPeerAdmits | internal/p2p/p2p.go:584-650 | it becomes a peer exactly if it still passes and, where the server has protocols, shares one; otherwise it is closed and nothing else changes |
| Network.TrustReaches | internal/p2p/p2p.go:562-576 | a change of trust reaches the peer of that ID alone, and the set for later connections |
| Network.StagesMove | internal/p2p/p2p.go:578-613 | a connection never changes its node or side, and moves only by its checkpoints, a failure or a drop |
| Network.NothingIsStuck | internal/p2p/p2p.go:556-613 | in every run a pending report can be taken or a dial started first, every connection can be dealt with, and every running dial can end |
| Network.DialsAreAllowed | internal/p2p/dial.go:261-288 | in every run each started dial is of a static node with a port that is not self, not being dialed, no peer and not dialed recently, and the dials stay within maxActiveDials |
| Network.PoolHoldsExactly | internal/p2p/dial.go:261-295 | in every run the pool holds exactly such nodes |
| NetworkOverrun.DialLimitOverrun | internal/p2p/dial.go:253-259 | in every configuration a run reaches that bound, and without trusting a node if MaxPeers leaves room |
| NetworkOverrun.DialLimitKept | internal/p2p/dial.go:253-259 | no run exceeds the limit on dialed peers if and only if the limit is not positive, or MaxPendingPeers is 1 or negative |
| NetworkOverrun.DefaultLimits | internal/p2p/p2p.go:461-478 | with 100 peers and the defaults 33 may be dialed, 67 be inbound, and at most 58 are dialed |

## Left out

- A ledger without a database (`Storage` nil), which skips every store operation.
- Signatures, Keccak-256 and JSON themselves, LevelDB and its errors, logging, floating-point display.
- `PubkeyToAddress` panics on a key of fewer than 14 bytes; keys here have at least 14. A null transfer or block pointer is not modelled.
- Blocks and transfers are values: a caller that keeps a pointer to an appended block and changes it later is not modelled.
- LedgerTheorems.NextKeeps: does not cover a miner named SYSTEM_GENESIS, for whom balances and replay differ exactly as `LedgerTheorems.FinishAgreement` says, nor the balances under a reorganisation while a mining run is in flight; for the chain and the store `LedgerTheorems.AnyNextStored` covers that.
- LedgerTheorems.RunKeeps: has the same limits, and one mining run at a time; what survives a reorganisation in flight is in `LedgerTheorems.AnyRunStored`.
- `LoadFromDisk` would run its index past 2^64 - 1 if a store held every 64-bit height; the model's loop stops there.
- The account nonces: they are modelled and specified, but `AddToMempool` overwrites them, so only balances are compared between a run and a replay.
- The injectivity of `AssembleBlockData`: its fields are joined without separators, so it does not hold; only changes of the nonce alone or the reward alone are shown to change the bytes.
- The nonce search after its counter wraps at 2^64, and whether it ever ends.
- `internal/reorg.go` only prints; `network.go`, `seeds.go`, `addrman.go`, `sync.go`, the RPC server, the command line, the daemon (but for its replacement of the mempool), wallets and settings are input, output and configuration.
- `internal/p2p/server.go` is a second copy of the run loop; `internal/p2p/types.go` holds stubs. The order of capabilities, by name and then version, and the history, a map from node to expiry that forgets what expired before now, stand for code that is not part of this model.
- The handshakes of a connection are one event each. A resolver is assumed to keep the node's ID. The history timer is never set again by the loop, so nothing is claimed about when an entry expires.
- The server's settings are unbounded integers; sums near the ends of Go's `int` are not modelled.
- The shutdown of the server loop: the runs are those before `quit`.
- `inboundHistory` and the slots of `listenLoop`, which only delay or refuse connections before they reach the modelled checkpoints.
- A peer's own disconnect requests, payloads and timing: `PeerLoop` keeps of a message where it waits, and that an error or a result is pending. What a protocol does is its own: it may call WriteMsg, take a message, and return at any time.

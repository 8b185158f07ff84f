/** node/ledger.go as a state machine over values. Each operation is a function of the state before it (a
    relation where sorting leaves a choice); module LedgerNode proves the imperative methods against them. */
module LedgerModel {
  import opened Machine
  import opened Text
  import opened Consensus
  import opened Transfers
  import opened Blocks
  import opened Storage
  import opened Accounts
  import opened Conservation

  const GENESIS_TIMESTAMP: i64 := 1_770_249_600
  const GENESIS_NBITS: u32 := 504_365_040
  const PSZ_TIMESTAMP := "IND Today 05/Aug/2026 AldianOkto, While banks keep printing Debt, We build an honest Exit"

  /** The local variables that MineBlock carries from its first locked phase to its second. */
  datatype MiningRun = MiningRun(parent: LedgerBlock, transfers: seq<Transfer>, feeTotal: u64)

  datatype Ledger = Ledger(
    chain: seq<LedgerBlock>, accounts: AccountMap, mempool: seq<Transfer>, store: Store,
    mining: Option<MiningRun>, target: u32, bits: u32, miner: string)

  // ---- Genesis ----

  function GenesisCandidate(target: u32): LedgerBlock {
    LedgerBlock(0, GENESIS_TIMESTAMP, seq(64, _ => '\0'), "", [], SYSTEM_GENESIS, 0, target, GENESIS_NBITS,
                CalculateBlockReward(0), MAX_SUPPLY, HALVING_INTERVAL, PSZ_TIMESTAMP)
  }

  /** The candidate as Mine leaves it, with the nonce and hash found and the reward put back. */
  function Sealed(env: Env, candidate: LedgerBlock, bits: u32, nonce: u64): LedgerBlock {
    var p := Prepared(candidate, bits);
    p.(nonce := nonce, hash := env.keccak(AssembleBlockData(p, nonce)), reward := candidate.reward)
  }

  function Spawned(env: Env, l: Ledger, nonce: u64): Ledger {
    var genesis := Sealed(env, GenesisCandidate(l.target), l.bits, nonce);
    l.(chain := l.chain + [genesis], store := Saved(l.store, 0, env.encodeBlock(genesis)))
  }

  // ---- Mempool ----

  ghost predicate SortedByFee(txs: seq<Transfer>) {
    forall i, j :: 0 <= i < j < |txs| ==> txs[i].fee >= txs[j].fee
  }

  /** AddToMempool overwrites the sender's nonce, creating the account if it is missing. */
  function Noted(m: AccountMap, tx: Transfer): AccountMap {
    m[Sender(tx) := Account(BalanceOf(m, Sender(tx)), tx.nonce)]
  }

  predicate Admissible(env: Env, tx: Transfer) { HasPrefix(tx.recipient, ADDRESS_PREFIX) && env.verifies(tx) }

  ghost predicate Submitted(env: Env, l: Ledger, tx: Transfer, l': Ledger) {
    if Admissible(env, tx) then
      && l' == l.(accounts := Noted(l.accounts, tx), mempool := l'.mempool)
      && SortedByFee(l'.mempool)
      && multiset(l'.mempool) == multiset(l.mempool) + multiset{tx}
    else l' == l
  }

  // ---- MineBlock ----

  predicate MayMine(miner: string) { miner == SYSTEM_GENESIS || HasPrefix(miner, ADDRESS_PREFIX) }

  function Begun(env: Env, l: Ledger): Ledger
    requires l.chain != []
  {
    var s := Select(env, l.accounts, l.mempool);
    l.(accounts := s.accounts, mempool := Trimmed(env, l.accounts, l.mempool),
       mining := Some(MiningRun(l.chain[|l.chain| - 1], s.picked, FeeTotal(s.picked))))
  }

  function BlockTime(parent: LedgerBlock, now: i64): i64 {
    if now <= parent.timestamp then WrapInt64(parent.timestamp + 1) else now
  }

  function NextDifficulty(parent: LedgerBlock, time: i64): u32 {
    Wrap32(CalculateNextDifficulty(parent.timestamp, time, parent.difficulty))
  }

  function Candidate(l: Ledger, run: MiningRun, now: i64): LedgerBlock {
    var index := Add64(run.parent.index, 1);
    var time := BlockTime(run.parent, now);
    LedgerBlock(index, time, run.parent.hash, "", run.transfers, l.miner, 0, NextDifficulty(run.parent, time), l.bits,
                AllowedReward(index, CirculatingSupply(l.chain)), MAX_SUPPLY, HALVING_INTERVAL, "")
  }

  function MinedBlock(env: Env, l: Ledger, now: i64, nonce: u64): LedgerBlock
    requires l.mining.Some?
  {
    Sealed(env, Candidate(l, l.mining.value, now), l.bits, nonce)
  }

  /** The nonce is one that Mine can return. */
  ghost predicate NonceFound(env: Env, l: Ledger, now: i64, nonce: u64)
    requires l.mining.Some?
  {
    var c := Candidate(l, l.mining.value, now);
    MineFinds(env, c, l.bits, c.difficulty, nonce)
  }

  predicate PassesValidation(env: Env, l: Ledger, now: i64, nonce: u64)
    requires l.mining.Some?
  {
    var b := MinedBlock(env, l, now, nonce);
    ValidateBlockConsensus(env, b, Some(l.mining.value.parent), CirculatingSupply(l.chain)) == Valid
  }

  function Rewarded(m: AccountMap, miner: string, total: u64): AccountMap {
    if total > 0 then Pay(m, miner, total) else m
  }

  function Finished(env: Env, l: Ledger, now: i64, nonce: u64): Ledger
    requires l.mining.Some?
  {
    var b := MinedBlock(env, l, now, nonce);
    l.(chain := l.chain + [b],
       accounts := Rewarded(l.accounts, l.miner, Add64(b.reward, l.mining.value.feeTotal)),
       store := Saved(l.store, b.index, env.encodeBlock(b)),
       mining := None, target := b.difficulty)
  }

  // ---- Reorganisation: AppendBlockDirectly and RollbackBlock ----

  function LatestBlock(chain: seq<LedgerBlock>): Option<LedgerBlock> {
    if chain == [] then None else Some(chain[|chain| - 1])
  }

  predicate AppendAccepted(env: Env, l: Ledger, b: LedgerBlock) {
    var parent := LatestBlock(l.chain);
    && (parent.Some? ==> b.prevHash == parent.value.hash)
    && ValidateBlockConsensus(env, b, parent, CirculatingSupply(l.chain)) == Valid
  }

  function Appended(env: Env, l: Ledger, b: LedgerBlock): Ledger {
    if AppendAccepted(env, l, b) then
      l.(chain := l.chain + [b], store := Saved(l.store, b.index, env.encodeBlock(b)),
         accounts := ApplyBlock(l.accounts, b))
    else l
  }

  /** Each transfer of the tip is put in front of the pool in turn. */
  function Returned(txs: seq<Transfer>, pool: seq<Transfer>): seq<Transfer> {
    if txs == [] then pool else [txs[|txs| - 1]] + Returned(txs[..|txs| - 1], pool)
  }

  function RolledBack(l: Ledger): Ledger {
    if |l.chain| <= 1 then l
    else
      var tip, rest := l.chain[|l.chain| - 1], l.chain[..|l.chain| - 1];
      l.(chain := rest, mempool := Returned(tip.transfers, l.mempool), store := Deleted(l.store, tip.index),
         accounts := Replay(rest))
  }

  // ---- Start-up: InitializeLedger and LoadFromDisk ----

  predicate MatchesConfig(b: LedgerBlock) {
    && b.message == PSZ_TIMESTAMP && b.timestamp == GENESIS_TIMESTAMP && b.bits == GENESIS_NBITS
    && b.reward == BLOCK_REWARD && b.maxSupply == MAX_SUPPLY && b.halvingInterval == HALVING_INTERVAL
  }

  datatype LoadOutcome = NoChain | Loaded | Respawned | Halted

  function StoredBlocks(env: Env, kv: Store): seq<LedgerBlock> {
    match LastIndex(kv)
    case None => []
    case Some(last) => LoadBlocks(env, kv, 0, last)
  }

  predicate IntegrityHolds(chain: seq<LedgerBlock>) {
    chain == [] || (VerifyCheckpoint(0, chain[0].hash) && CirculatingSupply(chain) <= MAX_SUPPLY)
  }

  function LoadVerdict(env: Env, l: Ledger): LoadOutcome {
    var chain := l.chain + StoredBlocks(env, l.store);
    if LastIndex(l.store).None? || chain == [] then NoChain
    else if !MatchesConfig(chain[0]) then Respawned
    else if IntegrityHolds(chain) then Loaded
    else Halted
  }

  function AfterLoad(env: Env, l: Ledger, nonce: u64): Ledger {
    match LoadVerdict(env, l)
    case NoChain => l
    case Respawned => Spawned(env, l.(chain := [], accounts := map[], store := map[]), nonce)
    case _ =>
      l.(chain := l.chain + StoredBlocks(env, l.store), accounts := ApplyChain(l.accounts, StoredBlocks(env, l.store)))
  }

  function Unloaded(store: Store, target: u32, miner: string): Ledger {
    Ledger([], map[], [], store, None, target, GENESIS_BITS, miner)
  }

  function Initialized(env: Env, store: Store, target: u32, miner: string, nonce: u64): Ledger {
    var l := Unloaded(store, target, miner);
    if LoadVerdict(env, l) == NoChain then Spawned(env, l, nonce) else AfterLoad(env, l, nonce)
  }

  // ---- Runs ----

  datatype Action =
    | Submit(tx: Transfer)                       // AddToMempool
    | ReplaceMempool(txs: seq<Transfer>)         // the daemon loads its mempool file
    | BeginMining                                // MineBlock, up to its first Unlock
    | FinishMining(now: i64, nonce: u64)         // the rest of MineBlock
    | Append(block: LedgerBlock)                 // AppendBlockDirectly
    | Rollback                                   // RollbackBlock
    | Restart(target: u32, miner: string, nonce: u64)

  /** One step. While a mining run is in flight only the mempool may change, or the process may restart. */
  ghost predicate Next(env: Env, l: Ledger, a: Action, l': Ledger) {
    (a.Append? || a.Rollback? ==> l.mining.None?) && AnyNext(env, l, a, l')
  }

  /** One step, where a reorganisation may also come while a mining run is in flight. */
  ghost predicate AnyNext(env: Env, l: Ledger, a: Action, l': Ledger) {
    match a
    case Submit(tx) => Submitted(env, l, tx, l')
    case ReplaceMempool(txs) => l' == l.(mempool := txs)
    case BeginMining => l.mining.None? && l.chain != [] && MayMine(l.miner) && l' == Begun(env, l)
    case FinishMining(now, nonce) =>
      l.mining.Some? && NonceFound(env, l, now, nonce) && PassesValidation(env, l, now, nonce)
      && l' == Finished(env, l, now, nonce)
    case Append(b) => l' == Appended(env, l, b)
    case Rollback => l' == RolledBack(l)
    case Restart(target, miner, nonce) => Started(env, l.store, target, miner, nonce, l')
  }

  /** InitializeLedger returns, with a nonce that mining the genesis block can find. */
  ghost predicate Started(env: Env, store: Store, target: u32, miner: string, nonce: u64, l: Ledger) {
    && LoadVerdict(env, Unloaded(store, target, miner)) != Halted
    && miner != SYSTEM_GENESIS
    && MineFinds(env, GenesisCandidate(target), GENESIS_BITS, target, nonce)
    && l == Initialized(env, store, target, miner, nonce)
  }
}

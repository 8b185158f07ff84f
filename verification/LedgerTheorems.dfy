/** What every run of the ledger keeps, and what single operations promise. */
module LedgerTheorems {
  import opened Machine
  import opened Text
  import opened Consensus
  import opened Transfers
  import opened Blocks
  import opened Storage
  import opened Accounts
  import opened Conservation
  import opened LedgerModel

  // ---- Valid chains ----

  ghost predicate IsGenesis(env: Env, b: LedgerBlock) {
    && b.index == 0 && b.transfers == [] && b.miner == SYSTEM_GENESIS
    && MatchesConfig(b) && SelfHashed(env, b) && MeetsTarget(b.hash, b.difficulty)
  }

  ghost predicate ValidChain(env: Env, chain: seq<LedgerBlock>) {
    && 1 <= |chain|
    && var rest, tip := chain[..|chain| - 1], chain[|chain| - 1];
       if rest == [] then IsGenesis(env, tip)
       else ValidChain(env, rest)
            && ValidateBlockConsensus(env, tip, LatestBlock(rest), CirculatingSupply(rest)) == Valid
  }

  lemma RewardOfGenesis()
    ensures CalculateBlockReward(0) == BLOCK_REWARD
  {
    EraRewardValues();
  }

  /** Timestamps rise from the genesis timestamp, so int64 bounds the length of a valid chain. */
  lemma {:induction false} ChainLength(env: Env, chain: seq<LedgerBlock>)
    requires ValidChain(env, chain)
    ensures chain[|chain| - 1].timestamp >= GENESIS_TIMESTAMP + |chain| - 1
    ensures |chain| <= TWO63 - GENESIS_TIMESTAMP
  {
    hide MeetsTarget, AllowedReward, SelfHashed;
    if |chain| > 1 {
      ChainLength(env, chain[..|chain| - 1]);
    }
  }

  /** A valid chain pays exactly the schedule, so its supply is the scheduled emission, below MaxSupply. */
  lemma {:induction false} ChainFollowsSchedule(env: Env, chain: seq<LedgerBlock>)
    requires ValidChain(env, chain)
    ensures chain[|chain| - 1].index == |chain| - 1 < TWO64
    ensures chain[|chain| - 1].reward == CalculateBlockReward(|chain| - 1)
    ensures CirculatingSupply(chain) == RewardSum(chain) == EmittedBefore(|chain|) <= TOTAL_EMISSION < MAX_SUPPLY
  {
    hide MeetsTarget, AllowedReward, EraReward;
    ChainLength(env, chain);
    var rest := chain[..|chain| - 1];
    EmissionBound(|chain|);
    AllowedIsScheduled(|rest|);
    if rest == [] {
      RewardOfGenesis();
      assert CirculatingSupply(rest) == 0 && RewardSum(rest) == 0;
    } else {
      ChainFollowsSchedule(env, rest);
    }
  }

  /** A block after genesis names a permitted miner, carries the monetary policy, and fits the size limit. */
  ghost predicate MeetsPolicy(env: Env, b: LedgerBlock) {
    && (b.index > 0 ==> MayMine(b.miner))
    && b.maxSupply in {0, MAX_SUPPLY} && b.halvingInterval in {0, HALVING_INTERVAL}
    && |env.encodeBlock(b)| <= MAX_BLOCK_SIZE_BYTES
  }

  lemma TipFacts(env: Env, chain: seq<LedgerBlock>)
    requires ValidChain(env, chain)
    ensures MeetsTarget(chain[|chain| - 1].hash, chain[|chain| - 1].difficulty)
    ensures |chain| > 1 ==> chain[|chain| - 1].prevHash == chain[|chain| - 2].hash
    ensures |chain| > 1 ==> chain[|chain| - 1].timestamp > chain[|chain| - 2].timestamp
    ensures |chain| == 1 ==> IsGenesis(env, chain[0])
    ensures |chain| > 1 ==> MeetsPolicy(env, chain[|chain| - 1])
  {
    hide MeetsTarget, AllowedReward, MatchesConfig, SelfHashed;
  }

  /** In every valid chain: index equals position, each hash meets its difficulty, rewards follow the
      schedule, each block links to the one before it, at a strictly later time, and keeps to the policy. */
  lemma {:induction false} ChainFacts(env: Env, chain: seq<LedgerBlock>, i: nat)
    requires ValidChain(env, chain) && i < |chain|
    ensures chain[i].index == i && chain[i].reward == CalculateBlockReward(i)
    ensures MeetsTarget(chain[i].hash, chain[i].difficulty)
    ensures i > 0 ==> chain[i].prevHash == chain[i - 1].hash && chain[i].timestamp > chain[i - 1].timestamp
    ensures i == 0 ==> IsGenesis(env, chain[i])
    ensures i > 0 ==> MeetsPolicy(env, chain[i])
    ensures ValidChain(env, chain[..i + 1])
  {
    hide ValidateBlockConsensus, MeetsTarget, EraReward, IsGenesis, MeetsPolicy;
    if i == |chain| - 1 {
      ChainFollowsSchedule(env, chain);
      TipFacts(env, chain);
      assert chain[..i + 1] == chain;
    } else {
      ChainFacts(env, chain[..|chain| - 1], i);
      assert chain[..|chain| - 1][..i + 1] == chain[..i + 1];
    }
  }

  lemma {:induction false} TimestampsIncrease(env: Env, chain: seq<LedgerBlock>, i: nat, j: nat)
    requires ValidChain(env, chain) && i < j < |chain|
    ensures chain[i].timestamp < chain[j].timestamp
  {
    hide ValidChain;
    ChainFacts(env, chain, j);
    if i < j - 1 {
      TimestampsIncrease(env, chain, i, j - 1);
    }
  }

  // ---- The invariant of every run ----

  /** The transfers whose effect is already in the accounts but not yet in a block. */
  function InFlight(l: Ledger): seq<Transfer> {
    match l.mining
    case Some(run) => run.transfers
    case None => []
  }

  /** The balances are those of replaying the chain from nothing; while a mining run is in flight, with its
      transfers applied on top and its reward and fees still uncredited. */
  ghost predicate BalancesAgree(l: Ledger) {
    SameBalances(l.accounts, ApplyTransfers(Replay(l.chain), InFlight(l)))
  }

  ghost predicate RunMatches(env: Env, l: Ledger) {
    l.mining.Some? ==>
      && MayMine(l.miner) && l.chain != [] && l.mining.value.parent == l.chain[|l.chain| - 1]
      && l.mining.value.feeTotal == FeeTotal(l.mining.value.transfers)
      && AllAffordable(Replay(l.chain), l.mining.value.transfers)
      && BLOCK_OVERHEAD_BYTES + EncodedSum(env, l.mining.value.transfers) <= MAX_BLOCK_SIZE_BYTES
  }

  /** All that does not depend on who mines. */
  ghost predicate Consistent(env: Env, l: Ledger) {
    && ValidChain(env, l.chain)
    && Mirrors(env, l.store, l.chain)
    && RunMatches(env, l)
    && BalancesAgree(l)
    && l.bits == GENESIS_BITS
  }

  ghost predicate Inv(env: Env, l: Ledger) { Consistent(env, l) && l.miner != SYSTEM_GENESIS }

  // ---- Start-up ----

  lemma SealedGenesis(env: Env, target: u32, nonce: u64)
    requires MineFinds(env, GenesisCandidate(target), GENESIS_BITS, target, nonce)
    ensures IsGenesis(env, Sealed(env, GenesisCandidate(target), GENESIS_BITS, nonce))
  {
    hide MeetsTarget, AssembleBlockData, EraReward;
    var g := GenesisCandidate(target);
    RewardOfGenesis();
    assert Prepared(g, GENESIS_BITS) == g;
    AssembleIgnoresSeal(g, nonce, env.keccak(AssembleBlockData(g, nonce)), nonce);
  }

  /** The genesis block has no parent, no transfers and the target asked for, pays nobody, and carries the policy. */
  lemma GenesisFields(env: Env, target: u32, nonce: u64)
    ensures var g := Sealed(env, GenesisCandidate(target), GENESIS_BITS, nonce);
            && g.index == 0 && |g.prevHash| == 64 && (forall i :: 0 <= i < 64 ==> g.prevHash[i] == '\0')
            && g.transfers == [] && g.miner == "SYSTEM_GENESIS" && g.difficulty == target && g.nonce == nonce
            && MatchesConfig(g)
  {
    RewardOfGenesis();
    hide AssembleBlockData, EraReward, CalculateBlockReward;
  }

  lemma GenesisChain(env: Env, genesis: LedgerBlock)
    requires IsGenesis(env, genesis)
    ensures ValidChain(env, [genesis]) && Replay([genesis]) == map[]
  {
    hide MatchesConfig, MeetsTarget, SelfHashed, ValidateBlockConsensus;
    assert [genesis][..0] == [];
    assert Replay([genesis]) == ApplyBlock(Replay([]), genesis);
  }

  /** Spawning a genesis block on an empty store gives a consistent ledger: on a first start, and in the
      wipe-and-respawn branch, whatever the store held before. */
  lemma SpawnConsistent(env: Env, l: Ledger, nonce: u64)
    requires JsonRoundTrips(env)
    requires l.chain == [] && l.accounts == map[] && l.store == map[] && l.mining == None
    requires l.bits == GENESIS_BITS
    requires MineFinds(env, GenesisCandidate(l.target), GENESIS_BITS, l.target, nonce)
    ensures Consistent(env, Spawned(env, l, nonce))
  {
    hide Sealed, IsGenesis, ValidChain, Mirrors, Replay, MineFinds, GenesisCandidate, Saved;
    var genesis := Sealed(env, GenesisCandidate(l.target), l.bits, nonce);
    SealedGenesis(env, l.target, nonce);
    GenesisChain(env, genesis);
    SaveMirrors(env, map[], [], genesis);
    assert l.chain + [genesis] == [genesis] == [] + [genesis];
  }

  /** A fresh start on a store that mirrors a valid chain rebuilds that very chain and its balances exactly
      when the genesis hash is the hard-coded checkpoint; otherwise the node halts. */
  lemma ReloadRebuilds(env: Env, store: Store, chain: seq<LedgerBlock>, target: u32, miner: string, nonce: u64)
    requires ValidChain(env, chain) && Mirrors(env, store, chain)
    ensures LoadVerdict(env, Unloaded(store, target, miner))
         == if HexEncode(chain[0].hash) == EXPECTED_GENESIS_HASH then Loaded else Halted
    ensures AfterLoad(env, Unloaded(store, target, miner), nonce)
         == Unloaded(store, target, miner).(chain := chain, accounts := Replay(chain))
  {
    hide MatchesConfig, MeetsTarget, SelfHashed, ValidateBlockConsensus, HexEncode, EmittedBefore, ApplyChain;
    hide LoadBlocks, LastIndex, Mirrors, ValidChain, CirculatingSupply;
    LoadsTheMirroredChain(env, store, chain, 0);
    assert chain[0..] == chain && [] + chain == chain;
    ChainFacts(env, chain, 0);
    ChainFollowsSchedule(env, chain);
  }

  // ---- The steps ----

  lemma NoTransfers(m: AccountMap)
    ensures ApplyTransfers(m, []) == m
  {
  }

  lemma ReplayOneMore(chain: seq<LedgerBlock>, b: LedgerBlock)
    ensures Replay(chain + [b]) == ApplyBlock(Replay(chain), b)
    ensures CirculatingSupply(chain + [b]) == Add64(CirculatingSupply(chain), b.reward)
  {
    assert (chain + [b])[..|chain + [b]| - 1] == chain;
  }

  lemma SubmitKeeps(env: Env, l: Ledger, tx: Transfer, l': Ledger)
    requires Consistent(env, l) && Submitted(env, l, tx, l')
    ensures Consistent(env, l') && l'.miner == l.miner
  {
    hide ValidChain, Mirrors, Admissible, ApplyTransfers, Replay;
    forall a ensures BalanceOf(Noted(l.accounts, tx), a) == BalanceOf(l.accounts, a) {}
  }

  lemma BeginKeeps(env: Env, l: Ledger)
    requires Consistent(env, l) && l.mining.None? && MayMine(l.miner)
    ensures Consistent(env, Begun(env, l)) && Begun(env, l).miner == l.miner
  {
    assert l.chain != [];
    hide ValidChain, Mirrors, Select, Trimmed, ApplyTransfers, Replay, FeeTotal, AllAffordable, MayMine;
    var m, s := Replay(l.chain), Select(env, l.accounts, l.mempool);
    NoTransfers(m);
    SelectReplaysPicked(env, l.accounts, l.mempool);
    SelectPicksAffordable(env, l.accounts, l.mempool);
    SelectCountsBytes(env, l.accounts, l.mempool);
    ApplyTransfersSame(l.accounts, m, s.picked);
    AllAffordableSame(l.accounts, m, s.picked);
  }

  lemma MinedFields(env: Env, l: Ledger, now: i64, nonce: u64)
    requires l.mining.Some?
    ensures var b, run := MinedBlock(env, l, now, nonce), l.mining.value;
            && b.transfers == run.transfers && b.miner == l.miner && b.prevHash == run.parent.hash
            && b.index == Add64(run.parent.index, 1) && b.reward == AllowedReward(b.index, CirculatingSupply(l.chain))
            && b.timestamp == BlockTime(run.parent, now) && b.difficulty == NextDifficulty(run.parent, b.timestamp)
            && b.maxSupply == MAX_SUPPLY && b.halvingInterval == HALVING_INTERVAL && b.nonce == nonce && b.message == ""
            && b.bits == l.bits
  {
    hide AllowedReward, NextDifficulty, BlockTime, AssembleBlockData, CalculateBlockReward;
  }

  /** Appending the mined block credits the miner; replaying it does so only for a miner other than
      SYSTEM_GENESIS. The two agree exactly then, or when there is nothing to credit. */
  lemma FinishAgreement(env: Env, l: Ledger, now: i64, nonce: u64)
    requires Consistent(env, l) && l.mining.Some?
    ensures var b := MinedBlock(env, l, now, nonce);
            BalancesAgree(Finished(env, l, now, nonce))
            <==> l.miner != SYSTEM_GENESIS || MinerCredit(b.reward, b.transfers) == 0
  {
    hide ValidChain, Mirrors, MinedBlock, ApplyTransfers, Replay, FeeTotal, AllAffordable;
    var b := MinedBlock(env, l, now, nonce);
    var m, amount := ApplyTransfers(Replay(l.chain), b.transfers), MinerCredit(b.reward, b.transfers);
    MinedFields(env, l, now, nonce);
    ReplayOneMore(l.chain, b);
    NoTransfers(Replay(l.chain + [b]));
    PayIsCredit(l.accounts, l.miner, amount);
    CreditSame(l.accounts, m, l.miner, amount);
    if amount > 0 && l.miner == SYSTEM_GENESIS {
      assert BalanceOf(PayMiner(l.accounts, l.miner, amount), l.miner) != BalanceOf(m, l.miner);
    }
  }

  lemma ExtendChain(env: Env, chain: seq<LedgerBlock>, store: Store, b: LedgerBlock)
    requires JsonRoundTrips(env)
    requires ValidChain(env, chain) && Mirrors(env, store, chain)
    requires ValidateBlockConsensus(env, b, LatestBlock(chain), CirculatingSupply(chain)) == Valid
    ensures b.index == |chain|
    ensures ValidChain(env, chain + [b]) && Mirrors(env, Saved(store, b.index, env.encodeBlock(b)), chain + [b])
  {
    ChainLength(env, chain);
    hide Mirrors, MeetsTarget, AllowedReward, IsGenesis, Saved, CirculatingSupply, JsonRoundTrips;
    ChainFollowsSchedule(env, chain);
    SaveMirrors(env, store, chain, b);
    assert (chain + [b])[..|chain + [b]| - 1] == chain;
  }

  lemma FinishKeeps(env: Env, l: Ledger, now: i64, nonce: u64)
    requires JsonRoundTrips(env) && Inv(env, l) && l.mining.Some?
    requires PassesValidation(env, l, now, nonce)
    ensures Inv(env, Finished(env, l, now, nonce))
  {
    hide ValidChain, Mirrors, MinedBlock, BalancesAgree, ValidateBlockConsensus, JsonRoundTrips, Saved, FeeTotal;
    hide AllAffordable;
    FinishAgreement(env, l, now, nonce);
    ExtendChain(env, l.chain, l.store, MinedBlock(env, l, now, nonce));
  }

  lemma AppendKeeps(env: Env, l: Ledger, b: LedgerBlock)
    requires JsonRoundTrips(env) && Consistent(env, l) && l.mining.None?
    ensures Consistent(env, Appended(env, l, b)) && Appended(env, l, b).miner == l.miner
  {
    hide ValidChain, Mirrors, ValidateBlockConsensus, JsonRoundTrips, Saved, ApplyTransfers, Replay, ApplyBlock;
    if AppendAccepted(env, l, b) {
      ExtendChain(env, l.chain, l.store, b);
      ReplayOneMore(l.chain, b);
      NoTransfers(Replay(l.chain));
      NoTransfers(Replay(l.chain + [b]));
      ApplyBlockSame(l.accounts, Replay(l.chain), b);
    }
  }

  lemma ShortenChain(env: Env, chain: seq<LedgerBlock>, store: Store)
    requires ValidChain(env, chain) && Mirrors(env, store, chain) && |chain| > 1
    ensures chain[|chain| - 1].index == |chain| - 1
    ensures ValidChain(env, chain[..|chain| - 1]) && Mirrors(env, Deleted(store, |chain| - 1), chain[..|chain| - 1])
  {
    hide Mirrors, ValidateBlockConsensus, IsGenesis, Deleted;
    ChainFollowsSchedule(env, chain);
    DeleteMirrors(env, store, chain);
  }

  lemma RollbackKeeps(env: Env, l: Ledger)
    requires Consistent(env, l) && l.mining.None?
    ensures Consistent(env, RolledBack(l)) && RolledBack(l).miner == l.miner
  {
    hide ValidChain, Mirrors, Deleted, Replay, ApplyTransfers, Returned;
    if |l.chain| > 1 {
      ShortenChain(env, l.chain, l.store);
      NoTransfers(Replay(l.chain[..|l.chain| - 1]));
    }
  }

  /** Starting on a store that mirrors a valid chain. */
  lemma StartOnMirror(env: Env, store: Store, chain: seq<LedgerBlock>, target: u32, miner: string, nonce: u64)
    requires ValidChain(env, chain) && Mirrors(env, store, chain)
    requires LoadVerdict(env, Unloaded(store, target, miner)) != Halted
    ensures var l := Initialized(env, store, target, miner, nonce);
            && Consistent(env, l) && l.miner == miner && l.chain == chain && l.store == store
            && l.accounts == Replay(chain) && l.mining == None && l.mempool == []
  {
    hide ValidChain, Mirrors, Replay, ApplyTransfers, LoadVerdict, AfterLoad;
    ReloadRebuilds(env, store, chain, target, miner, nonce);
    NoTransfers(Replay(chain));
  }

  lemma RestartKeeps(env: Env, l: Ledger, target: u32, miner: string, nonce: u64)
    requires Consistent(env, l)
    requires LoadVerdict(env, Unloaded(l.store, target, miner)) != Halted
    ensures var l' := Initialized(env, l.store, target, miner, nonce);
            && Consistent(env, l') && l'.miner == miner && l'.chain == l.chain && l'.store == l.store
            && l'.accounts == Replay(l.chain)
  {
    hide ValidChain, Mirrors, LoadVerdict, Initialized, RunMatches, BalancesAgree;
    StartOnMirror(env, l.store, l.chain, target, miner, nonce);
  }

  /** Every step keeps the invariant. */
  lemma NextKeeps(env: Env, l: Ledger, a: Action, l': Ledger)
    requires JsonRoundTrips(env) && Inv(env, l) && Next(env, l, a, l')
    ensures Inv(env, l')
  {
    hide Consistent, JsonRoundTrips, LoadVerdict, MineFinds, NonceFound, PassesValidation;
    hide Submitted, Begun, Finished, Appended, RolledBack, Initialized, MayMine;
    match a
    case Submit(tx) => SubmitKeeps(env, l, tx, l');
    case ReplaceMempool(txs) => MempoolIsFree(env, l, txs);
    case BeginMining => BeginKeeps(env, l);
    case FinishMining(now, nonce) => FinishKeeps(env, l, now, nonce);
    case Append(b) => AppendKeeps(env, l, b);
    case Rollback => RollbackKeeps(env, l);
    case Restart(target, miner, nonce) => RestartKeeps(env, l, target, miner, nonce);
  }

  lemma MempoolIsFree(env: Env, l: Ledger, txs: seq<Transfer>)
    requires Consistent(env, l)
    ensures Consistent(env, l.(mempool := txs))
  {
    hide ValidChain, Mirrors;
  }

  // ---- Runs ----

  /** What a node is started on: an empty database, one with a foreign genesis block, or one that mirrors a valid
      chain. */
  ghost predicate Startable(env: Env, store: Store) {
    || store == map[]
    || ForeignStore(env, store)
    || exists chain :: ValidChain(env, chain) && Mirrors(env, store, chain)
  }

  predicate ForeignStore(env: Env, store: Store) {
    StoredBlocks(env, store) != [] && !MatchesConfig(StoredBlocks(env, store)[0])
  }

  ghost predicate Initial(env: Env, store: Store, l: Ledger) {
    && Startable(env, store)
    && exists target, nonce :: Started(env, store, target, l.miner, nonce, l)
  }

  lemma InitialHolds(env: Env, store: Store, l: Ledger)
    requires JsonRoundTrips(env) && Initial(env, store, l)
    ensures Inv(env, l)
  {
    var target, nonce :| Started(env, store, target, l.miner, nonce, l);
    hide Consistent, Spawned, MineFinds, JsonRoundTrips, GenesisCandidate, ValidChain, Mirrors;
    if store == map[] {
      SpawnConsistent(env, Unloaded(map[], target, l.miner), nonce);
    } else if ForeignStore(env, store) {
      ForeignRespawns(env, store, target, l.miner);
      RespawnConsistent(env, store, target, l.miner, nonce);
    } else {
      var chain :| ValidChain(env, chain) && Mirrors(env, store, chain);
      hide Initialized, LoadVerdict;
      StartOnMirror(env, store, chain, target, l.miner, nonce);
    }
  }

  lemma ForeignRespawns(env: Env, store: Store, target: u32, miner: string)
    ensures LoadVerdict(env, Unloaded(store, target, miner)) == Respawned <==> ForeignStore(env, store)
  {
    hide LoadBlocks, MatchesConfig, IntegrityHolds, LastIndex;
    assert [] + StoredBlocks(env, store) == StoredBlocks(env, store);
  }

  ghost predicate Run(env: Env, states: seq<Ledger>, actions: seq<Action>) {
    && |states| == |actions| + 1
    && forall i :: 0 <= i < |actions| ==> Next(env, states[i], actions[i], states[i + 1])
  }

  /** In every run from a startable database, every state has a valid chain, a store that mirrors it, and the
      balances of its replay. */
  lemma {:induction false} RunKeeps(env: Env, store: Store, states: seq<Ledger>, actions: seq<Action>, i: nat)
    requires JsonRoundTrips(env) && Run(env, states, actions) && i < |states|
    requires Initial(env, store, states[0])
    ensures Inv(env, states[i])
  {
    hide Initial, Inv, Next, JsonRoundTrips;
    if i == 0 {
      InitialHolds(env, store, states[0]);
    } else {
      RunKeeps(env, store, states, actions, i - 1);
      NextKeeps(env, states[i - 1], actions[i - 1], states[i]);
    }
  }

  /** In every state of every run, a node started afresh on the store rebuilds the same chain, with the balances
      of its replay, exactly when the genesis hash is the hard-coded checkpoint; otherwise it halts. */
  lemma RunReloads(env: Env, store: Store, states: seq<Ledger>, actions: seq<Action>, i: nat, target: u32,
                   miner: string, nonce: u64)
    requires JsonRoundTrips(env) && Run(env, states, actions) && i < |states|
    requires Initial(env, store, states[0])
    ensures states[i].chain != []
    ensures var empty, l := Unloaded(states[i].store, target, miner), states[i];
            && (LoadVerdict(env, empty) == Loaded <==> HexEncode(l.chain[0].hash) == EXPECTED_GENESIS_HASH)
            && (LoadVerdict(env, empty) != Loaded ==> LoadVerdict(env, empty) == Halted)
            && AfterLoad(env, empty, nonce).chain == l.chain
            && (l.mining.None? ==> SameBalances(AfterLoad(env, empty, nonce).accounts, l.accounts))
  {
    RunKeeps(env, store, states, actions, i);
    assert states[i].chain != [];
    hide Run, Initial, LoadVerdict, AfterLoad, ValidChain, Mirrors, HexEncode, Replay, ApplyTransfers;
    ReloadRebuilds(env, states[i].store, states[i].chain, target, miner, nonce);
    NoTransfers(Replay(states[i].chain));
  }

  // ---- What MineBlock promises about its own block ----

  /** MineBlock's own block passes validation exactly when the parent's timestamp is not the last one an
      int64 holds and the block's JSON fits the size limit; every other check holds by construction. */
  lemma OwnBlockPasses(env: Env, l: Ledger, now: i64, nonce: u64)
    requires Consistent(env, l) && l.mining.Some? && NonceFound(env, l, now, nonce)
    ensures PassesValidation(env, l, now, nonce)
       <==> l.mining.value.parent.timestamp < TWO63 - 1
            && |env.encodeBlock(MinedBlock(env, l, now, nonce))| <= MAX_BLOCK_SIZE_BYTES
  {
    hide ValidatePoW, AllowedReward, NextDifficulty, AssembleBlockData, CirculatingSupply, BalancesAgree;
    hide ValidChain, Mirrors;
    hide CalculateBlockReward;
    MinedFields(env, l, now, nonce);
  }

  /** The JSON of a block is that of the block without transfers, with the encoded transfers and the commas between
      them put in. */
  ghost predicate JsonSizes(env: Env) {
    forall b: LedgerBlock ::
      |env.encodeBlock(b)| == Overhead(env, b) + EncodedSum(env, b.transfers)
  }

  function Commas(txs: seq<Transfer>): nat { if txs == [] then 0 else |txs| - 1 }

  /** What MineBlock's allowance has to cover: the block without its transfers, and the commas. */
  function Overhead(env: Env, b: LedgerBlock): nat { |env.encodeBlock(b.(transfers := []))| + Commas(b.transfers) }

  /** So the allowance of 512 bytes is enough when it covers that much, and MineBlock's own block then passes unless
      the parent has the last timestamp. Beyond the allowance it passes exactly if what the picked transfers left
      free still covers it. */
  lemma AllowanceSuffices(env: Env, l: Ledger, now: i64, nonce: u64)
    requires JsonSizes(env) && Consistent(env, l) && l.mining.Some? && NonceFound(env, l, now, nonce)
    ensures var b, parent := MinedBlock(env, l, now, nonce), l.mining.value.parent;
            && (Overhead(env, b) <= BLOCK_OVERHEAD_BYTES && parent.timestamp < TWO63 - 1 ==>
                  PassesValidation(env, l, now, nonce))
            && (PassesValidation(env, l, now, nonce)
                <==> parent.timestamp < TWO63 - 1
                     && Overhead(env, b) + EncodedSum(env, l.mining.value.transfers) <= MAX_BLOCK_SIZE_BYTES)
  {
    OwnBlockPasses(env, l, now, nonce);
    MinedFields(env, l, now, nonce);
    hide MinedBlock, PassesValidation, NonceFound, ValidChain, Mirrors, BalancesAgree, AllAffordable;
  }

  lemma CandidateIsPrepared(env: Env, l: Ledger, now: i64)
    requires Consistent(env, l) && l.mining.Some?
    ensures |l.chain| < TWO64
    ensures var c := Candidate(l, l.mining.value, now);
            Prepared(c, l.bits) == c && c.index == |l.chain| && c.reward == CalculateBlockReward(|l.chain|)
  {
    ChainLength(env, l.chain);
    hide AllowedReward, NextDifficulty, CirculatingSupply, BalancesAgree, ValidChain, Mirrors, BlockTime;
    hide CalculateBlockReward;
    hide EmittedBefore, RewardSum, AllAffordable;
    ChainFollowsSchedule(env, l.chain);
    AllowedIsScheduled(|l.chain|);
  }

  /** The stored hash of a mined block is the hash of the final block with its own nonce, although Mine may
      fill in fields and MineBlock writes the reward again afterwards; the reward is the scheduled one. */
  lemma MinedBlockSelfHashed(env: Env, l: Ledger, now: i64, nonce: u64)
    requires Consistent(env, l) && l.mining.Some?
    ensures SelfHashed(env, MinedBlock(env, l, now, nonce)) && |l.chain| < TWO64
    ensures MinedBlock(env, l, now, nonce).reward == CalculateBlockReward(|l.chain|)
  {
    hide Consistent, AssembleBlockData, Candidate, Prepared, CalculateBlockReward;
    var c := Candidate(l, l.mining.value, now);
    CandidateIsPrepared(env, l, now);
    AssembleIgnoresSeal(c, nonce, env.keccak(AssembleBlockData(c, nonce)), nonce);
  }

  /** A nonce that mining can return makes the block's hash meet the block's own difficulty, which is then the
      engine's target. */
  lemma MinedBlockMeetsTarget(env: Env, l: Ledger, now: i64, nonce: u64)
    requires l.mining.Some? && NonceFound(env, l, now, nonce)
    ensures var b := MinedBlock(env, l, now, nonce);
            MeetsTarget(b.hash, b.difficulty) && Finished(env, l, now, nonce).target == b.difficulty
  {
    hide MeetsTarget, AllowedReward, NextDifficulty, BlockTime, AssembleBlockData, CalculateBlockReward;
    hide CirculatingSupply, Rewarded;
  }

  /** The bytes whose hash a mined block stores begin with the tip's hash and the signatures of its transfers. */
  lemma MinedBlockCommits(env: Env, l: Ledger, now: i64, nonce: u64)
    requires Consistent(env, l) && l.mining.Some?
    ensures l.chain != []
    ensures var b := MinedBlock(env, l, now, nonce);
            && b.hash == env.keccak(AssembleBlockData(b, b.nonce))
            && l.chain[|l.chain| - 1].hash + Signatures(l.mining.value.transfers) <= AssembleBlockData(b, b.nonce)
  {
    MinedBlockSelfHashed(env, l, now, nonce);
    MinedFields(env, l, now, nonce);
    hide MinedBlock, AssembleBlockData, Signatures, ValidChain, Mirrors, BalancesAgree;
    DataBegins(MinedBlock(env, l, now, nonce), MinedBlock(env, l, now, nonce).nonce);
  }

  lemma TimestampsPositive(env: Env, chain: seq<LedgerBlock>)
    requires ValidChain(env, chain)
    ensures chain[|chain| - 1].timestamp > 0
  {
    assert |chain| >= 1;
    hide ValidChain, SelfHashed, MeetsTarget;
    ChainFacts(env, chain, 0);
    if |chain| > 1 {
      TimestampsIncrease(env, chain, 0, |chain| - 1);
    }
  }

  lemma DifficultyStep(parent: LedgerBlock, now: i64)
    requires 0 < parent.timestamp < TWO63 - 1
    ensures var time, d := BlockTime(parent, now), NextDifficulty(parent, BlockTime(parent, now));
            var wraps := parent.difficulty == TWO32 - 1 && time - parent.timestamp < TARGET_BLOCK_TIME_SEC;
            && parent.timestamp < time
            && (d >= 1 <==> !wraps)
            && (parent.difficulty >= 1 && !wraps ==> -1 <= d - parent.difficulty <= 1)
  {
  }

  /** A mined block's difficulty is at least 1 and at most one away from its parent's, unless the parent has
      the largest difficulty and the block came early: then it wraps to 0. */
  lemma MinedDifficulty(env: Env, l: Ledger, now: i64, nonce: u64)
    requires Consistent(env, l) && l.mining.Some? && l.mining.value.parent.timestamp < TWO63 - 1
    ensures var b, parent := MinedBlock(env, l, now, nonce), l.mining.value.parent;
            var wraps := parent.difficulty == TWO32 - 1 && b.timestamp - parent.timestamp < TARGET_BLOCK_TIME_SEC;
            && parent.timestamp < b.timestamp
            && (b.difficulty >= 1 <==> !wraps)
            && (parent.difficulty >= 1 && !wraps ==> -1 <= b.difficulty - parent.difficulty <= 1)
  {
    hide AllowedReward, ValidChain, BalancesAgree, Mirrors, MinedBlock, AllAffordable, BlockTime, NextDifficulty;
    hide FeeTotal;
    MinedFields(env, l, now, nonce);
    TimestampsPositive(env, l.chain);
    DifficultyStep(l.mining.value.parent, now);
  }

  // ---- Reorganisation ----

  /** The block a run in flight will make extends the chain there is now. */
  ghost predicate Extends(l: Ledger, now: i64)
    requires l.mining.Some?
  {
    var parent := l.mining.value.parent;
    l.chain != [] &&
    var tip := l.chain[|l.chain| - 1];
    && Add64(parent.index, 1) == |l.chain| && parent.hash == tip.hash && tip.timestamp < BlockTime(parent, now)
  }

  /** Whatever the chain has become while a run was in flight, if the chain is valid and the run's block passes its
      validation against the old parent, then the chain with that block is valid if and only if the block extends
      the chain: the old parent is one index below the height and has the tip's hash, and the tip is earlier. */
  lemma ReorganisedRun(env: Env, l: Ledger, now: i64, nonce: u64)
    requires l.mining.Some? && ValidChain(env, l.chain) && PassesValidation(env, l, now, nonce)
    ensures ValidChain(env, Finished(env, l, now, nonce).chain) <==> Extends(l, now)
  {
    hide MinedBlock, AllowedReward, MeetsTarget, BlockTime, CirculatingSupply;
    NextReward(env, l.chain);
    MinedFields(env, l, now, nonce);
    hide NextDifficulty;
    var b := MinedBlock(env, l, now, nonce);
    assert (l.chain + [b])[..|l.chain + [b]| - 1] == l.chain;
    if ValidChain(env, l.chain + [b]) {
      hide IsGenesis;
    }
  }

  /** What every step keeps, even with reorganisations in flight. */
  ghost predicate ChainStored(env: Env, l: Ledger) {
    ValidChain(env, l.chain) && Mirrors(env, l.store, l.chain) && l.bits == GENESIS_BITS
  }

  ghost predicate EndsInPlace(l: Ledger, a: Action) {
    a.FinishMining? && l.mining.Some? ==> Extends(l, a.now)
  }

  lemma FinishStored(env: Env, l: Ledger, now: i64, nonce: u64)
    requires JsonRoundTrips(env) && ChainStored(env, l) && l.mining.Some? && PassesValidation(env, l, now, nonce)
    ensures ChainStored(env, Finished(env, l, now, nonce)) <==> Extends(l, now)
  {
    ReorganisedRun(env, l, now, nonce);
    if Extends(l, now) {
      assert Add64(l.mining.value.parent.index, 1) == |l.chain|;
      hide ValidChain, Mirrors, MinedBlock, Extends, JsonRoundTrips, Saved;
      ChainLength(env, l.chain);
      MinedFields(env, l, now, nonce);
      SaveMirrors(env, l.store, l.chain, MinedBlock(env, l, now, nonce));
    }
  }

  /** With reorganisations in flight the chain stays valid and the store its mirror, in every step, if and only if a
      run that ends extends the chain there is then. */
  lemma AnyNextStored(env: Env, l: Ledger, a: Action, l': Ledger)
    requires JsonRoundTrips(env) && ChainStored(env, l) && AnyNext(env, l, a, l')
    ensures ChainStored(env, l') <==> EndsInPlace(l, a)
  {
    hide ValidChain, Mirrors, JsonRoundTrips, LoadVerdict, MineFinds, NonceFound, PassesValidation, Extends;
    hide ValidateBlockConsensus, Select, Trimmed, Finished, Initialized, MayMine, Saved, Deleted, Replay, ApplyBlock;
    hide Returned, Admissible;
    match a
    case FinishMining(now, nonce) => FinishStored(env, l, now, nonce);
    case Append(b) =>
      if AppendAccepted(env, l, b) {
        ExtendChain(env, l.chain, l.store, b);
      }
    case Rollback =>
      if |l.chain| > 1 {
        ShortenChain(env, l.chain, l.store);
      }
    case Restart(target, miner, nonce) => StartOnMirror(env, l.store, l.chain, target, miner, nonce);
    case _ =>
  }

  ghost predicate AnyRun(env: Env, states: seq<Ledger>, actions: seq<Action>) {
    && |states| == |actions| + 1
    && forall i :: 0 <= i < |actions| ==> AnyNext(env, states[i], actions[i], states[i + 1])
  }

  /** So in every run with reorganisations in flight: the chain is valid and stored in every state up to i if and
      only if every mining run that ended before extended the chain. */
  lemma {:induction false} AnyRunStored(env: Env, store: Store, states: seq<Ledger>, actions: seq<Action>, i: nat)
    requires JsonRoundTrips(env) && AnyRun(env, states, actions) && i < |states| && Initial(env, store, states[0])
    ensures (forall j :: 0 <= j <= i ==> ChainStored(env, states[j]))
       <==> (forall j :: 0 <= j < i ==> EndsInPlace(states[j], actions[j]))
  {
    hide ChainStored, EndsInPlace, AnyNext, Initial, JsonRoundTrips;
    if i == 0 {
      InitialStored(env, store, states[0]);
    } else {
      AnyRunStored(env, store, states, actions, i - 1);
      if forall j :: 0 <= j <= i - 1 ==> ChainStored(env, states[j]) {
        AnyNextStored(env, states[i - 1], actions[i - 1], states[i]);
      }
    }
  }

  lemma InitialStored(env: Env, store: Store, l: Ledger)
    requires JsonRoundTrips(env) && Initial(env, store, l)
    ensures ChainStored(env, l)
  {
    InitialHolds(env, store, l);
    hide Initial, JsonRoundTrips, ValidChain, Mirrors;
  }

  /** Two reorganisations that a run in flight does not survive: a rollback, and a rollback followed by another
      block of the same height. The second leaves the length as it was. */
  lemma ReorganisedRunBreaks(env: Env, l: Ledger, time: i64, difficulty: u32, now: i64, nonce: u64)
    requires JsonRoundTrips(env) && Consistent(env, l) && l.mining.Some? && |l.chain| > 1
    ensures |l.chain| < TWO64
    ensures var r := RolledBack(l);
            && ChainStored(env, r) && r.mining == l.mining && !Extends(r, now)
            && var b := Unhashed(r, time, difficulty);
               AppendAccepted(env, r, b) && l.mining.value.parent.hash != "" ==>
                 var t := Appended(env, r, b);
                 ChainStored(env, t) && t.mining == l.mining && |t.chain| == |l.chain| && !Extends(t, now)
  {
    hide ValidChain, Mirrors, JsonRoundTrips, Saved, Deleted, Replay, ApplyBlock, Returned, ValidateBlockConsensus;
    hide BalancesAgree, BlockTime, AllAffordable, FeeTotal, CalculateBlockReward, EncodedSum;
    ChainLength(env, l.chain);
    NextReward(env, l.chain);
    ShortenChain(env, l.chain, l.store);
    var r := RolledBack(l);
    var b := Unhashed(r, time, difficulty);
    if AppendAccepted(env, r, b) {
      ExtendChain(env, r.chain, r.store, b);
    }
  }

  /** A rollback while a run is in flight also forgets what the picked transfers did to the balances: when the run
      then ends, its balances are the replay's exactly if those transfers change no balance. */
  lemma RolledBackRunBalances(env: Env, l: Ledger, now: i64, nonce: u64)
    requires l.mining.Some? && l.mining.value.feeTotal == FeeTotal(l.mining.value.transfers)
    requires l.accounts == Replay(l.chain)
    requires l.miner != SYSTEM_GENESIS && MayMine(l.miner)
    ensures var txs := l.mining.value.transfers;
            BalancesAgree(Finished(env, l, now, nonce))
            <==> SameBalances(Replay(l.chain), ApplyTransfers(Replay(l.chain), txs))
  {
    hide MinedBlock, Replay, ApplyTransfers, FeeTotal;
    var b := MinedBlock(env, l, now, nonce);
    var m, amount := Replay(l.chain), MinerCredit(b.reward, b.transfers);
    var n := ApplyTransfers(m, b.transfers);
    MinedFields(env, l, now, nonce);
    ReplayOneMore(l.chain, b);
    NoTransfers(Replay(l.chain + [b]));
    PayIsCredit(m, l.miner, amount);
    CreditCancels(m, n, l.miner, amount);
  }

  lemma {:induction false} ReturnedReverses(txs: seq<Transfer>, pool: seq<Transfer>)
    ensures |Returned(txs, pool)| == |txs| + |pool| && Returned(txs, pool)[|txs|..] == pool
    ensures forall i :: 0 <= i < |txs| ==> Returned(txs, pool)[i] == txs[|txs| - 1 - i]
  {
    if txs != [] {
      ReturnedReverses(txs[..|txs| - 1], pool);
    }
  }

  /** Rolling back a block that was just appended restores the chain, the whole store and all balances, and
      puts the block's transfers, last first, in front of the mempool. */
  lemma RollbackUndoesAppend(env: Env, l: Ledger, b: LedgerBlock)
    requires JsonRoundTrips(env) && Consistent(env, l) && l.mining.None?
    requires AppendAccepted(env, l, b)
    ensures var r := RolledBack(Appended(env, l, b));
            && r == l.(mempool := Returned(b.transfers, l.mempool), accounts := Replay(l.chain))
            && SameBalances(r.accounts, l.accounts)
  {
    assert l.chain != [];
    hide ValidChain, Mirrors, ValidateBlockConsensus, JsonRoundTrips, Saved, Deleted, ApplyTransfers, Replay;
    hide ApplyBlock, Returned;
    ExtendChain(env, l.chain, l.store, b);
    DeleteUndoesSave(env, l.store, l.chain, env.encodeBlock(b));
    NoTransfers(Replay(l.chain));
    var a := Appended(env, l, b);
    assert a.chain[..|a.chain| - 1] == l.chain;
  }

  // ---- Start-up on any store ----

  /** What InitializeLedger makes of a store, by the blocks it holds and the fields of the first: nothing to load; a
      foreign genesis, which is wiped; a genesis off the checkpoint or too large a supply, which halts the node. */
  lemma LoadExactly(env: Env, store: Store, target: u32, miner: string)
    ensures var message :=
              "IND Today 05/Aug/2026 AldianOkto, While banks keep printing Debt, We build an honest Exit";
            var blocks, verdict := StoredBlocks(env, store), LoadVerdict(env, Unloaded(store, target, miner));
            && (verdict == NoChain <==> blocks == [])
            && (blocks != [] ==>
                  var g := blocks[0];
                  var ours :=
                    && g.message == message
                    && g.timestamp == 1_770_249_600 && g.bits == 504_365_040 && g.reward == 5_000_000_000
                    && g.maxSupply == 78_500_000_000_000_000 && g.halvingInterval == 7_850_000;
                  && (verdict == Respawned <==> !ours)
                  && (verdict == Loaded <==> ours && HexEncode(g.hash) == EXPECTED_GENESIS_HASH
                                             && CirculatingSupply(blocks) <= 78_500_000_000_000_000)
                  && (verdict == Halted <==> ours && (HexEncode(g.hash) != EXPECTED_GENESIS_HASH
                                                      || CirculatingSupply(blocks) > 78_500_000_000_000_000)))
  {
    hide LoadBlocks, LastIndex, HexEncode, CirculatingSupply;
    assert [] + StoredBlocks(env, store) == StoredBlocks(env, store);
  }

  /** Whatever a store held, the wipe-and-respawn branch leaves a consistent ledger of one genesis block. */
  lemma RespawnConsistent(env: Env, store: Store, target: u32, miner: string, nonce: u64)
    requires JsonRoundTrips(env) && LoadVerdict(env, Unloaded(store, target, miner)) == Respawned
    requires MineFinds(env, GenesisCandidate(target), GENESIS_BITS, target, nonce)
    ensures Consistent(env, Initialized(env, store, target, miner, nonce))
    ensures |Initialized(env, store, target, miner, nonce).chain| == 1
  {
    hide Consistent, MineFinds, JsonRoundTrips, GenesisCandidate, LoadVerdict, Saved, Sealed;
    SpawnConsistent(env, Unloaded(map[], target, miner), nonce);
  }

  lemma FreshChain(env: Env, store: Store, target: u32, miner: string, nonce: u64, l: Ledger)
    requires Started(env, store, target, miner, nonce, l) && (store == map[] || ForeignStore(env, store))
    ensures l.chain == [Sealed(env, GenesisCandidate(target), GENESIS_BITS, nonce)]
    ensures l.mempool == [] && l.mining == None
  {
    ForeignRespawns(env, store, target, miner);
    hide MineFinds, Sealed, Saved, GenesisCandidate, ForeignStore, MatchesConfig;
    if store == map[] {
      assert LoadVerdict(env, Unloaded(store, target, miner)) == NoChain;
    }
  }

  // ---- What validation does not check ----

  /** A block for the next height without transfers and without a hash. */
  function Unhashed(l: Ledger, time: i64, difficulty: u32): LedgerBlock
    requires l.chain != [] && |l.chain| < TWO64
  {
    LedgerBlock(|l.chain|, time, l.chain[|l.chain| - 1].hash, "", [], SYSTEM_GENESIS, 0, difficulty, GENESIS_BITS,
                CalculateBlockReward(|l.chain|), MAX_SUPPLY, HALVING_INTERVAL, "")
  }

  lemma EmptyHashMeetsTargets(difficulty: u32)
    ensures MeetsTarget("", difficulty)
  {
    assert HexEncode("") == "" && HexDecode("") == Some("");
  }

  /** Validation does not hash the block again, and the empty hash meets every target: at any difficulty and any
      later time the ledger appends such a block, if its JSON fits. So an appended block, unlike a mined one,
      need not store its own hash. */
  lemma AppendIgnoresContents(env: Env, l: Ledger, time: i64, difficulty: u32)
    requires ValidChain(env, l.chain)
    ensures l.chain != [] && |l.chain| < TWO64
    ensures var b := Unhashed(l, time, difficulty);
            && (AppendAccepted(env, l, b)
                <==> time > l.chain[|l.chain| - 1].timestamp && |env.encodeBlock(b)| <= MAX_BLOCK_SIZE_BYTES)
            && (|env.keccak(AssembleBlockData(b, 0))| == 32 ==> !SelfHashed(env, b))
  {
    NextReward(env, l.chain);
    var b := Unhashed(l, time, difficulty);
    NoHashOfItsOwn(env, b);
    UnhashedFits(l, time, difficulty);
    hide ValidChain, AppendAccepted, AssembleBlockData, MeetsTarget, AllowedReward, CirculatingSupply, Add64;
    hide CalculateBlockReward, SelfHashed, Unhashed;
    SystemVerdict(env, l, b);
  }

  lemma NoHashOfItsOwn(env: Env, b: LedgerBlock)
    requires b.hash == ""
    ensures |env.keccak(AssembleBlockData(b, b.nonce))| == 32 ==> !SelfHashed(env, b)
  {
    hide AssembleBlockData;
  }

  lemma UnhashedFits(l: Ledger, time: i64, difficulty: u32)
    requires l.chain != [] && |l.chain| < TWO64
    ensures var b := Unhashed(l, time, difficulty);
            && b.index == |l.chain| && b.prevHash == l.chain[|l.chain| - 1].hash && b.hash == "" && b.nonce == 0
            && b.miner == SYSTEM_GENESIS && b.maxSupply == MAX_SUPPLY && b.halvingInterval == HALVING_INTERVAL
            && b.reward == CalculateBlockReward(|l.chain|) && b.difficulty == difficulty && b.timestamp == time
            && MeetsTarget(b.hash, b.difficulty)
  {
    EmptyHashMeetsTargets(difficulty);
    hide MeetsTarget, CalculateBlockReward;
  }

  /** On a block with the fields that validation asks for, only the time and the size are left to check. */
  lemma SystemVerdict(env: Env, l: Ledger, b: LedgerBlock)
    requires l.chain != []
    requires var tip := l.chain[|l.chain| - 1]; b.index == Add64(tip.index, 1) && b.prevHash == tip.hash
    requires b.miner == SYSTEM_GENESIS && b.maxSupply == MAX_SUPPLY && b.halvingInterval == HALVING_INTERVAL
    requires MeetsTarget(b.hash, b.difficulty) && b.reward == AllowedReward(b.index, CirculatingSupply(l.chain))
    ensures AppendAccepted(env, l, b)
       <==> b.timestamp > l.chain[|l.chain| - 1].timestamp && |env.encodeBlock(b)| <= MAX_BLOCK_SIZE_BYTES
  {
    hide MeetsTarget, AllowedReward, Add64, HasPrefix, CirculatingSupply;
  }

  lemma NextReward(env: Env, chain: seq<LedgerBlock>)
    requires ValidChain(env, chain)
    ensures |chain| < TWO64 && chain[|chain| - 1].index == |chain| - 1 && Add64(chain[|chain| - 1].index, 1) == |chain|
    ensures AllowedReward(|chain|, CirculatingSupply(chain)) == CalculateBlockReward(|chain|)
  {
    ChainLength(env, chain);
    hide ValidChain, AllowedReward, CirculatingSupply, EmittedBefore, RewardSum, CalculateBlockReward;
    ChainFollowsSchedule(env, chain);
    AllowedIsScheduled(|chain|);
  }

  /** Nor does it look at balances: with a transfer in it the same holds, and the shortfall grows by what the sender
      does not have, so by something exactly if the sender cannot pay. */
  lemma AppendIgnoresBalances(env: Env, l: Ledger, time: i64, difficulty: u32, tx: Transfer)
    requires Consistent(env, l) && l.mining.None?
    ensures l.chain != [] && |l.chain| < TWO64
    ensures var b := Unhashed(l, time, difficulty).(transfers := [tx]);
            && (AppendAccepted(env, l, b)
                <==> time > l.chain[|l.chain| - 1].timestamp && |env.encodeBlock(b)| <= MAX_BLOCK_SIZE_BYTES)
            && (AppendAccepted(env, l, b) ==>
                  var grown := ChainShortfall(Appended(env, l, b).chain) - ChainShortfall(l.chain);
                  grown == Shortfall(l.accounts, tx) && (grown > 0 <==> !Affordable(l.accounts, tx)))
  {
    ChainLength(env, l.chain);
    var b := Unhashed(l, time, difficulty).(transfers := [tx]);
    EmptyHashMeetsTargets(difficulty);
    NextReward(env, l.chain);
    OneShortfall(l, tx);
    hide ValidChain, Mirrors, RunMatches, BalancesAgree, AppendAccepted, Replay, TransfersShortfall;
    hide MeetsTarget, AllowedReward, CirculatingSupply, Add64, CalculateBlockReward;
    SystemVerdict(env, l, b);
    assert (l.chain + [b])[..|l.chain + [b]| - 1] == l.chain;
  }

  lemma OneShortfall(l: Ledger, tx: Transfer)
    requires BalancesAgree(l) && l.mining.None?
    ensures TransfersShortfall(Replay(l.chain), [tx]) == Shortfall(l.accounts, tx)
    ensures Shortfall(l.accounts, tx) > 0 <==> !Affordable(l.accounts, tx)
  {
    NoTransfers(Replay(l.chain));
    hide Replay;
    assert [tx][..0] == [];
    assert BalanceOf(l.accounts, Sender(tx)) == BalanceOf(Replay(l.chain), Sender(tx));
  }

  /** After one with the last int64 timestamp no block that MineBlock makes passes, whatever the clock and the
      nonce. */
  lemma LastTimestampStopsMining(env: Env, l: Ledger, difficulty: u32, now: i64, nonce: u64)
    requires JsonRoundTrips(env) && Consistent(env, l) && l.mining.None? && MayMine(l.miner) && |l.chain| < TWO64
    requires AppendAccepted(env, l, Unhashed(l, TWO63 - 1, difficulty))
    ensures var m := Begun(env, Appended(env, l, Unhashed(l, TWO63 - 1, difficulty)));
            NonceFound(env, m, now, nonce) ==> !PassesValidation(env, m, now, nonce)
  {
    var b := Unhashed(l, TWO63 - 1, difficulty);
    var a := Appended(env, l, b);
    AppendKeeps(env, l, b);
    BeginKeeps(env, a);
    hide Consistent, Select, NonceFound, PassesValidation, MinedBlock;
    if NonceFound(env, Begun(env, a), now, nonce) {
      OwnBlockPasses(env, Begun(env, a), now, nonce);
    }
  }

  /** After one with the largest difficulty the next mined block has difficulty 0 exactly if it comes early, and
      otherwise a positive one. */
  lemma LargestDifficultyWraps(env: Env, l: Ledger, time: i64, now: i64, nonce: u64)
    requires JsonRoundTrips(env) && Consistent(env, l) && l.mining.None? && MayMine(l.miner) && |l.chain| < TWO64
    requires time < TWO63 - 1 && AppendAccepted(env, l, Unhashed(l, time, TWO32 - 1))
    ensures var b := MinedBlock(env, Begun(env, Appended(env, l, Unhashed(l, time, TWO32 - 1))), now, nonce);
            b.difficulty == 0 <==> now < time + TARGET_BLOCK_TIME_SEC
  {
    var b := Unhashed(l, time, TWO32 - 1);
    var a := Appended(env, l, b);
    AppendKeeps(env, l, b);
    BeginKeeps(env, a);
    hide Consistent, Select, MinedBlock, BlockTime;
    hide ValidateBlockConsensus, NextDifficulty, AllowedReward;
    var m := Begun(env, a);
    assert m.mining.value.parent == b;
    MinedDifficulty(env, m, now, nonce);
    MinedFields(env, m, now, nonce);
    TimeOf(b, now);
  }

  lemma TimeOf(parent: LedgerBlock, now: i64)
    requires parent.timestamp < TWO63 - 1
    ensures BlockTime(parent, now) - parent.timestamp < TARGET_BLOCK_TIME_SEC
       <==> now < parent.timestamp + TARGET_BLOCK_TIME_SEC
  {
  }
}

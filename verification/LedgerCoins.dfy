/** Where the coins are in every state of every run of the ledger. */
module LedgerCoins {
  import opened Machine
  import opened Text
  import opened Consensus
  import opened Transfers
  import opened Blocks
  import opened Storage
  import opened Accounts
  import opened Conservation
  import opened LedgerModel
  import opened LedgerTheorems
  import opened LedgerContents

  /** Nothing in the ledger wraps when its value and fee are added. */
  ghost predicate Unwrapped(l: Ledger) { ChainNoWrap(l.chain) && NoWrap(l.mempool) && NoWrap(InFlight(l)) }

  /** What a caller can check: the transfers it hands in do not wrap. */
  ghost predicate UnwrappedAction(env: Env, l: Ledger, a: Action) {
    match a
    case Submit(tx) => tx.value + tx.fee < TWO64
    case ReplaceMempool(txs) => NoWrap(txs)
    case Append(b) => AppendAccepted(env, l, b) ==> NoWrap(b.transfers)
    case _ => true
  }

  lemma UnwrappedMeansHeld(l: Ledger)
    ensures Unwrapped(l) <==> Held(WrapFree(), l)
  {
    hide NoWrap, Every;
    EveryIsNoWrap(l.mempool);
    EveryIsNoWrap(InFlight(l));
    ChainIsNoWrap(l.chain);
  }

  function WrapFree(): Transfer -> bool { (tx: Transfer) => tx.value + tx.fee < TWO64 }

  lemma EveryIsNoWrap(txs: seq<Transfer>)
    ensures NoWrap(txs) <==> Every(WrapFree(), txs)
  {
  }

  lemma {:induction false} ChainIsNoWrap(chain: seq<LedgerBlock>)
    ensures ChainNoWrap(chain) <==> EveryInChain(WrapFree(), chain)
  {
    hide NoWrap, Every;
    if chain != [] {
      ChainIsNoWrap(chain[..|chain| - 1]);
      EveryIsNoWrap(chain[|chain| - 1].transfers);
    }
  }

  lemma NextUnwrapped(env: Env, l: Ledger, a: Action, l': Ledger)
    requires Inv(env, l) && Unwrapped(l) && Next(env, l, a, l') && UnwrappedAction(env, l, a)
    ensures Unwrapped(l')
  {
    UnwrappedMeansHeld(l);
    UnwrappedMeansHeld(l');
    HandsInWrapFree(env, l, a);
    hide Unwrapped, Held, Inv, Next, UnwrappedAction, HandsIn;
    NextHeld(env, WrapFree(), l, a, l');
  }

  lemma HandsInWrapFree(env: Env, l: Ledger, a: Action)
    requires UnwrappedAction(env, l, a)
    ensures HandsIn(env, WrapFree(), l, a)
  {
    hide NoWrap, Every, AppendAccepted, Admissible;
    match a
    case ReplaceMempool(txs) => EveryIsNoWrap(txs);
    case Append(b) => EveryIsNoWrap(b.transfers);
    case _ =>
  }

  /** A mined block adds no shortfall; only a block from outside can. */
  lemma MiningAddsNoShortfall(env: Env, l: Ledger, now: i64, nonce: u64)
    requires Consistent(env, l) && l.mining.Some?
    ensures ChainShortfall(Finished(env, l, now, nonce).chain) == ChainShortfall(l.chain)
  {
    hide ValidChain, Mirrors, BalancesAgree, MinedBlock, Replay, AllAffordable, TransfersShortfall;
    var b := MinedBlock(env, l, now, nonce);
    MinedFields(env, l, now, nonce);
    PaidMeansNoShortfall(Replay(l.chain), b.transfers);
    assert (l.chain + [b])[..|l.chain + [b]| - 1] == l.chain;
  }

  /** When no transfer wraps, balances, fees in flight and the coins no block credited add up exactly to what the
      schedule issued, which is below MaxSupply, and the shortfall that clamps forgave, if and only if no credit in
      the replay or for a transfer in flight overflows; none does while emission and shortfall are below 2^64. */
  lemma CoinsConserved(env: Env, l: Ledger)
    requires Consistent(env, l) && Unwrapped(l)
    ensures Total(l.accounts) + FeeSum(InFlight(l)) + Uncredited(l.chain)
            == EmittedBefore(|l.chain|) + ChainShortfall(l.chain)
       <==> ReplayFits(l.chain) && CreditsFit(Replay(l.chain), InFlight(l))
    ensures EmittedBefore(|l.chain|) == CirculatingSupply(l.chain) < MAX_SUPPLY
    ensures EmittedBefore(|l.chain|) + ChainShortfall(l.chain) < TWO64 ==>
              && ReplayFits(l.chain) && CreditsFit(Replay(l.chain), InFlight(l))
              && FeeTotal(InFlight(l)) == FeeSum(InFlight(l))
  {
    hide ValidChain, Mirrors, ApplyTransfers, Replay, NoWrap, CreditsFit, Uncredited, EmittedBefore, FeeSum, FeeTotal;
    hide TransfersShortfall, ChainShortfall, RewardSum, CirculatingSupply, ChainNoWrap, ReplayFits, AllAffordable;
    var m := Replay(l.chain);
    ChainFollowsSchedule(env, l.chain);
    var lost := ChainLoses(l.chain);
    InFlightPaid(env, l);
    var more := TransfersLose(m, InFlight(l));
    TransfersExact(m, InFlight(l));
    TotalSame(l.accounts, ApplyTransfers(m, InFlight(l)));
    hide Total;
  }

  lemma InFlightPaid(env: Env, l: Ledger)
    requires Consistent(env, l)
    ensures TransfersShortfall(Replay(l.chain), InFlight(l)) == 0
  {
    PaidMeansNoShortfall(Replay(l.chain), InFlight(l));
    hide ValidChain, Mirrors, BalancesAgree, Replay, TransfersShortfall;
  }

  /** Every addition that a step makes to a balance or to a fee total stays below 2^64. */
  ghost predicate StepFits(env: Env, l: Ledger, a: Action) {
    match a
    case BeginMining =>
      var picked := Select(env, l.accounts, l.mempool).picked;
      CreditsFit(l.accounts, picked) && FeeTotal(picked) == FeeSum(picked)
    case FinishMining(now, nonce) =>
      l.mining.Some? ==>
        var b := MinedBlock(env, l, now, nonce);
        BalanceOf(l.accounts, b.miner) + b.reward + FeeSum(b.transfers) < TWO64
    case Append(b) => AppendAccepted(env, l, b) ==> BlockFits(l.accounts, b)
    case Rollback => |l.chain| > 1 ==> ReplayFits(l.chain[..|l.chain| - 1])
    case Restart(target, miner, nonce) => ReplayFits(l.chain)
    case _ => true
  }

  lemma BeginFits(env: Env, l: Ledger)
    requires Consistent(env, l) && l.mining.None? && MayMine(l.miner) && Unwrapped(Begun(env, l))
    requires EmittedBefore(|l.chain|) + ChainShortfall(l.chain) < TWO64
    ensures StepFits(env, l, BeginMining)
  {
    assert l.chain != [];
    BeginKeeps(env, l);
    NoTransfers(Replay(l.chain));
    hide Consistent, Unwrapped, Select, Replay, EmittedBefore, ChainShortfall, ReplayFits, CreditsFit, FeeTotal, FeeSum;
    CoinsConserved(env, Begun(env, l));
    CreditsFitSame(Replay(l.chain), l.accounts, Select(env, l.accounts, l.mempool).picked);
  }

  lemma FitsOneMore(chain: seq<LedgerBlock>, b: LedgerBlock)
    ensures ReplayFits(chain + [b]) <==> ReplayFits(chain) && BlockFits(Replay(chain), b)
  {
    assert (chain + [b])[..|chain + [b]| - 1] == chain;
  }

  lemma FinishFits(env: Env, l: Ledger, now: i64, nonce: u64)
    requires Inv(env, l) && l.mining.Some? && ReplayFits(Finished(env, l, now, nonce).chain)
    ensures StepFits(env, l, FinishMining(now, nonce))
  {
    hide ValidChain, Mirrors, MinedBlock, Replay, ReplayFits, AllAffordable, CreditsFit, FeeSum, FeeTotal;
    MinedFields(env, l, now, nonce);
    FitsOneMore(l.chain, MinedBlock(env, l, now, nonce));
  }

  lemma AppendFits(env: Env, l: Ledger, b: LedgerBlock)
    requires Consistent(env, l) && l.mining.None? && ReplayFits(Appended(env, l, b).chain)
    ensures StepFits(env, l, Append(b))
  {
    hide ValidChain, Mirrors, Replay, ReplayFits, AppendAccepted, BlockFits, ApplyBlock, RunMatches;
    NoTransfers(Replay(l.chain));
    hide ApplyTransfers;
    FitsOneMore(l.chain, b);
    BlockFitsSame(Replay(l.chain), l.accounts, b);
  }

  /** No addition overflows in a step after which emission and shortfall fit 64 bits. */
  lemma NextFits(env: Env, l: Ledger, a: Action, l': Ledger)
    requires JsonRoundTrips(env) && Inv(env, l) && Next(env, l, a, l') && Unwrapped(l')
    requires EmittedBefore(|l'.chain|) + ChainShortfall(l'.chain) < TWO64
    ensures StepFits(env, l, a)
  {
    NextKeeps(env, l, a, l');
    hide Consistent, Unwrapped, EmittedBefore, ChainShortfall, ReplayFits, StepFits, JsonRoundTrips;
    hide Submitted, Finished, Appended, RolledBack, Started, NonceFound, PassesValidation, MayMine;
    CoinsConserved(env, l');
    hide CreditsFit, FeeSum, FeeTotal, InFlight, Total, Uncredited, CirculatingSupply, Replay;
    match a
    case BeginMining =>
      hide Begun;
      BeginFits(env, l);
    case FinishMining(now, nonce) => FinishFits(env, l, now, nonce);
    case Append(b) => AppendFits(env, l, b);
    case Restart(target, miner, nonce) => RestartFits(env, l, target, miner, nonce, l');
    case Rollback => RollbackFits(env, l);
    case _ => PoolFits(env, l, a);
  }

  lemma PoolFits(env: Env, l: Ledger, a: Action)
    requires a.Submit? || a.ReplaceMempool?
    ensures StepFits(env, l, a)
  {
  }

  lemma RollbackFits(env: Env, l: Ledger)
    requires ReplayFits(RolledBack(l).chain)
    ensures StepFits(env, l, Rollback)
  {
    hide ReplayFits, Replay, Returned, Deleted;
  }

  lemma RestartFits(env: Env, l: Ledger, target: u32, miner: string, nonce: u64, l': Ledger)
    requires Consistent(env, l) && Started(env, l.store, target, miner, nonce, l') && ReplayFits(l'.chain)
    ensures StepFits(env, l, Restart(target, miner, nonce))
  {
    hide Consistent, ReplayFits, Initialized, LoadVerdict, MineFinds;
    RestartKeeps(env, l, target, miner, nonce);
  }

  /** In every state of every run whose incoming transfers do not wrap, coins are conserved if and only if no
      credit overflows; while emission and shortfall fit 64 bits none does, nor does an addition of the step that
      led there. */
  lemma {:induction false} RunConserves(env: Env, store: Store, states: seq<Ledger>, actions: seq<Action>, i: nat)
    requires JsonRoundTrips(env) && Run(env, states, actions) && i < |states|
    requires Initial(env, store, states[0]) && Unwrapped(states[0])
    requires forall j :: 0 <= j < |actions| ==> UnwrappedAction(env, states[j], actions[j])
    ensures Unwrapped(states[i])
    ensures var l := states[i];
            && (Total(l.accounts) + FeeSum(InFlight(l)) + Uncredited(l.chain)
                == EmittedBefore(|l.chain|) + ChainShortfall(l.chain)
                <==> ReplayFits(l.chain) && CreditsFit(Replay(l.chain), InFlight(l)))
            && (EmittedBefore(|l.chain|) + ChainShortfall(l.chain) < TWO64 ==>
                  && ReplayFits(l.chain) && CreditsFit(Replay(l.chain), InFlight(l))
                  && (i > 0 ==> StepFits(env, states[i - 1], actions[i - 1])))
  {
    hide Initial, Consistent, Next, JsonRoundTrips, Unwrapped, UnwrappedAction, Total, FeeSum, Uncredited;
    hide EmittedBefore, InFlight, ChainShortfall, StepFits, ReplayFits, CreditsFit, Replay;
    RunKeeps(env, store, states, actions, i);
    if i > 0 {
      RunKeeps(env, store, states, actions, i - 1);
      RunConserves(env, store, states, actions, i - 1);
      NextUnwrapped(env, states[i - 1], actions[i - 1], states[i]);
      if EmittedBefore(|states[i].chain|) + ChainShortfall(states[i].chain) < TWO64 {
        NextFits(env, states[i - 1], actions[i - 1], states[i]);
      }
    }
    CoinsConserved(env, states[i]);
  }

  // ---- Solvent runs ----

  ghost predicate Solvent(l: Ledger) { Unwrapped(l) && ChainShortfall(l.chain) == 0 }

  /** What a caller can check: nothing it hands in wraps, and the senders of an appended block can pay. */
  ghost predicate PaidAction(env: Env, l: Ledger, a: Action) {
    && UnwrappedAction(env, l, a)
    && (a.Append? && AppendAccepted(env, l, a.block) ==> AllAffordable(l.accounts, a.block.transfers))
  }

  lemma AppendSolvent(env: Env, l: Ledger, b: LedgerBlock)
    requires Consistent(env, l) && l.mining.None? && ChainShortfall(l.chain) == 0
    requires AppendAccepted(env, l, b) ==> AllAffordable(l.accounts, b.transfers)
    ensures ChainShortfall(Appended(env, l, b).chain) == 0
  {
    NoTransfers(Replay(l.chain));
    hide ValidChain, Mirrors, Replay, AppendAccepted, RunMatches, ApplyTransfers, AllAffordable, TransfersShortfall;
    if AppendAccepted(env, l, b) {
      AllAffordableSame(l.accounts, Replay(l.chain), b.transfers);
      PaidMeansNoShortfall(Replay(l.chain), b.transfers);
      assert (l.chain + [b])[..|l.chain + [b]| - 1] == l.chain;
    }
  }

  lemma NextSolvent(env: Env, l: Ledger, a: Action, l': Ledger)
    requires Inv(env, l) && Solvent(l) && Next(env, l, a, l') && PaidAction(env, l, a)
    ensures Solvent(l')
  {
    NextUnwrapped(env, l, a, l');
    hide Consistent, Unwrapped, UnwrappedAction, Admissible, Select, Finished, Appended, Initialized, LoadVerdict;
    hide NonceFound, PassesValidation, MineFinds, AppendAccepted, AllAffordable, MinedBlock, ChainShortfall, RolledBack;
    match a
    case FinishMining(now, nonce) => MiningAddsNoShortfall(env, l, now, nonce);
    case Append(b) => AppendSolvent(env, l, b);
    case Rollback => RollbackSolvent(l);
    case Restart(target, miner, nonce) => RestartKeeps(env, l, target, miner, nonce);
    case _ =>
  }

  lemma RollbackSolvent(l: Ledger)
    requires ChainShortfall(l.chain) == 0
    ensures ChainShortfall(RolledBack(l).chain) == 0
  {
    hide Replay, Returned, Deleted, TransfersShortfall;
  }

  /** In every run whose incoming transfers do not wrap and whose appended blocks are paid for, balances, fees in
      flight and uncredited coins are the circulating supply, below MaxSupply, and no step overflows. */
  lemma {:induction false} RunSolvent(env: Env, store: Store, states: seq<Ledger>, actions: seq<Action>, i: nat)
    requires JsonRoundTrips(env) && Run(env, states, actions) && i < |states|
    requires Initial(env, store, states[0]) && Solvent(states[0])
    requires forall j :: 0 <= j < |actions| ==> PaidAction(env, states[j], actions[j])
    ensures Solvent(states[i])
    ensures var l := states[i];
            Total(l.accounts) + FeeSum(InFlight(l)) + Uncredited(l.chain) == CirculatingSupply(l.chain) < MAX_SUPPLY
    ensures i > 0 ==> StepFits(env, states[i - 1], actions[i - 1])
  {
    hide Initial, Consistent, Next, JsonRoundTrips, Unwrapped, UnwrappedAction, Total, FeeSum, Uncredited;
    hide EmittedBefore, InFlight, ChainShortfall, StepFits, CirculatingSupply;
    RunKeeps(env, store, states, actions, i);
    if i > 0 {
      RunKeeps(env, store, states, actions, i - 1);
      RunSolvent(env, store, states, actions, i - 1);
      NextSolvent(env, states[i - 1], actions[i - 1], states[i]);
    }
    EmissionBound(|states[i].chain|);
    CoinsConserved(env, states[i]);
    if i > 0 {
      NextFits(env, states[i - 1], actions[i - 1], states[i]);
    }
  }

  /** A node that starts with a fresh genesis block starts solvent. */
  lemma FreshStartSolvent(env: Env, store: Store, l: Ledger)
    requires Initial(env, store, l) && (store == map[] || ForeignStore(env, store))
    ensures Solvent(l)
  {
    hide Sealed, GenesisCandidate, ForeignStore, MatchesConfig, SelfHashed, MeetsTarget, Startable, MineFinds;
    hide Initialized, LoadVerdict;
    var target, nonce :| Started(env, store, target, l.miner, nonce, l);
    var genesis := Sealed(env, GenesisCandidate(target), GENESIS_BITS, nonce);
    FreshChain(env, store, target, l.miner, nonce, l);
    SealedGenesis(env, target, nonce);
    assert [genesis][..0] == [];
    assert ChainNoWrap([]) && NoWrap([]);
    assert Unwrapped(l);
    hide IsGenesis, ChainNoWrap, NoWrap;
    assert genesis.transfers == [];
    assert ChainShortfall([genesis]) == 0;
  }
}

/** What every run of the ledger keeps of the transfers themselves: a property that all transfers handed in have,
    all transfers in the ledger have. With it, every transfer in the ledger carries a signature that verifies. */
module LedgerContents {
  import opened Machine
  import opened Text
  import opened Consensus
  import opened Transfers
  import opened Blocks
  import opened Storage
  import opened Accounts
  import opened LedgerModel
  import opened LedgerTheorems

  ghost predicate Every(p: Transfer -> bool, txs: seq<Transfer>) { forall tx :: tx in txs ==> p(tx) }

  ghost predicate EveryInChain(p: Transfer -> bool, chain: seq<LedgerBlock>) {
    forall i :: 0 <= i < |chain| ==> Every(p, chain[i].transfers)
  }

  /** Every transfer in the chain, in the mempool and in a mining run in flight. */
  ghost predicate Held(p: Transfer -> bool, l: Ledger) {
    EveryInChain(p, l.chain) && Every(p, l.mempool) && Every(p, InFlight(l))
  }

  /** Every transfer that the action puts into the ledger from outside. */
  ghost predicate HandsIn(env: Env, p: Transfer -> bool, l: Ledger, a: Action) {
    match a
    case Submit(tx) => Admissible(env, tx) ==> p(tx)
    case ReplaceMempool(txs) => Every(p, txs)
    case Append(b) => AppendAccepted(env, l, b) ==> Every(p, b.transfers)
    case _ => true
  }

  lemma PickedComeFromPool(env: Env, p: Transfer -> bool, m: AccountMap, pool: seq<Transfer>)
    requires Every(p, pool)
    ensures Every(p, Select(env, m, pool).picked) && Every(p, Trimmed(env, m, pool))
  {
    SelectPartitions(env, m, pool);
    PickedWithin(Select(env, m, pool), pool);
    hide Select;
    forall tx | tx in Select(env, m, pool).picked ensures tx in pool {
      assert tx in multiset(Select(env, m, pool).picked);
    }
  }

  lemma SubmitHeld(env: Env, p: Transfer -> bool, l: Ledger, tx: Transfer, l': Ledger)
    requires Held(p, l) && Submitted(env, l, tx, l') && (Admissible(env, tx) ==> p(tx))
    ensures Held(p, l')
  {
    hide Admissible, SortedByFee, Noted;
    forall t | t in l'.mempool ensures p(t) {
      assert t in multiset(l'.mempool);
    }
  }

  lemma FinishHeld(env: Env, p: Transfer -> bool, l: Ledger, now: i64, nonce: u64)
    requires Held(p, l) && l.mining.Some?
    ensures Held(p, Finished(env, l, now, nonce))
  {
    hide MinedBlock, Every;
    assert Every(p, []) by { EveryNone(p); }
    MinedFields(env, l, now, nonce);
  }

  lemma EveryNone(p: Transfer -> bool)
    ensures Every(p, [])
  {
  }

  lemma RollbackHeld(p: Transfer -> bool, l: Ledger)
    requires Held(p, l) && l.mining.None?
    ensures Held(p, RolledBack(l))
  {
    hide Returned, Replay;
    if |l.chain| > 1 {
      var txs := l.chain[|l.chain| - 1].transfers;
      ReturnedReverses(txs, l.mempool);
      var r := Returned(txs, l.mempool);
      assert r == r[..|txs|] + l.mempool;
    }
  }

  lemma RestartHeld(env: Env, p: Transfer -> bool, l: Ledger, target: u32, miner: string, nonce: u64)
    requires Consistent(env, l) && Held(p, l)
    requires LoadVerdict(env, Unloaded(l.store, target, miner)) != Halted
    ensures Held(p, Initialized(env, l.store, target, miner, nonce))
  {
    hide ValidChain, Mirrors, BalancesAgree, LoadVerdict, Initialized, RunMatches, Every, Replay;
    EveryNone(p);
    StartOnMirror(env, l.store, l.chain, target, miner, nonce);
  }

  lemma NextHeld(env: Env, p: Transfer -> bool, l: Ledger, a: Action, l': Ledger)
    requires Inv(env, l) && Held(p, l) && Next(env, l, a, l') && HandsIn(env, p, l, a)
    ensures Held(p, l')
  {
    hide Consistent, LoadVerdict, MineFinds, NonceFound, PassesValidation, ValidateBlockConsensus, Every;
    hide Submitted, Finished, RolledBack, Initialized, Select, Trimmed, Saved, AllAffordable, ApplyBlock;
    EveryNone(p);
    match a
    case Submit(tx) => SubmitHeld(env, p, l, tx, l');
    case ReplaceMempool(txs) =>
    case BeginMining => PickedComeFromPool(env, p, l.accounts, l.mempool);
    case FinishMining(now, nonce) => FinishHeld(env, p, l, now, nonce);
    case Append(b) =>
    case Rollback => RollbackHeld(p, l);
    case Restart(target, miner, nonce) => RestartHeld(env, p, l, target, miner, nonce);
  }

  /** In every run that starts with such transfers and hands in only such ones. */
  lemma {:induction false} RunHeld(env: Env, p: Transfer -> bool, store: Store, states: seq<Ledger>,
                                   actions: seq<Action>, i: nat)
    requires JsonRoundTrips(env) && Run(env, states, actions) && i < |states|
    requires Initial(env, store, states[0]) && Held(p, states[0])
    requires forall j :: 0 <= j < |actions| ==> HandsIn(env, p, states[j], actions[j])
    ensures Held(p, states[i])
  {
    hide Initial, Inv, Next, JsonRoundTrips, Held, HandsIn;
    if i > 0 {
      RunKeeps(env, store, states, actions, i - 1);
      RunHeld(env, p, store, states, actions, i - 1);
      NextHeld(env, p, states[i - 1], actions[i - 1], states[i]);
    }
  }

  // ---- Signatures ----

  /** AddToMempool lets in exactly the transfers to an address with the prefix whose signature verifies, keeps the
      pool in the order of fees, and changes nothing but the pool and the sender's nonce. */
  lemma SubmitExactly(env: Env, l: Ledger, tx: Transfer, l': Ledger)
    requires Submitted(env, l, tx, l')
    ensures multiset(l'.mempool) != multiset(l.mempool) <==> "xcosh" <= tx.recipient && env.verifies(tx)
    ensures if "xcosh" <= tx.recipient && env.verifies(tx) then
              && multiset(l'.mempool) == multiset(l.mempool) + multiset{tx}
              && (forall i, j :: 0 <= i < j < |l'.mempool| ==> l'.mempool[i].fee >= l'.mempool[j].fee)
              && l == l'.(mempool := l.mempool, accounts := l.accounts)
              && (forall a :: BalanceOf(l'.accounts, a) == BalanceOf(l.accounts, a))
              && (forall a :: NonceOf(l'.accounts, a) == if a == Sender(tx) then tx.nonce else NonceOf(l.accounts, a))
            else l' == l
  {
    hide Sender;
    assert multiset(l.mempool) + multiset{tx} != multiset(l.mempool) by {
      assert (multiset(l.mempool) + multiset{tx})[tx] == multiset(l.mempool)[tx] + 1;
    }
  }

  /** What a caller answers for: the signatures of transfers that do not come through AddToMempool. */
  ghost predicate AuthenticAction(env: Env, l: Ledger, a: Action) {
    match a
    case ReplaceMempool(txs) => forall tx :: tx in txs ==> env.verifies(tx)
    case Append(b) => AppendAccepted(env, l, b) ==> forall tx :: tx in b.transfers ==> env.verifies(tx)
    case _ => true
  }

  lemma AuthenticHandsIn(env: Env, l: Ledger, a: Action)
    requires AuthenticAction(env, l, a)
    ensures HandsIn(env, env.verifies, l, a)
  {
    hide AppendAccepted;
  }

  /** In every run from a fresh genesis block in which replaced mempools and appended blocks hold only transfers that
      verify, every transfer in the mempool, in flight and in the chain verifies. */
  lemma RunAuthentic(env: Env, store: Store, states: seq<Ledger>, actions: seq<Action>, i: nat)
    requires JsonRoundTrips(env) && Run(env, states, actions) && i < |states|
    requires Initial(env, store, states[0]) && (store == map[] || ForeignStore(env, store))
    requires forall j :: 0 <= j < |actions| ==> AuthenticAction(env, states[j], actions[j])
    ensures forall tx :: tx in states[i].mempool || tx in InFlight(states[i]) ==> env.verifies(tx)
    ensures forall k, tx :: 0 <= k < |states[i].chain| && tx in states[i].chain[k].transfers ==> env.verifies(tx)
  {
    hide Initial, Next, JsonRoundTrips, HandsIn, AuthenticAction, ForeignStore;
    forall j | 0 <= j < |actions| ensures HandsIn(env, env.verifies, states[j], actions[j]) {
      AuthenticHandsIn(env, states[j], actions[j]);
    }
    FreshHeld(env, env.verifies, store, states[0]);
    RunHeld(env, env.verifies, store, states, actions, i);
  }

  lemma FreshHeld(env: Env, p: Transfer -> bool, store: Store, l: Ledger)
    requires Initial(env, store, l) && (store == map[] || ForeignStore(env, store))
    ensures Held(p, l)
  {
    hide Sealed, GenesisCandidate, ForeignStore, MatchesConfig, SelfHashed, MeetsTarget, Startable, MineFinds;
    hide Initialized, LoadVerdict;
    var target, nonce :| Started(env, store, target, l.miner, nonce, l);
    FreshChain(env, store, target, l.miner, nonce, l);
    SealedGenesis(env, target, nonce);
  }
}

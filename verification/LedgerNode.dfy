/** node/ledger.go: LedgerCore, with account objects on the heap. Every method is proved to take the model of
    the ledger to the state that module LedgerModel gives it. The nonce that proof-of-work finds and the clock
    are parameters. */
module LedgerNode {
  import opened Machine
  import opened Text
  import opened Consensus
  import opened Transfers
  import opened Blocks
  import opened Storage
  import opened Accounts
  import opened Conservation
  import opened LedgerModel

  class AccountState {
    var balance: u64
    var nonce: u64

    constructor (balance: u64, nonce: u64)
      ensures this.balance == balance && this.nonce == nonce
    {
      this.balance, this.nonce := balance, nonce;
    }
  }

  function InsertByFee(sorted: seq<Transfer>, tx: Transfer): (r: seq<Transfer>)
    ensures multiset(r) == multiset(sorted) + multiset{tx}
  {
    if sorted == [] || sorted[0].fee < tx.fee then [tx] + sorted
    else
      assert sorted == [sorted[0]] + sorted[1..];
      [sorted[0]] + InsertByFee(sorted[1..], tx)
  }

  lemma {:induction false} InsertKeepsSorted(sorted: seq<Transfer>, tx: Transfer)
    requires SortedByFee(sorted)
    ensures SortedByFee(InsertByFee(sorted, tx))
  {
    if sorted != [] && sorted[0].fee >= tx.fee {
      InsertKeepsSorted(sorted[1..], tx);
      var rest := InsertByFee(sorted[1..], tx);
      hide InsertByFee, SortedByFee;
      HeadIsLargest(sorted);
      forall t | t in rest ensures sorted[0].fee >= t.fee {
        assert t in multiset(rest);
      }
      LargestInFront(sorted[0], rest);
    }
  }

  lemma HeadIsLargest(sorted: seq<Transfer>)
    requires SortedByFee(sorted) && sorted != []
    ensures forall t :: t in sorted[1..] ==> sorted[0].fee >= t.fee
  {
  }

  lemma LargestInFront(first: Transfer, rest: seq<Transfer>)
    requires SortedByFee(rest) && forall t :: t in rest ==> first.fee >= t.fee
    ensures SortedByFee([first] + rest)
  {
  }

  /** sort.Slice on the mempool, highest fee first. It promises no order among equal fees; callers rely only
      on this contract. */
  method SortByFee(txs: seq<Transfer>) returns (sorted: seq<Transfer>)
    ensures SortedByFee(sorted) && multiset(sorted) == multiset(txs)
  {
    sorted := [];
    for i := 0 to |txs|
      invariant SortedByFee(sorted) && multiset(sorted) == multiset(txs[..i])
    {
      InsertKeepsSorted(sorted, txs[i]);
      sorted := InsertByFee(sorted, txs[i]);
      assert txs[..i + 1] == txs[..i] + [txs[i]];
    }
    assert txs[..|txs|] == txs;
  }

  class LedgerCore {
    const env: Env
    const storage: Database
    var chain: seq<LedgerBlock>
    var state: map<string, AccountState>
    var mempool: seq<Transfer>
    var target: u32
    var bits: u32
    var miner: string
    /** The locals of a MineBlock call between its two locked phases. */
    var mining: Option<MiningRun>

    /** No two names share an account object. */
    ghost predicate Separate()
      reads this`state, state.Values
    {
      forall a, b :: a in state && b in state && a != b ==> state[a] != state[b]
    }

    ghost function AccountsOf(): AccountMap
      reads this`state, state.Values
    {
      map a | a in state :: Account(state[a].balance, state[a].nonce)
    }

    ghost function Model(): Ledger
      reads this, state.Values, storage
    {
      Ledger(chain, AccountsOf(), mempool, storage.kv, mining, target, bits, miner)
    }

    constructor (env: Env, storage: Database, target: u32, miner: string)
      ensures Separate() && this.env == env && this.storage == storage && fresh(state.Values)
      ensures Model() == Unloaded(storage.kv, target, miner)
    {
      this.env, this.storage := env, storage;
      chain, state, mempool, mining := [], map[], [], None;
      this.target, this.bits, this.miner := target, GENESIS_BITS, miner;
    }

    // ---- Accounts ----

    method EnsureAccount(a: string) returns (balance: u64)
      requires Separate()
      modifies this`state
      ensures Separate() && fresh(state.Values - old(state.Values)) && a in state
      ensures AccountsOf() == Touch(old(AccountsOf()), a) && balance == BalanceOf(old(AccountsOf()), a)
      ensures balance == state[a].balance
    {
      if a !in state {
        var account := new AccountState(0, 0);
        state := state[a := account];
      }
      balance := state[a].balance;
    }

    /** Writes the fields of one account object; no other account changes. */
    method SetAccount(a: string, balance: u64, nonce: u64)
      requires Separate() && a in state
      modifies state[a]
      ensures Separate()
      ensures AccountsOf() == old(AccountsOf())[a := Account(balance, nonce)]
    {
      state[a].balance := balance;
      state[a].nonce := nonce;
    }

    method DebitAccount(a: string, cost: u64)
      requires Separate()
      modifies this`state, state.Values
      ensures Separate() && fresh(state.Values - old(state.Values))
      ensures AccountsOf() == Debit(old(AccountsOf()), a, cost)
    {
      var balance := EnsureAccount(a);
      SetAccount(a, if balance >= cost then balance - cost else 0, Add64(state[a].nonce, 1));
    }

    method CreditAccount(a: string, value: u64)
      requires Separate()
      modifies this`state, state.Values
      ensures Separate() && fresh(state.Values - old(state.Values))
      ensures AccountsOf() == Credit(old(AccountsOf()), a, value)
    {
      var balance := EnsureAccount(a);
      SetAccount(a, Add64(balance, value), state[a].nonce);
    }

    /** MineBlock's way to pay: a missing account is created with the amount. */
    method PayAccount(a: string, value: u64)
      requires Separate()
      modifies this`state, state.Values
      ensures Separate() && fresh(state.Values - old(state.Values))
      ensures AccountsOf() == Pay(old(AccountsOf()), a, value)
    {
      if a !in state {
        var account := new AccountState(value, 0);
        state := state[a := account];
      } else {
        SetAccount(a, Add64(state[a].balance, value), state[a].nonce);
      }
    }

    method ChargeAccount(a: string, cost: u64)
      requires Separate() && a in state && state[a].balance >= cost
      modifies state[a]
      ensures Separate() && a in old(AccountsOf()) && old(AccountsOf())[a].balance >= cost
      ensures AccountsOf() == Charge(old(AccountsOf()), a, cost)
    {
      SetAccount(a, state[a].balance - cost, Add64(state[a].nonce, 1));
    }

    method RebuildState(block: LedgerBlock)
      requires Separate()
      modifies this`state, state.Values
      ensures Separate() && fresh(state.Values - old(state.Values))
      ensures AccountsOf() == ApplyBlock(old(AccountsOf()), block)
    {
      hide Debit, Credit, Separate, AccountsOf;
      var txs := block.transfers;
      for i := 0 to |txs|
        invariant Separate() && fresh(state.Values - old(state.Values))
        invariant AccountsOf() == ApplyTransfers(old(AccountsOf()), txs[..i])
      {
        DebitAccount(Sender(txs[i]), Cost(txs[i]));
        CreditAccount(txs[i].recipient, txs[i].value);
        assert txs[..i + 1][..i] == txs[..i];
      }
      assert txs[..|txs|] == txs;
      if block.miner != SYSTEM_GENESIS && block.miner != "" {
        var feeTotal: u64 := 0;
        for i := 0 to |txs|
          invariant feeTotal == FeeTotal(txs[..i])
        {
          feeTotal := Add64(feeTotal, txs[i].fee);
          assert txs[..i + 1][..i] == txs[..i];
        }
        var total := Add64(block.reward, feeTotal);
        if total > 0 {
          CreditAccount(block.miner, total);
        }
      }
    }

    // ---- Supply and integrity ----

    method GetTotalCirculatingSupply() returns (total: u64)
      ensures total == CirculatingSupply(chain)
    {
      total := 0;
      for i := 0 to |chain|
        invariant total == CirculatingSupply(chain[..i])
      {
        total := Add64(total, chain[i].reward);
        assert chain[..i + 1][..i] == chain[..i];
      }
      assert chain[..|chain|] == chain;
    }

    /** False where the program panics. */
    method VerifyConsensusIntegrity() returns (ok: bool)
      ensures ok == IntegrityHolds(chain)
      ensures !ok ==> chain != []
    {
      if |chain| == 0 {
        return true;
      }
      for i := 0 to |chain|
        invariant i > 0 ==> VerifyCheckpoint(0, chain[0].hash)
      {
        if !VerifyCheckpoint(i, chain[i].hash) {
          return false;
        }
      }
      var supply := GetTotalCirculatingSupply();
      ok := supply <= MAX_SUPPLY;
    }

    // ---- Start-up ----

    method SpawnGenesis(nonce: u64)
      modifies this`chain, storage
      ensures Model() == Spawned(env, old(Model()), nonce)
    {
      var genesis := Sealed(env, GenesisCandidate(target), bits, nonce);
      chain := chain + [genesis];
      storage.SaveBlock(env, 0, genesis);
    }

    method TakeBlock(block: LedgerBlock)
      requires Separate()
      modifies this`state, this`chain, state.Values
      ensures Separate() && fresh(state.Values - old(state.Values))
      ensures chain == old(chain) + [block]
      ensures AccountsOf() == ApplyBlock(old(AccountsOf()), block)
    {
      hide Separate, AccountsOf, ApplyBlock;
      chain := chain + [block];
      RebuildState(block);
    }

    /** Appends and replays the stored blocks up to the first missing one. */
    method ReadBlocks(last: u64)
      requires Separate() && LastIndex(storage.kv) == Some(last)
      modifies this`state, this`chain, state.Values
      ensures Separate() && fresh(state.Values - old(state.Values))
      ensures chain == old(chain) + StoredBlocks(env, storage.kv)
      ensures AccountsOf() == ApplyChain(old(AccountsOf()), StoredBlocks(env, storage.kv))
    {
      hide ApplyBlock, ApplyChain, Separate, AccountsOf, LastIndex, LoadBlocks, BlockKey;
      NoBlocks(AccountsOf());
      LoadStep(env, storage.kv, last + 1, last);
      var i: nat := 0;
      ghost var blocks: seq<LedgerBlock> := [];
      while i <= last
        invariant 0 <= i <= last + 1
        invariant Separate() && fresh(state.Values - old(state.Values))
        invariant chain == old(chain) + blocks
        invariant AccountsOf() == ApplyChain(old(AccountsOf()), blocks)
        invariant LoadBlocks(env, storage.kv, 0, last) == blocks + LoadBlocks(env, storage.kv, i, last)
        decreases last + 1 - i
      {
        LoadStep(env, storage.kv, i, last);
        var data := storage.GetBlock(i);
        if data.None? {
          break;
        }
        var decoded := env.decodeBlock(data.value);
        if decoded.Some? {
          TakeBlock(decoded.value);
          OneMoreBlock(old(AccountsOf()), blocks, decoded.value);
          assert old(chain) + blocks + [decoded.value] == old(chain) + (blocks + [decoded.value]);
          blocks := blocks + [decoded.value];
        }
        i := i + 1;
      }
      assert blocks == StoredBlocks(env, storage.kv);
    }

    method Forget()
      modifies this`chain, this`state
      ensures Separate() && chain == [] && state == map[] && AccountsOf() == map[]
    {
      chain, state := [], map[];
    }

    method LoadFromDisk(nonce: u64) returns (outcome: LoadOutcome)
      requires Separate()
      modifies this`state, this`chain, state.Values, storage
      ensures Separate() && fresh(state.Values - old(state.Values))
      ensures outcome == LoadVerdict(env, old(Model()))
      ensures Model() == AfterLoad(env, old(Model()), nonce)
    {
      hide ApplyChain, Spawned, MatchesConfig, IntegrityHolds, LastIndex, LoadBlocks, Separate, AccountsOf;
      NoBlocks(AccountsOf());
      var index := storage.GetLastIndex();
      if index.None? {
        return NoChain;
      }
      ReadBlocks(index.value);
      if |chain| > 0 && !MatchesConfig(chain[0]) {
        Forget();
        storage.ClearAll();
        SpawnGenesis(nonce);
        return Respawned;
      }
      var ok := VerifyConsensusIntegrity();
      if !ok {
        return Halted;
      }
      outcome := if |chain| > 0 then Loaded else NoChain;
    }

    // ---- Mempool ----

    /** Overwrites the sender's nonce, creating an empty account if there is none. */
    method NoteNonce(a: string, nonce: u64)
      requires Separate()
      modifies this`state, state.Values
      ensures Separate() && fresh(state.Values - old(state.Values))
      ensures AccountsOf() == old(AccountsOf())[a := Account(BalanceOf(old(AccountsOf()), a), nonce)]
    {
      if a !in state {
        var account := new AccountState(0, nonce);
        state := state[a := account];
      }
      if state[a].nonce != nonce {
        SetAccount(a, state[a].balance, nonce);
      }
    }

    method AddToMempool(tx: Transfer) returns (accepted: bool)
      requires Separate()
      modifies this`state, this`mempool, state.Values
      ensures Separate() && fresh(state.Values - old(state.Values))
      ensures accepted <==> "xcosh" <= tx.recipient && env.verifies(tx)
      ensures !accepted ==> Model() == old(Model())
      ensures Submitted(env, old(Model()), tx, Model())
    {
      hide Separate, AccountsOf, SortedByFee, Sender;
      if !HasPrefix(tx.recipient, ADDRESS_PREFIX) {
        return false;
      }
      if !env.verifies(tx) {
        return false;
      }
      NoteNonce(Sender(tx), tx.nonce);
      mempool := SortByFee(mempool + [tx]);
      accepted := true;
    }

    // ---- MineBlock ----

    /** The selection loop has handled `seen` and the size limit has not ended it. */
    ghost predicate Picking(m: AccountMap, seen: seq<Transfer>, picked: seq<Transfer>, bytes: nat)
      reads this`state, state.Values
    {
      Select(env, m, seen) == Selection(AccountsOf(), picked, bytes, Select(env, m, seen).skipped, false)
    }

    /** One round of the loop that does not end it. */
    method ConsiderTransfer(ghost m: AccountMap, ghost seen: seq<Transfer>, ghost picked: seq<Transfer>, bytes: nat,
        tx: Transfer)
      returns (taken: bool)
      requires Separate() && Picking(m, seen, picked, bytes)
      requires bytes + |env.encodeTransfer(tx)| <= MAX_BLOCK_SIZE_BYTES
      modifies this`state, state.Values
      ensures Separate() && fresh(state.Values - old(state.Values))
      ensures if taken then Picking(m, seen + [tx], picked + [tx], bytes + |env.encodeTransfer(tx)|)
              else Picking(m, seen + [tx], picked, bytes)
    {
      hide Charge, Pay, Separate, Sender, AccountsOf;
      ConsiderStep(env, Select(env, m, seen), tx);
      assert (seen + [tx])[..|seen|] == seen;
      var sender := Sender(tx);
      var balance := EnsureAccount(sender);
      if balance < Cost(tx) {
        return false;
      }
      ChargeAccount(sender, Cost(tx));
      PayAccount(tx.recipient, tx.value);
      taken := true;
    }

    method SelectTransfers() returns (picked: seq<Transfer>, feeTotal: u64)
      requires Separate()
      modifies this`state, state.Values
      ensures Separate() && fresh(state.Values - old(state.Values))
      ensures var s := Select(env, old(AccountsOf()), mempool);
              AccountsOf() == s.accounts && picked == s.picked && feeTotal == FeeTotal(picked)
    {
      hide Separate, AccountsOf, Consider;
      ghost var m := AccountsOf();
      var bytes: nat := BLOCK_OVERHEAD_BYTES;
      picked, feeTotal := [], 0;
      for i := 0 to |mempool|
        invariant Separate() && fresh(state.Values - old(state.Values))
        invariant Picking(m, mempool[..i], picked, bytes) && feeTotal == FeeTotal(picked)
      {
        var tx := mempool[i];
        assert mempool[..i + 1] == mempool[..i] + [tx];
        if bytes + |env.encodeTransfer(tx)| > MAX_BLOCK_SIZE_BYTES {
          SelectionEnds(env, m, mempool, i);
          return;
        }
        var taken := ConsiderTransfer(m, mempool[..i], picked, bytes, tx);
        if taken {
          assert (picked + [tx])[..|picked|] == picked;
          feeTotal := Add64(feeTotal, tx.fee);
          bytes := bytes + |env.encodeTransfer(tx)|;
          picked := picked + [tx];
        }
      }
      assert mempool[..|mempool|] == mempool;
    }

    /** MineBlock up to its first Unlock: picks the transfers, charges for them and trims the mempool by their
        number. False where the program panics. */
    method BeginMining() returns (ok: bool)
      requires Separate() && chain != []
      modifies this`state, this`mempool, this`mining, state.Values
      ensures Separate() && fresh(state.Values - old(state.Values))
      ensures ok == MayMine(miner)
      ensures Model() == if ok then Begun(env, old(Model())) else old(Model())
    {
      hide Select, FeeTotal;
      if miner != SYSTEM_GENESIS && !HasPrefix(miner, ADDRESS_PREFIX) {
        return false;
      }
      var parent := chain[|chain| - 1];
      SelectPartitions(env, AccountsOf(), mempool);
      var picked, feeTotal := SelectTransfers();
      if |picked| > 0 {
        mempool := mempool[|picked|..];
      }
      mining := Some(MiningRun(parent, picked, feeTotal));
      ok := true;
    }

    /** Assembles and seals the next block. */
    method SealBlock(run: MiningRun, currentSupply: u64, now: i64, nonce: u64) returns (block: LedgerBlock)
      requires mining == Some(run) && currentSupply == CirculatingSupply(chain)
      requires NonceFound(env, Model(), now, nonce)
      modifies this`target
      ensures block == MinedBlock(env, old(Model()), now, nonce) && target == block.difficulty
    {
      hide AllowedReward, CalculateNextDifficulty, AssembleBlockData, CirculatingSupply, CalculateBlockReward;
      hide AccountsOf;
      var parent := run.parent;
      var index := Add64(parent.index, 1);
      var reward := AllowedReward(index, currentSupply);
      var time := if now <= parent.timestamp then WrapInt64(parent.timestamp + 1) else now;
      target := Wrap32(CalculateNextDifficulty(parent.timestamp, time, parent.difficulty));
      var candidate := LedgerBlock(index, time, parent.hash, "", run.transfers, miner, 0, target, bits, reward,
                                   MAX_SUPPLY, HALVING_INTERVAL, "");
      block := Sealed(env, candidate, bits, nonce);
    }

    /** MineBlock from its first Unlock on. False where validation of the own block makes the program panic; by
        then the engine's target has changed. */
    method FinishMining(now: i64, nonce: u64) returns (ok: bool)
      requires Separate() && mining.Some?
      requires NonceFound(env, Model(), now, nonce)
      modifies this`chain, this`state, this`mining, this`target, state.Values, storage
      ensures Separate() && fresh(state.Values - old(state.Values))
      ensures ok == PassesValidation(env, old(Model()), now, nonce)
      ensures ok ==> Model() == Finished(env, old(Model()), now, nonce)
      ensures !ok ==> Model() == old(Model()).(target := MinedBlock(env, old(Model()), now, nonce).difficulty)
    {
      hide MinedBlock, CirculatingSupply, Rewarded, ValidateBlockConsensus, Separate, AccountsOf, NonceFound;
      hide Saved, Add64;
      var run := mining.value;
      var currentSupply := GetTotalCirculatingSupply();
      var block := SealBlock(run, currentSupply, now, nonce);
      if ValidateBlockConsensus(env, block, Some(run.parent), currentSupply) != Valid {
        return false;
      }
      chain := chain + [block];
      storage.SaveBlock(env, block.index, block);
      PayReward(Add64(block.reward, run.feeTotal));
      mining := None;
      ok := true;
    }

    method PayReward(total: u64)
      requires Separate()
      modifies this`state, state.Values
      ensures Separate() && fresh(state.Values - old(state.Values))
      ensures AccountsOf() == Rewarded(old(AccountsOf()), miner, total)
    {
      if total > 0 {
        PayAccount(miner, total);
      }
    }

    // ---- Reorganisation ----

    method AppendBlockDirectly(block: LedgerBlock) returns (ok: bool)
      requires Separate()
      modifies this`chain, this`state, state.Values, storage
      ensures Separate() && fresh(state.Values - old(state.Values))
      ensures ok == AppendAccepted(env, old(Model()), block)
      ensures Model() == Appended(env, old(Model()), block)
    {
      hide ValidateBlockConsensus, ApplyBlock, CirculatingSupply, Separate, AccountsOf;
      var parent := LatestBlock(chain);
      if parent.Some? && block.prevHash != parent.value.hash {
        return false;
      }
      var supply := GetTotalCirculatingSupply();
      if ValidateBlockConsensus(env, block, parent, supply) != Valid {
        return false;
      }
      chain := chain + [block];
      storage.SaveBlock(env, block.index, block);
      RebuildState(block);
      ok := true;
    }

    /** Puts the transfers in front of the mempool, one after the other. */
    method ReturnTransfers(txs: seq<Transfer>)
      modifies this`mempool
      ensures mempool == Returned(txs, old(mempool))
    {
      for i := 0 to |txs|
        invariant mempool == Returned(txs[..i], old(mempool))
      {
        mempool := [txs[i]] + mempool;
        assert txs[..i + 1][..i] == txs[..i];
      }
      assert txs[..|txs|] == txs;
    }

    method ReplayChain()
      modifies this`state
      ensures Separate() && fresh(state.Values) && AccountsOf() == Replay(chain)
    {
      hide ApplyBlock;
      state := map[];
      for i := 0 to |chain|
        invariant Separate() && fresh(state.Values)
        invariant AccountsOf() == ApplyChain(map[], chain[..i])
      {
        RebuildState(chain[i]);
        assert chain[..i + 1][..i] == chain[..i];
      }
      assert chain[..|chain|] == chain;
    }

    method RollbackBlock() returns (ok: bool)
      requires Separate()
      modifies this`chain, this`state, this`mempool, storage
      ensures Separate() && (ok ==> fresh(state.Values)) && (!ok ==> state == old(state))
      ensures ok <==> old(|chain|) > 1
      ensures Model() == RolledBack(old(Model()))
    {
      hide Replay, Returned, AccountsOf, Separate, Deleted;
      if |chain| <= 1 {
        return false;
      }
      var tip := chain[|chain| - 1];
      ReturnTransfers(tip.transfers);
      chain := chain[..|chain| - 1];
      storage.DeleteBlock(tip.index);
      ReplayChain();
      ok := true;
    }
  }

  lemma NoBlocks(m: AccountMap)
    ensures ApplyChain(m, []) == m
  {
  }

  lemma OneMoreBlock(m: AccountMap, blocks: seq<LedgerBlock>, b: LedgerBlock)
    ensures ApplyChain(m, blocks + [b]) == ApplyBlock(ApplyChain(m, blocks), b)
  {
    assert (blocks + [b])[..|blocks|] == blocks;
  }

  lemma LoadStep(env: Env, kv: Store, i: nat, last: u64)
    ensures LoadBlocks(env, kv, i, last)
         == if i > last || BlockKey(i) !in kv then []
            else
              match env.decodeBlock(kv[BlockKey(i)])
              case Some(b) => [b] + LoadBlocks(env, kv, i + 1, last)
              case None => LoadBlocks(env, kv, i + 1, last)
  {
  }

  lemma SelectionEnds(env: Env, m: AccountMap, pool: seq<Transfer>, i: nat)
    requires i < |pool|
    requires Select(env, m, pool[..i]).bytes + |env.encodeTransfer(pool[i])| > MAX_BLOCK_SIZE_BYTES
    ensures Select(env, m, pool) == Select(env, m, pool[..i]).(full := true)
  {
    assert pool[..i + 1][..i] == pool[..i];
    SelectPrefix(env, m, pool, i + 1);
  }

  /** Opens a ledger on a database: loads the stored chain, or spawns a genesis block when there is none. */
  method InitializeLedger(env: Env, storage: Database, initialDifficulty: u32, miner: string, nonce: u64)
    returns (ledger: LedgerCore, outcome: LoadOutcome)
    modifies storage
    ensures fresh(ledger) && ledger.Separate() && ledger.env == env && ledger.storage == storage
    ensures var target := if initialDifficulty == 0 then 1 else initialDifficulty;
            && ledger.Model() == Initialized(env, old(storage.kv), target, miner, nonce)
            && outcome == LoadVerdict(env, Unloaded(old(storage.kv), target, miner))
  {
    hide LoadVerdict, AfterLoad, Spawned;
    var target := if initialDifficulty == 0 then 1 else initialDifficulty;
    ledger := new LedgerCore(env, storage, target, miner);
    outcome := ledger.LoadFromDisk(nonce);
    if outcome == NoChain {
      AfterNoChain(env, Unloaded(old(storage.kv), target, miner), nonce);
      ledger.SpawnGenesis(nonce);
    }
  }

  lemma AfterNoChain(env: Env, l: Ledger, nonce: u64)
    requires LoadVerdict(env, l) == NoChain
    ensures AfterLoad(env, l, nonce) == l
  {
    hide LoadVerdict;
  }
}

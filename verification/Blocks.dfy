/** core/block.go and core/validator.go: blocks, the bytes that are hashed, what Mine fills in and returns,
    and the validation of a block against its parent. */
module Blocks {
  import opened Machine
  import opened Text
  import opened Consensus
  import opened Transfers

  datatype LedgerBlock = LedgerBlock(
    index: u64, timestamp: i64, prevHash: string, hash: string, transfers: seq<Transfer>, miner: string, nonce: u64,
    difficulty: u32, bits: u32, reward: u64, maxSupply: u64, halvingInterval: u64, message: string)

  const SYSTEM_GENESIS := "SYSTEM_GENESIS"

  /** The libraries the program calls: Keccak-256, encoding/json and Dilithium signatures. */
  datatype Env = Env(
    keccak: string -> string,
    encodeBlock: LedgerBlock -> string,
    decodeBlock: string -> Option<LedgerBlock>,
    encodeTransfer: Transfer -> string,
    verifies: Transfer -> bool)

  /** JSON gives back the block that was written. */
  ghost predicate JsonRoundTrips(env: Env) {
    forall b: LedgerBlock :: env.decodeBlock(env.encodeBlock(b)) == Some(b)
  }

  function Signatures(transfers: seq<Transfer>): string {
    if transfers == [] then "" else transfers[0].signature + Signatures(transfers[1..])
  }

  function AssembleBlockData(b: LedgerBlock, nonce: u64): string {
    b.prevHash + Signatures(b.transfers) + FormatUint(b.index, 16) + FormatInt(b.timestamp, 16)
    + FormatUint(b.reward, 16)
    + FormatUint(if b.maxSupply == 0 then MAX_SUPPLY else b.maxSupply, 16)
    + FormatUint(if b.halvingInterval == 0 then HALVING_INTERVAL else b.halvingInterval, 16)
    + FormatUint(b.difficulty, 16) + FormatUint(nonce, 16) + b.message
  }

  /** The hashed bytes do not depend on the block's own nonce and hash fields. */
  lemma AssembleIgnoresSeal(b: LedgerBlock, n: u64, hash: string, nonce: u64)
    ensures AssembleBlockData(b.(nonce := n, hash := hash), nonce) == AssembleBlockData(b, nonce)
  {
  }

  // ---- What the hashed bytes commit to ----

  /** The bytes begin with the parent's hash and the signatures. */
  lemma DataBegins(b: LedgerBlock, nonce: u64)
    ensures b.prevHash + Signatures(b.transfers) <= AssembleBlockData(b, nonce)
  {
    hide FormatUint, FormatInt, Signatures;
  }

  function Policy(b: LedgerBlock): (u64, u64) {
    (if b.maxSupply == 0 then MAX_SUPPLY else b.maxSupply,
     if b.halvingInterval == 0 then HALVING_INTERVAL else b.halvingInterval)
  }

  function Parts(b: LedgerBlock, nonce: u64): (parts: seq<string>)
    ensures |parts| == 10
  {
    [b.prevHash, Signatures(b.transfers), FormatUint(b.index, 16), FormatInt(b.timestamp, 16),
     FormatUint(b.reward, 16), FormatUint(Policy(b).0, 16), FormatUint(Policy(b).1, 16),
     FormatUint(b.difficulty, 16), FormatUint(nonce, 16), b.message]
  }

  function Concat(parts: seq<string>): string {
    if parts == [] then "" else Concat(parts[..|parts| - 1]) + parts[|parts| - 1]
  }

  lemma {:induction false} ConcatUpTo(parts: seq<string>, k: nat)
    requires k < |parts|
    ensures Concat(parts[..k + 1]) == Concat(parts[..k]) + parts[k]
  {
    assert parts[..k + 1][..k] == parts[..k];
  }

  lemma DataIsConcat(b: LedgerBlock, nonce: u64)
    ensures AssembleBlockData(b, nonce) == Concat(Parts(b, nonce))
  {
    var p := Parts(b, nonce);
    assert AssembleBlockData(b, nonce) == p[0] + p[1] + p[2] + p[3] + p[4] + p[5] + p[6] + p[7] + p[8] + p[9] by {
      hide FormatUint, FormatInt, Signatures;
    }
    hide Parts, AssembleBlockData;
    TenParts(p);
  }

  lemma TenParts(p: seq<string>)
    requires |p| == 10
    ensures Concat(p) == p[0] + p[1] + p[2] + p[3] + p[4] + p[5] + p[6] + p[7] + p[8] + p[9]
  {
    assert p[..0] == [] && p[..10] == p;
    assert Concat([]) == "";
    hide Concat;
    ConcatUpTo(p, 0);
    assert Concat(p[..1]) == p[0];
    ConcatUpTo(p, 1);
    ConcatUpTo(p, 2);
    ConcatUpTo(p, 3);
    ConcatUpTo(p, 4);
    ConcatUpTo(p, 5);
    ConcatUpTo(p, 6);
    ConcatUpTo(p, 7);
    ConcatUpTo(p, 8);
    ConcatUpTo(p, 9);
  }

  /** Joining without separators hides no change of a single part. */
  lemma {:induction false} OnePartShows(p: seq<string>, q: seq<string>, k: nat)
    requires |p| == |q| && k < |p| && (forall i :: 0 <= i < |p| && i != k ==> p[i] == q[i])
    requires Concat(p) == Concat(q)
    ensures p == q
  {
    var n := |p| - 1;
    var x, y := Concat(p[..n]), Concat(q[..n]);
    if k == n {
      assert p[..n] == q[..n];
      assert p[n] == (x + p[n])[|x|..] && q[n] == (x + q[n])[|x|..];
    } else {
      assert x == (x + p[n])[..|x|] && y == (y + q[n])[..|y|];
      OnePartShows(p[..n], q[..n], k);
      assert p == p[..n] + [p[n]] && q == q[..n] + [q[n]];
    }
  }

  lemma OneChangeShows(b: LedgerBlock, n: u64, c: LedgerBlock, m: u64, k: nat)
    requires k < 10 && forall i :: 0 <= i < 10 && i != k ==> Parts(b, n)[i] == Parts(c, m)[i]
    requires AssembleBlockData(b, n) == AssembleBlockData(c, m)
    ensures Parts(b, n) == Parts(c, m)
  {
    DataIsConcat(b, n);
    DataIsConcat(c, m);
    hide Parts, Concat, AssembleBlockData;
    OnePartShows(Parts(b, n), Parts(c, m), k);
  }

  /** A change of the parent's hash alone changes the bytes that are hashed. */
  lemma ParentChangesData(b: LedgerBlock, prevHash: string, nonce: u64)
    ensures AssembleBlockData(b.(prevHash := prevHash), nonce) == AssembleBlockData(b, nonce) ==> prevHash == b.prevHash
  {
    hide FormatUint, FormatInt, Signatures, AssembleBlockData;
    var c := b.(prevHash := prevHash);
    if AssembleBlockData(c, nonce) == AssembleBlockData(b, nonce) {
      OneChangeShows(c, nonce, b, nonce, 0);
      assert Parts(c, nonce)[0] == prevHash;
    }
  }

  lemma {:induction false} OneSignatureShows(txs: seq<Transfer>, us: seq<Transfer>, i: nat)
    requires |txs| == |us| && i < |txs|
    requires forall j :: 0 <= j < |txs| && j != i ==> txs[j].signature == us[j].signature
    ensures Signatures(txs) == Signatures(us) <==> txs[i].signature == us[i].signature
  {
    var x, y := txs[0].signature, us[0].signature;
    var p, q := Signatures(txs[1..]), Signatures(us[1..]);
    if i == 0 {
      SameSignatures(txs[1..], us[1..]);
      assert x == (x + p)[..|x|] && y == (y + p)[..|y|];
    } else {
      OneSignatureShows(txs[1..], us[1..], i - 1);
      assert p == (x + p)[|x|..] && q == (x + q)[|x|..];
    }
  }

  lemma {:induction false} SameSignatures(txs: seq<Transfer>, us: seq<Transfer>)
    requires |txs| == |us| && forall j :: 0 <= j < |txs| ==> txs[j].signature == us[j].signature
    ensures Signatures(txs) == Signatures(us)
  {
    if txs != [] {
      SameSignatures(txs[1..], us[1..]);
    }
  }

  /** So does a change of one transfer if and only if it changes its signature: of a transfer the bytes hold nothing
      else. */
  lemma SignatureChangesData(b: LedgerBlock, i: nat, tx: Transfer, nonce: u64)
    requires i < |b.transfers|
    ensures AssembleBlockData(b.(transfers := b.transfers[i := tx]), nonce) == AssembleBlockData(b, nonce)
       <==> tx.signature == b.transfers[i].signature
  {
    var c := b.(transfers := b.transfers[i := tx]);
    OneSignatureShows(c.transfers, b.transfers, i);
    hide FormatUint, FormatInt, Signatures;
    if AssembleBlockData(c, nonce) == AssembleBlockData(b, nonce) {
      hide AssembleBlockData;
      OneChangeShows(c, nonce, b, nonce, 1);
      assert Parts(c, nonce)[1] == Signatures(c.transfers);
    }
  }

  lemma IndexChangesData(b: LedgerBlock, index: u64, nonce: u64)
    ensures AssembleBlockData(b.(index := index), nonce) == AssembleBlockData(b, nonce) ==> index == b.index
  {
    hide FormatUint, FormatInt, Signatures, AssembleBlockData;
    var c := b.(index := index);
    if AssembleBlockData(c, nonce) == AssembleBlockData(b, nonce) {
      OneChangeShows(c, nonce, b, nonce, 2);
      assert Parts(c, nonce)[2] == FormatUint(index, 16);
      FormatUintInjective(index, b.index, 16);
    }
  }

  lemma TimestampChangesData(b: LedgerBlock, timestamp: i64, nonce: u64)
    ensures AssembleBlockData(b.(timestamp := timestamp), nonce) == AssembleBlockData(b, nonce) ==>
              timestamp == b.timestamp
  {
    hide FormatUint, FormatInt, Signatures, AssembleBlockData;
    var c := b.(timestamp := timestamp);
    if AssembleBlockData(c, nonce) == AssembleBlockData(b, nonce) {
      OneChangeShows(c, nonce, b, nonce, 3);
      assert Parts(c, nonce)[3] == FormatInt(timestamp, 16);
      FormatIntInjective(timestamp, b.timestamp, 16);
    }
  }

  /** A change of the reward alone changes the bytes that are hashed. */
  lemma RewardChangesData(b: LedgerBlock, reward: u64, nonce: u64)
    ensures AssembleBlockData(b.(reward := reward), nonce) == AssembleBlockData(b, nonce) ==> reward == b.reward
  {
    hide FormatUint, FormatInt, Signatures, AssembleBlockData;
    var c := b.(reward := reward);
    if AssembleBlockData(c, nonce) == AssembleBlockData(b, nonce) {
      OneChangeShows(c, nonce, b, nonce, 4);
      assert Parts(c, nonce)[4] == FormatUint(reward, 16);
      FormatUintInjective(reward, b.reward, 16);
    }
  }

  /** A change of one of the policy fields alone changes the bytes, except between zero and the default it stands
      for. */
  lemma PolicyChangesData(b: LedgerBlock, maxSupply: u64, halvingInterval: u64, nonce: u64)
    ensures AssembleBlockData(b.(maxSupply := maxSupply), nonce) == AssembleBlockData(b, nonce)
       <==> maxSupply == b.maxSupply || {maxSupply, b.maxSupply} == {0, MAX_SUPPLY}
    ensures AssembleBlockData(b.(halvingInterval := halvingInterval), nonce) == AssembleBlockData(b, nonce)
       <==> halvingInterval == b.halvingInterval || {halvingInterval, b.halvingInterval} == {0, HALVING_INTERVAL}
  {
    hide FormatUint, FormatInt, Signatures;
    var c, d := b.(maxSupply := maxSupply), b.(halvingInterval := halvingInterval);
    assert maxSupply == b.maxSupply || {maxSupply, b.maxSupply} == {0, MAX_SUPPLY} <==> Policy(c).0 == Policy(b).0;
    assert halvingInterval == b.halvingInterval || {halvingInterval, b.halvingInterval} == {0, HALVING_INTERVAL}
      <==> Policy(d).1 == Policy(b).1;
    if AssembleBlockData(c, nonce) == AssembleBlockData(b, nonce) {
      OneChangeShows(c, nonce, b, nonce, 5);
      assert Parts(c, nonce)[5] == FormatUint(Policy(c).0, 16);
      FormatUintInjective(Policy(c).0, Policy(b).0, 16);
    }
    if AssembleBlockData(d, nonce) == AssembleBlockData(b, nonce) {
      OneChangeShows(d, nonce, b, nonce, 6);
      assert Parts(d, nonce)[6] == FormatUint(Policy(d).1, 16);
      FormatUintInjective(Policy(d).1, Policy(b).1, 16);
    }
  }

  lemma DifficultyChangesData(b: LedgerBlock, difficulty: u32, nonce: u64)
    ensures AssembleBlockData(b.(difficulty := difficulty), nonce) == AssembleBlockData(b, nonce) ==>
              difficulty == b.difficulty
  {
    hide FormatUint, FormatInt, Signatures, AssembleBlockData;
    var c := b.(difficulty := difficulty);
    if AssembleBlockData(c, nonce) == AssembleBlockData(b, nonce) {
      OneChangeShows(c, nonce, b, nonce, 7);
      assert Parts(c, nonce)[7] == FormatUint(difficulty, 16);
      FormatUintInjective(difficulty, b.difficulty, 16);
    }
  }

  /** Different nonces of one block give different bytes to hash. */
  lemma NonceChangesData(b: LedgerBlock, n: u64, n': u64)
    ensures AssembleBlockData(b, n) == AssembleBlockData(b, n') ==> n == n'
  {
    hide FormatUint, FormatInt, Signatures, AssembleBlockData;
    if AssembleBlockData(b, n) == AssembleBlockData(b, n') {
      OneChangeShows(b, n, b, n', 8);
      assert Parts(b, n)[8] == FormatUint(n, 16) && Parts(b, n')[8] == FormatUint(n', 16);
      FormatUintInjective(n, n', 16);
    }
  }

  lemma MessageChangesData(b: LedgerBlock, message: string, nonce: u64)
    ensures AssembleBlockData(b.(message := message), nonce) == AssembleBlockData(b, nonce) ==> message == b.message
  {
    hide FormatUint, FormatInt, Signatures, AssembleBlockData;
    var c := b.(message := message);
    if AssembleBlockData(c, nonce) == AssembleBlockData(b, nonce) {
      OneChangeShows(c, nonce, b, nonce, 9);
      assert Parts(c, nonce)[9] == message;
    }
  }

  /** The miner and the bits are not in the bytes. */
  lemma DataIgnoresMiner(b: LedgerBlock, miner: string, bits: u32, nonce: u64)
    ensures AssembleBlockData(b.(miner := miner, bits := bits), nonce) == AssembleBlockData(b, nonce)
  {
  }

  predicate MeetsTarget(hash: string, difficulty: u32) { ValidatePoW(HexEncode(hash), difficulty) }

  /** The fields Mine fills in before it hashes. */
  function Prepared(b: LedgerBlock, bits: u32): LedgerBlock {
    b.(reward := if b.reward == 0 && b.index > 0 then CalculateBlockReward(b.index) else b.reward,
       maxSupply := if b.maxSupply == 0 then MAX_SUPPLY else b.maxSupply,
       halvingInterval := if b.halvingInterval == 0 then HALVING_INTERVAL else b.halvingInterval,
       bits := if b.bits == 0 then bits else b.bits)
  }

  /** What Mine returns: a nonce whose hash over the prepared block meets the engine's target. The workers
      that search for it are in module MiningWorkers. */
  predicate MineFinds(env: Env, b: LedgerBlock, bits: u32, target: u32, nonce: u64) {
    MeetsTarget(env.keccak(AssembleBlockData(Prepared(b, bits), nonce)), target)
  }

  /** A block's stored hash is the hash of its own final fields. */
  predicate SelfHashed(env: Env, b: LedgerBlock) { b.hash == env.keccak(AssembleBlockData(b, b.nonce)) }

  datatype Verdict =
    | Valid | BadIndex | BadTimestamp | BrokenLink | NonZeroGenesis | BadMiner | BadProofOfWork
    | BadMaxSupply | BadHalvingInterval | TooLarge | BadReward

  function ValidateBlockConsensus(env: Env, block: LedgerBlock, parent: Option<LedgerBlock>, supply: u64): Verdict {
    if parent.Some? && block.index != Add64(parent.value.index, 1) then BadIndex
    else if parent.Some? && block.timestamp <= parent.value.timestamp then BadTimestamp
    else if parent.Some? && block.prevHash != parent.value.hash then BrokenLink
    else if parent.None? && block.index != 0 then NonZeroGenesis
    else if block.index > 0 && block.miner != SYSTEM_GENESIS && !HasPrefix(block.miner, ADDRESS_PREFIX) then BadMiner
    else if !MeetsTarget(block.hash, block.difficulty) then BadProofOfWork
    else if block.maxSupply != 0 && block.maxSupply != MAX_SUPPLY then BadMaxSupply
    else if block.halvingInterval != 0 && block.halvingInterval != HALVING_INTERVAL then BadHalvingInterval
    else if |env.encodeBlock(block)| > MAX_BLOCK_SIZE_BYTES then TooLarge
    else if block.reward != AllowedReward(block.index, supply) then BadReward
    else Valid
  }

  /** What Mine fills in: a missing reward by the schedule, after genesis, and missing policy fields, which changes
      no hashed byte. */
  lemma PreparingKeepsData(b: LedgerBlock, bits: u32, nonce: u64)
    ensures var p := Prepared(b, bits);
            && AssembleBlockData(p, nonce) == AssembleBlockData(b.(reward := p.reward), nonce)
            && p.reward == (if b.reward > 0 || b.index == 0 then b.reward else CalculateBlockReward(b.index))
            && p.maxSupply > 0 && p.halvingInterval > 0 && (p.bits > 0 || bits == 0)
            && p == b.(reward := p.reward, maxSupply := p.maxSupply, halvingInterval := p.halvingInterval,
                       bits := p.bits)
  {
    hide FormatUint, FormatInt, Signatures, CalculateBlockReward;
  }

  /** A block is valid on a parent, or as genesis without one, exactly if all of this holds of its fields. */
  lemma ValidatesExactly(env: Env, b: LedgerBlock, parent: Option<LedgerBlock>, supply: u64)
    ensures ValidateBlockConsensus(env, b, parent, supply) == Valid <==>
              && (parent.None? ==> b.index == 0)
              && (parent.Some? ==>
                    && b.index == Add64(parent.value.index, 1) && b.prevHash == parent.value.hash
                    && b.timestamp > parent.value.timestamp)
              && (b.index == 0 || b.miner == "SYSTEM_GENESIS" || "xcosh" <= b.miner)
              && ValidatePoW(HexEncode(b.hash), b.difficulty)
              && b.maxSupply in {0, 78_500_000_000_000_000} && b.halvingInterval in {0, 7_850_000}
              && |env.encodeBlock(b)| <= 4_194_304
              && b.reward == if supply >= MAX_SUPPLY then 0
                             else if CalculateBlockReward(b.index) <= MAX_SUPPLY - supply
                             then CalculateBlockReward(b.index) else MAX_SUPPLY - supply
  {
    hide ValidatePoW, HexEncode, CalculateBlockReward;
  }

  /** In particular a hash of 32 bytes has to begin with enough zero bits. */
  lemma ValidHashHasZeros(env: Env, b: LedgerBlock, parent: Option<LedgerBlock>, supply: u64)
    requires IsBytes(b.hash) && |b.hash| == 32
    ensures ValidateBlockConsensus(env, b, parent, supply) == Valid ==>
              LeadingZeroBits(b.hash)
              >= if b.difficulty <= 1 then 20 else if b.difficulty <= 236 then 20 + b.difficulty else 256
  {
    PoWCountsZeroBits(b.hash, b.difficulty);
    hide ValidatePoW, LeadingZeroBits, AllowedReward, HexEncode;
  }
}

/** storage/db.go over a map from keys to values: LevelDB without its errors. */
module Storage {
  import opened Machine
  import opened Text
  import opened Blocks

  type Store = map<string, string>

  const LAST_INDEX := "last_index"

  function BlockKey(index: nat): string { "block_" + FormatUint(index, 10) }

  lemma BlockKeysDistinct(i: nat, j: nat)
    ensures BlockKey(i) == BlockKey(j) <==> i == j
    ensures BlockKey(i) != LAST_INDEX
    ensures "block_" <= BlockKey(i) && ParseDigits(BlockKey(i)[6..], 10) == Some(i)
  {
    FormatUintParses(i, 10);
    assert BlockKey(i)[6..] == FormatUint(i, 10);
    assert BlockKey(i)[0] == 'b' && LAST_INDEX[0] == 'l';
    if BlockKey(i) == BlockKey(j) {
      assert FormatUint(i, 10) == BlockKey(i)[6..] == BlockKey(j)[6..] == FormatUint(j, 10);
      FormatUintInjective(i, j, 10);
    }
  }

  // ---- What each operation leaves in the store ----

  function Saved(kv: Store, index: u64, data: string): Store {
    kv[BlockKey(index) := data][LAST_INDEX := FormatUint(index, 10)]
  }

  function Deleted(kv: Store, index: u64): Store {
    if index > 0 then (kv - {BlockKey(index)})[LAST_INDEX := FormatUint(index - 1, 10)]
    else kv - {BlockKey(index), LAST_INDEX}
  }

  function LastIndex(kv: Store): Option<u64> {
    if LAST_INDEX in kv then ParseUint(kv[LAST_INDEX]) else None
  }

  function Stored(kv: Store, index: u64): Option<string> {
    if BlockKey(index) in kv then Some(kv[BlockKey(index)]) else None
  }

  /** What was saved last is what is read back, and no other block is disturbed. */
  lemma SavedIsRead(kv: Store, index: u64, data: string, other: u64)
    ensures LastIndex(Saved(kv, index, data)) == Some(index)
    ensures Stored(Saved(kv, index, data), other) == if other == index then Some(data) else Stored(kv, other)
  {
    BlockKeysDistinct(index, other);
    BlockKeysDistinct(other, index);
    ParseUintInvertsFormat(index);
  }

  /** A deleted block is not read back, the block before it is the last one, and no other is disturbed. */
  lemma DeletedIsGone(kv: Store, index: u64, other: u64)
    ensures LastIndex(Deleted(kv, index)) == if index > 0 then Some(index - 1) else None
    ensures Stored(Deleted(kv, index), other) == if other == index then None else Stored(kv, other)
  {
    BlockKeysDistinct(index, other);
    BlockKeysDistinct(other, index);
    if index > 0 {
      ParseUintInvertsFormat(index - 1);
    }
  }

  class Database {
    var kv: Store

    constructor ()
      ensures kv == map[]
    {
      kv := map[];
    }

    method SaveBlock(env: Env, index: u64, block: LedgerBlock)
      modifies this
      ensures kv == Saved(old(kv), index, env.encodeBlock(block))
    {
      var data := env.encodeBlock(block);
      kv := kv[BlockKey(index) := data];
      kv := kv[LAST_INDEX := FormatUint(index, 10)];
    }

    method GetLastIndex() returns (last: Option<u64>)
      ensures last == LastIndex(kv)
    {
      if LAST_INDEX !in kv {
        return None;
      }
      last := ParseUint(kv[LAST_INDEX]);
    }

    method GetBlock(index: u64) returns (data: Option<string>)
      ensures data == Stored(kv, index)
    {
      var key := BlockKey(index);
      data := if key in kv then Some(kv[key]) else None;
    }

    method DeleteBlock(index: u64)
      modifies this
      ensures kv == Deleted(old(kv), index)
    {
      kv := kv - {BlockKey(index)};
      if index > 0 {
        kv := kv[LAST_INDEX := FormatUint(index - 1, 10)];
      } else {
        kv := kv - {LAST_INDEX};
        assert kv == old(kv) - {BlockKey(index), LAST_INDEX};
      }
    }

    /** Collects every key in a batch, then writes the batch. */
    method ClearAll()
      modifies this
      ensures kv == map[]
    {
      var unseen, batch := kv.Keys, {};
      while unseen != {}
        invariant unseen + batch == kv.Keys
        invariant kv == old(kv)
        decreases |unseen|
      {
        var key :| key in unseen;
        batch, unseen := batch + {key}, unseen - {key};
      }
      kv := kv - batch;
    }
  }

  // ---- Disk and memory ----

  /** The store holds exactly this chain: block i decodes to chain[i], last_index names the tip, and no key
      of a later block exists. */
  ghost predicate Mirrors(env: Env, kv: Store, chain: seq<LedgerBlock>) {
    && 1 <= |chain| <= TWO64
    && (forall i: nat :: i < |chain| ==> BlockKey(i) in kv && env.decodeBlock(kv[BlockKey(i)]) == Some(chain[i]))
    && LAST_INDEX in kv && kv[LAST_INDEX] == FormatUint(|chain| - 1, 10)
    && (forall i: nat :: i >= |chain| ==> BlockKey(i) !in kv)
  }

  lemma SaveMirrors(env: Env, kv: Store, chain: seq<LedgerBlock>, block: LedgerBlock)
    requires JsonRoundTrips(env)
    requires |chain| < TWO64
    requires chain == [] ==> kv == map[]
    requires chain != [] ==> Mirrors(env, kv, chain)
    ensures Mirrors(env, Saved(kv, |chain|, env.encodeBlock(block)), chain + [block])
  {
    var kv' := Saved(kv, |chain|, env.encodeBlock(block));
    forall i: nat
      ensures BlockKey(i) in kv' <==> BlockKey(i) in kv || i == |chain|
      ensures i == |chain| ==> env.decodeBlock(kv'[BlockKey(i)]) == Some(block)
      ensures i != |chain| && BlockKey(i) in kv ==> kv'[BlockKey(i)] == kv[BlockKey(i)]
    {
      BlockKeysDistinct(i, |chain|);
    }
  }

  /** Deleting the tip that was just saved gives back the very store there was before. */
  lemma DeleteUndoesSave(env: Env, kv: Store, chain: seq<LedgerBlock>, data: string)
    requires Mirrors(env, kv, chain) && |chain| < TWO64
    ensures Deleted(Saved(kv, |chain|, data), |chain|) == kv
  {
    BlockKeysDistinct(|chain|, |chain|);
  }

  lemma DeleteMirrors(env: Env, kv: Store, chain: seq<LedgerBlock>)
    requires Mirrors(env, kv, chain) && 1 < |chain|
    ensures Mirrors(env, Deleted(kv, |chain| - 1), chain[..|chain| - 1])
  {
    var tip := |chain| - 1;
    forall i: nat
      ensures BlockKey(i) in Deleted(kv, tip) <==> BlockKey(i) in kv && i != tip
      ensures i != tip && BlockKey(i) in kv ==> Deleted(kv, tip)[BlockKey(i)] == kv[BlockKey(i)]
    {
      BlockKeysDistinct(i, tip);
    }
  }

  /** The blocks LoadFromDisk appends: it stops at the first missing key and skips what does not decode. */
  function LoadBlocks(env: Env, kv: Store, i: nat, last: u64): seq<LedgerBlock>
    decreases last + 1 - i
  {
    if i > last || BlockKey(i) !in kv then []
    else
      match env.decodeBlock(kv[BlockKey(i)])
      case Some(b) => [b] + LoadBlocks(env, kv, i + 1, last)
      case None => LoadBlocks(env, kv, i + 1, last)
  }

  lemma {:induction false} LoadsTheMirroredChain(env: Env, kv: Store, chain: seq<LedgerBlock>, i: nat)
    requires Mirrors(env, kv, chain) && i <= |chain|
    ensures LastIndex(kv) == Some(|chain| - 1)
    ensures LoadBlocks(env, kv, i, |chain| - 1) == chain[i..]
    decreases |chain| - i
  {
    ParseUintInvertsFormat(|chain| - 1);
    if i < |chain| {
      LoadsTheMirroredChain(env, kv, chain, i + 1);
      assert chain[i..] == [chain[i]] + chain[i + 1..];
    }
  }

  /** Height k decodes to the block, and no height from i up to it misses its key. */
  ghost predicate LoadedAt(env: Env, kv: Store, i: nat, k: nat, b: LedgerBlock) {
    i <= k && (forall j: nat :: i <= j <= k ==> BlockKey(j) in kv) && env.decodeBlock(kv[BlockKey(k)]) == Some(b)
  }

  lemma LoadedLater(env: Env, kv: Store, i: nat, k: nat, b: LedgerBlock)
    ensures k > i && BlockKey(i) in kv ==> (LoadedAt(env, kv, i, k, b) <==> LoadedAt(env, kv, i + 1, k, b))
    ensures LoadedAt(env, kv, i, i, b) <==> BlockKey(i) in kv && env.decodeBlock(kv[BlockKey(i)]) == Some(b)
    ensures LoadedAt(env, kv, i, k, b) ==> BlockKey(i) in kv && i <= k
  {
    hide BlockKey;
  }

  /** A block is loaded exactly if it is what some height up to the last decodes to, and no height before that
      misses its key; what does not decode is passed over. */
  lemma {:induction false} LoadedExactly(env: Env, kv: Store, i: nat, last: u64, b: LedgerBlock)
    ensures b in LoadBlocks(env, kv, i, last) <==> exists k: nat :: k <= last && LoadedAt(env, kv, i, k, b)
    decreases last + 1 - i
  {
    hide BlockKey, LoadedAt;
    forall k: nat ensures LoadedAt(env, kv, i, k, b) ==> BlockKey(i) in kv && i <= k {
      LoadedLater(env, kv, i, k, b);
    }
    if i <= last && BlockKey(i) in kv {
      forall k: nat
        ensures LoadedAt(env, kv, i, k, b) <==>
                  LoadedAt(env, kv, i + 1, k, b) || (k == i && env.decodeBlock(kv[BlockKey(i)]) == Some(b))
      {
        LoadedLater(env, kv, i, k, b);
        LoadedLater(env, kv, i + 1, k, b);
      }
      LoadedExactly(env, kv, i + 1, last, b);
      if b in LoadBlocks(env, kv, i, last) {
        if b in LoadBlocks(env, kv, i + 1, last) {
          var k: nat :| k <= last && LoadedAt(env, kv, i + 1, k, b);
          assert LoadedAt(env, kv, i, k, b);
        } else {
          assert LoadedAt(env, kv, i, i, b);
        }
      }
      if k: nat :| k <= last && LoadedAt(env, kv, i, k, b) {
        assert LoadedAt(env, kv, i + 1, k, b) || (k == i && env.decodeBlock(kv[BlockKey(i)]) == Some(b));
      }
    }
  }
}

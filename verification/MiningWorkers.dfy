/** core/block.go: the parallel nonce search of ConsensusEngine.Mine. The workers take chunks of 50,000 nonces
    from an atomic counter; the first result sent is the one returned. One step is one shared-memory or channel
    operation of one worker or of the caller. */
module MiningWorkers {
  import opened Machine
  import opened Blocks

  const CHUNK: nat := 50_000
  const WORKER_STRIDE: nat := 1_000_000_000

  /** A worker is at the top of its loop, past the look at stopChan, about to hash, about to send a good nonce, has
      sent it and returned, or has returned because stopChan was closed. */
  datatype At = Top | Searching | Hashing | Offering | Offered | Left

  /** `chunk` is history: the number of the chunk the worker took last, 0 before its first. */
  datatype Worker = Worker(at: At, local: nat, chunk: nat)

  datatype Search = Search(
    base: nat,                // the shared counter
    workers: seq<Worker>,
    resultChan: seq<nat>,     // capacity 1
    returned: seq<nat>,       // what the caller has received: nothing, or one nonce
    stopped: bool,            // stopChan is closed
    owner: map<nat, nat>,     // history: which worker took chunk k
    tried: map<nat, nat>)     // history: which worker hashed nonce n

  ghost predicate Init(s: Search) {
    && s == Search(0, s.workers, [], [], false, map[], map[]) && s.workers != []
    && forall w :: 0 <= w < |s.workers| ==> s.workers[w] == Worker(Top, w * WORKER_STRIDE, 0)
  }

  datatype Step =
    | Look(w: nat)       // the default branch: stopChan is open
    | Fetch(w: nat)      // take a chunk if the local nonce is at a boundary
    | Hash(w: nat)       // hash the local nonce
    | Offer(w: nat)      // the non-blocking send, then return
    | Quit(w: nat)       // the worker sees stopChan closed
    | Receive            // the caller receives a result
    | Stop               // the caller closes stopChan

  /** The counter has room for one more chunk of 64-bit nonces. */
  predicate RoomForChunk(s: Search) { s.base + 2 * CHUNK <= TWO64 }

  ghost predicate WorkerAt(s: Search, w: nat, at: At) { w < |s.workers| && s.workers[w].at == at }

  ghost predicate Enabled(s: Search, step: Step) {
    match step
    case Look(w) => WorkerAt(s, w, Top) && !s.stopped
    case Fetch(w) => WorkerAt(s, w, Searching) && (s.workers[w].local % CHUNK == 0 ==> RoomForChunk(s))
    case Hash(w) => WorkerAt(s, w, Hashing)
    case Offer(w) => WorkerAt(s, w, Offering)
    case Quit(w) => WorkerAt(s, w, Top) && s.stopped
    case Receive => s.returned == [] && s.resultChan != []
    case Stop => s.returned != [] && !s.stopped
  }

  ghost function After(s: Search, step: Step, good: nat -> bool): Search
    requires Enabled(s, step)
  {
    match step
    case Look(w) => s.(workers := s.workers[w := s.workers[w].(at := Searching)])
    case Fetch(w) =>
      var worker := s.workers[w];
      if worker.local % CHUNK == 0 then
        var taken := s.base + CHUNK;
        s.(base := taken, owner := s.owner[taken / CHUNK := w],
           workers := s.workers[w := Worker(Hashing, taken, taken / CHUNK)])
      else s.(workers := s.workers[w := worker.(at := Hashing)])
    case Hash(w) =>
      var worker := s.workers[w];
      s.(tried := s.tried[worker.local := w],
         workers := s.workers[w := if good(worker.local) then worker.(at := Offering)
                                   else worker.(at := Top, local := worker.local + 1)])
    case Offer(w) =>
      s.(workers := s.workers[w := s.workers[w].(at := Offered)],
         resultChan := if |s.resultChan| < 1 then s.resultChan + [s.workers[w].local] else s.resultChan)
    case Quit(w) => s.(workers := s.workers[w := s.workers[w].(at := Left)])
    case Receive => s.(returned := [s.resultChan[0]], resultChan := s.resultChan[1..])
    case Stop => s.(stopped := true)
  }

  // ---- The invariant ----

  /** How far a worker has hashed: its last hashed nonce plus one, within its last chunk. */
  ghost function Front(worker: Worker): nat {
    if worker.at == Offering || worker.at == Offered then worker.local + 1 else worker.local
  }

  predicate BetweenHashes(at: At) { at == Top || at == Searching || at == Left }

  /** Worker w is inside the last chunk it took, and took no later one. */
  ghost predicate InPlace(s: Search, w: nat)
    requires w < |s.workers|
  {
    var worker := s.workers[w];
    && (forall k :: k in s.owner && s.owner[k] == w ==> k <= worker.chunk)
    && (if worker.chunk == 0 then
          worker.local == w * WORKER_STRIDE && BetweenHashes(worker.at)
        else
          && worker.chunk in s.owner && s.owner[worker.chunk] == w
          && (if BetweenHashes(worker.at) then 0 < worker.local - worker.chunk * CHUNK <= CHUNK
              else 0 <= worker.local - worker.chunk * CHUNK < CHUNK))
  }

  /** The chunks handed out are 1, 2, ... up to the counter, each to one worker. */
  ghost predicate ChunksCounted(s: Search) {
    && s.base % CHUNK == 0 && s.base + CHUNK <= TWO64
    && (forall k: nat :: k in s.owner <==> 1 <= k <= s.base / CHUNK)
    && (forall k :: k in s.owner ==> s.owner[k] < |s.workers|)
  }

  /** Exactly the nonces below their chunk owner's front have been hashed, and by that owner. */
  ghost predicate TriedExactly(s: Search)
    requires ChunksCounted(s)
  {
    && (forall n: nat :: n in s.tried <==> n / CHUNK in s.owner && n < Front(s.workers[s.owner[n / CHUNK]]))
    && (forall n :: n in s.tried ==> s.tried[n] == s.owner[n / CHUNK])
  }

  ghost predicate ResultsGood(s: Search, good: nat -> bool) {
    && (forall n :: n in s.resultChan || n in s.returned ==> good(n) && n in s.tried)
    && (forall w: nat :: WorkerAt(s, w, Offering) ==> good(s.workers[w].local) && s.workers[w].local in s.tried)
    && |s.resultChan| <= 1 && |s.returned| <= 1
    && (forall w: nat :: WorkerAt(s, w, Offered) ==> s.resultChan != [] || s.returned != [])
  }

  /** A good nonce that was hashed is with the worker that hashed it, on its way to the caller or handed over. */
  ghost predicate GoodKept(s: Search, good: nat -> bool) {
    forall n :: n in s.tried && good(n) ==>
      (WorkerAt(s, s.tried[n], Offering) || WorkerAt(s, s.tried[n], Offered)) && s.workers[s.tried[n]].local == n
  }

  ghost predicate StopsInOrder(s: Search) {
    && s.workers != [] && (s.stopped ==> s.returned != [])
    && forall w: nat :: WorkerAt(s, w, Left) ==> s.stopped
  }

  ghost predicate AllInPlace(s: Search) { forall w :: 0 <= w < |s.workers| ==> InPlace(s, w) }

  ghost predicate Searched(s: Search, good: nat -> bool) {
    ChunksCounted(s) && AllInPlace(s) && TriedExactly(s) && ResultsGood(s, good)
  }

  ghost predicate Inv(s: Search, good: nat -> bool) {
    Searched(s, good) && GoodKept(s, good) && StopsInOrder(s)
  }

  // ---- The steps ----

  lemma Multiple(q: nat)
    ensures q * CHUNK % CHUNK == 0
  {
  }

  lemma AfterMultiple(q: nat, r: nat)
    requires 0 < r <= CHUNK
    ensures (q * CHUNK + r) % CHUNK == 0 <==> r == CHUNK
  {
  }

  /** At the top of its loop a worker is at a boundary exactly before its first chunk and at the end of its
      last one. */
  lemma BoundaryMeans(s: Search, w: nat)
    requires w < |s.workers| && InPlace(s, w) && s.workers[w].at == Searching
    ensures var worker := s.workers[w];
            worker.local % CHUNK == 0 <==> worker.chunk == 0 || worker.local == worker.chunk * CHUNK + CHUNK
  {
    var worker := s.workers[w];
    if worker.chunk == 0 {
      Multiple(w * 20_000);
      assert worker.local == w * 20_000 * CHUNK;
    } else {
      AfterMultiple(worker.chunk, worker.local - worker.chunk * CHUNK);
    }
  }

  /** A worker that fetches at a boundary has hashed all its chunks to the end. */
  lemma ChunkFinished(s: Search, w: nat, k: nat)
    requires ChunksCounted(s) && w < |s.workers| && InPlace(s, w)
    requires s.workers[w].at == Searching && s.workers[w].local % CHUNK == 0
    requires k in s.owner && s.owner[k] == w
    ensures k * CHUNK + CHUNK <= s.workers[w].local
  {
    BoundaryMeans(s, w);
  }

  lemma TakeChunk(s: Search, w: nat, good: nat -> bool)
    requires Inv(s, good) && Enabled(s, Fetch(w)) && s.workers[w].local % CHUNK == 0
    ensures var t := After(s, Fetch(w), good); ChunksCounted(t) && AllInPlace(t)
  {
    hide TriedExactly, ResultsGood;
    var t := After(s, Fetch(w), good);
    assert t.base / CHUNK == s.base / CHUNK + 1;
    forall v | 0 <= v < |t.workers| ensures InPlace(t, v) {
      assert InPlace(s, v);
    }
  }

  lemma TakeChunkTried(s: Search, w: nat, good: nat -> bool)
    requires Inv(s, good) && Enabled(s, Fetch(w)) && s.workers[w].local % CHUNK == 0
    requires ChunksCounted(After(s, Fetch(w), good))
    ensures TriedExactly(After(s, Fetch(w), good))
  {
    hide ResultsGood;
    var t := After(s, Fetch(w), good);
    var k := t.base / CHUNK;
    assert InPlace(s, w) && k == s.base / CHUNK + 1;
    forall n: nat
      ensures n in t.tried <==> n / CHUNK in t.owner && n < Front(t.workers[t.owner[n / CHUNK]])
      ensures n in t.tried ==> t.tried[n] == t.owner[n / CHUNK]
    {
      var q := n / CHUNK;
      if q in s.owner && s.owner[q] == w {
        ChunkFinished(s, w, q);
      }
    }
  }

  lemma FetchKeeps(s: Search, w: nat, good: nat -> bool)
    requires Inv(s, good) && Enabled(s, Fetch(w))
    ensures Searched(After(s, Fetch(w), good), good)
  {
    var t := After(s, Fetch(w), good);
    FetchResults(s, w, good);
    if s.workers[w].local % CHUNK == 0 {
      hide InPlace, ChunksCounted, TriedExactly, ResultsGood, After;
      TakeChunk(s, w, good);
      TakeChunkTried(s, w, good);
    } else {
      hide ResultsGood;
      ContinueChunk(s, w, good);
    }
  }

  lemma ContinueChunk(s: Search, w: nat, good: nat -> bool)
    requires Inv(s, good) && Enabled(s, Fetch(w)) && s.workers[w].local % CHUNK != 0
    ensures var t := After(s, Fetch(w), good); ChunksCounted(t) && AllInPlace(t) && TriedExactly(t)
  {
    hide ResultsGood, TriedExactly;
    var t := After(s, Fetch(w), good);
    assert InPlace(s, w);
    BoundaryMeans(s, w);
    forall v | 0 <= v < |t.workers| ensures InPlace(t, v) {
      assert InPlace(s, v);
    }
    FrontsSame(s, t);
  }

  /** If only workers changed, and none of their fronts, the hashed nonces are still exactly those. */
  lemma FrontsSame(s: Search, t: Search)
    requires ChunksCounted(s) && TriedExactly(s)
    requires t.owner == s.owner && t.tried == s.tried && t.base == s.base && |t.workers| == |s.workers|
    requires forall v :: 0 <= v < |s.workers| ==> Front(t.workers[v]) == Front(s.workers[v])
    ensures ChunksCounted(t) && TriedExactly(t)
  {
    forall n: nat
      ensures n in t.tried <==> n / CHUNK in t.owner && n < Front(t.workers[t.owner[n / CHUNK]])
    {
    }
  }

  lemma FetchResults(s: Search, w: nat, good: nat -> bool)
    requires ResultsGood(s, good) && Enabled(s, Fetch(w))
    ensures ResultsGood(After(s, Fetch(w), good), good)
  {
    var t := After(s, Fetch(w), good);
    forall v: nat | v < |t.workers|
      ensures WorkerAt(t, v, Offering) ==> WorkerAt(s, v, Offering)
      ensures WorkerAt(t, v, Offered) ==> WorkerAt(s, v, Offered)
    {
    }
  }

  /** The nonce a worker is about to hash has not been hashed by anyone. */
  lemma NextNonceIsNew(s: Search, w: nat, good: nat -> bool)
    requires Inv(s, good) && Enabled(s, Hash(w))
    ensures s.workers[w].local !in s.tried
    ensures CHUNK <= s.workers[w].local < TWO64
    ensures s.workers[w].local / CHUNK == s.workers[w].chunk
  {
    hide ResultsGood;
    assert InPlace(s, w);
    var n := s.workers[w].local;
    assert n / CHUNK == s.workers[w].chunk;
    assert s.base == s.base / CHUNK * CHUNK;
  }

  lemma HashKeeps(s: Search, w: nat, good: nat -> bool)
    requires Inv(s, good) && Enabled(s, Hash(w))
    ensures Searched(After(s, Hash(w), good), good)
  {
    hide ResultsGood, TriedExactly, AllInPlace, ChunksCounted, GoodKept, StopsInOrder;
    HashTried(s, w, good);
    HashResults(s, w, good);
    HashPlaces(s, w, good);
  }

  lemma HashPlaces(s: Search, w: nat, good: nat -> bool)
    requires AllInPlace(s) && Enabled(s, Hash(w))
    ensures AllInPlace(After(s, Hash(w), good))
  {
    var t := After(s, Hash(w), good);
    forall v | 0 <= v < |t.workers| ensures InPlace(t, v) {
      assert InPlace(s, v);
    }
  }

  lemma HashTried(s: Search, w: nat, good: nat -> bool)
    requires Inv(s, good) && Enabled(s, Hash(w))
    ensures var t := After(s, Hash(w), good); ChunksCounted(t) && TriedExactly(t)
  {
    hide ResultsGood;
    var t := After(s, Hash(w), good);
    var n := s.workers[w].local;
    NextNonceIsNew(s, w, good);
    assert InPlace(s, w);
    assert Front(t.workers[w]) == n + 1;
    forall m: nat
      ensures m in t.tried <==> m / CHUNK in t.owner && m < Front(t.workers[t.owner[m / CHUNK]])
      ensures m in t.tried ==> t.tried[m] == t.owner[m / CHUNK]
    {
    }
  }

  lemma HashResults(s: Search, w: nat, good: nat -> bool)
    requires ResultsGood(s, good) && Enabled(s, Hash(w))
    ensures ResultsGood(After(s, Hash(w), good), good)
  {
    var t := After(s, Hash(w), good);
    forall v: nat | v < |t.workers| && v != w
      ensures WorkerAt(t, v, Offering) ==> WorkerAt(s, v, Offering)
      ensures WorkerAt(t, v, Offered) ==> WorkerAt(s, v, Offered)
    {
    }
  }

  /** The remaining steps move no nonce. */
  lemma HandOffKeeps(s: Search, step: Step, good: nat -> bool)
    requires Inv(s, good) && Enabled(s, step) && !step.Fetch? && !step.Hash?
    ensures Searched(After(s, step, good), good)
  {
    hide ResultsGood, TriedExactly, AllInPlace, ChunksCounted, GoodKept, StopsInOrder;
    HandOffResults(s, step, good);
    HandOffPlaces(s, step, good);
    HandOffMovesNothing(s, step, good);
    FrontsSame(s, After(s, step, good));
  }

  lemma HandOffMovesNothing(s: Search, step: Step, good: nat -> bool)
    requires Enabled(s, step) && !step.Fetch? && !step.Hash?
    ensures var t := After(s, step, good);
            && t.owner == s.owner && t.tried == s.tried && t.base == s.base && |t.workers| == |s.workers|
            && forall v :: 0 <= v < |s.workers| ==> Front(t.workers[v]) == Front(s.workers[v])
  {
  }

  lemma HandOffPlaces(s: Search, step: Step, good: nat -> bool)
    requires AllInPlace(s) && Enabled(s, step) && !step.Fetch? && !step.Hash?
    ensures AllInPlace(After(s, step, good))
  {
    var t := After(s, step, good);
    forall v | 0 <= v < |t.workers| ensures InPlace(t, v) {
      assert InPlace(s, v);
    }
  }

  lemma HandOffResults(s: Search, step: Step, good: nat -> bool)
    requires ResultsGood(s, good) && Enabled(s, step) && !step.Fetch? && !step.Hash?
    ensures ResultsGood(After(s, step, good), good)
  {
    var t := After(s, step, good);
    forall v: nat | v < |t.workers|
      ensures WorkerAt(t, v, Offering) ==> WorkerAt(s, v, Offering)
      ensures WorkerAt(t, v, Offered) ==> WorkerAt(s, v, Offered) || step == Offer(v)
    {
    }
  }

  /** No step loses a good nonce. */
  lemma GoodStaysKept(s: Search, step: Step, good: nat -> bool)
    requires GoodKept(s, good) && Enabled(s, step)
    requires step.Hash? ==> s.workers[step.w].local !in s.tried
    ensures GoodKept(After(s, step, good), good)
  {
    var t := After(s, step, good);
    forall n | n in t.tried && good(n)
      ensures WorkerAt(t, t.tried[n], Offering) || WorkerAt(t, t.tried[n], Offered)
      ensures t.workers[t.tried[n]].local == n
    {
      assert n in s.tried ==> WorkerAt(s, s.tried[n], Offering) || WorkerAt(s, s.tried[n], Offered);
    }
  }

  lemma OrderStays(s: Search, step: Step, good: nat -> bool)
    requires StopsInOrder(s) && Enabled(s, step)
    ensures StopsInOrder(After(s, step, good))
  {
    var t := After(s, step, good);
    forall w: nat | WorkerAt(t, w, Left) ensures t.stopped {
      assert WorkerAt(s, w, Left) || step == Quit(w);
    }
  }

  lemma StepKeeps(s: Search, step: Step, good: nat -> bool)
    requires Inv(s, good) && Enabled(s, step)
    ensures Inv(After(s, step, good), good)
  {
    if step.Hash? {
      NextNonceIsNew(s, step.w, good);
    }
    GoodStaysKept(s, step, good);
    OrderStays(s, step, good);
    hide GoodKept, StopsInOrder;
    hide Searched, After;
    match step
    case Fetch(w) => FetchKeeps(s, w, good);
    case Hash(w) => HashKeeps(s, w, good);
    case _ => HandOffKeeps(s, step, good);
  }

  // ---- Runs ----

  ghost predicate Run(states: seq<Search>, steps: seq<Step>, good: nat -> bool) {
    && |states| == |steps| + 1 && Init(states[0])
    && forall i :: 0 <= i < |steps| ==>
         Enabled(states[i], steps[i]) && states[i + 1] == After(states[i], steps[i], good)
  }

  lemma InitHolds(s: Search, good: nat -> bool)
    requires Init(s)
    ensures Inv(s, good)
  {
  }

  lemma {:induction false} RunKeeps(states: seq<Search>, steps: seq<Step>, good: nat -> bool, i: nat)
    requires Run(states, steps, good) && i < |states|
    ensures Inv(states[i], good)
  {
    hide Inv, After, Init, Enabled;
    if i == 0 {
      InitHolds(states[0], good);
    } else {
      RunKeeps(states, steps, good, i - 1);
      StepKeeps(states[i - 1], steps[i - 1], good);
    }
  }

  /** In every interleaving, while the counter has not wrapped: no nonce is hashed twice, and none below
      50,000 is hashed at all. */
  lemma NoNonceTwice(states: seq<Search>, steps: seq<Step>, good: nat -> bool, i: nat)
    requires Run(states, steps, good) && i < |steps| && steps[i].Hash?
    ensures steps[i].w < |states[i].workers|
    ensures 50_000 <= states[i].workers[steps[i].w].local < TWO64
    ensures states[i].workers[steps[i].w].local !in states[i].tried
  {
    RunKeeps(states, steps, good, i);
    NextNonceIsNew(states[i], steps[i].w, good);
  }

  /** Chunks are disjoint and scanned whole: a chunk has one owner, and once the owner has taken a later chunk,
      it has hashed every nonce of the earlier one, and nobody else has hashed any. */
  lemma ChunksScannedWhole(states: seq<Search>, steps: seq<Step>, good: nat -> bool, i: nat, k: nat, n: nat)
    requires Run(states, steps, good) && i < |states| && k in states[i].owner && n / 50_000 == k
    ensures var s := states[i];
            && s.owner[k] < |s.workers|
            && (n in s.tried ==> s.tried[n] == s.owner[k])
            && (k != s.workers[s.owner[k]].chunk ==> n in s.tried)
  {
    hide ResultsGood;
    var s := states[i];
    RunKeeps(states, steps, good, i);
    var w := s.owner[k];
    assert InPlace(s, w);
    if k != s.workers[w].chunk {
      assert k + 1 <= s.workers[w].chunk;
    }
  }

  /** The one nonce the caller gets is good and was hashed; it never changes afterwards; and no success is lost: a
      good nonce that was hashed is with its worker, which offers it or has offered it, and once one is offered
      the caller has one or finds one in the channel. */
  lemma {:induction false} OneResult(states: seq<Search>, steps: seq<Step>, good: nat -> bool, i: nat, j: nat)
    requires Run(states, steps, good) && i <= j < |states|
    ensures |states[i].returned| <= 1
    ensures states[i].returned != [] ==> states[j].returned == states[i].returned
    ensures forall n :: n in states[i].returned ==> good(n) && n in states[i].tried
    ensures GoodKept(states[i], good)
    ensures (exists w: nat :: WorkerAt(states[i], w, Offered)) ==>
        states[i].resultChan != [] || states[i].returned != []
  {
    RunKeeps(states, steps, good, i);
    if i < j {
      OneResult(states, steps, good, i, j - 1);
      assert Enabled(states[j - 1], steps[j - 1]) && states[j] == After(states[j - 1], steps[j - 1], good);
    }
  }

  // ---- The search ends ----

  /** The caller has a nonce exactly if it has received one, and stopChan is closed exactly if it has closed it; it
      does each at most once, the second after the first. */
  lemma {:induction false} HandsOverOnce(states: seq<Search>, steps: seq<Step>, good: nat -> bool, i: nat)
    requires Run(states, steps, good) && i < |states|
    ensures states[i].returned != [] <==> exists j :: 0 <= j < i && steps[j] == Receive
    ensures states[i].stopped <==> exists j :: 0 <= j < i && steps[j] == Stop
    ensures i < |steps| && steps[i] == Receive ==> states[i].returned == []
    ensures i < |steps| && steps[i] == Stop ==> !states[i].stopped && states[i].returned != []
  {
    if i > 0 {
      HandsOverOnce(states, steps, good, i - 1);
      assert Enabled(states[i - 1], steps[i - 1]) && states[i] == After(states[i - 1], steps[i - 1], good);
    }
    assert i < |steps| ==> Enabled(states[i], steps[i]);
  }

  /** A run that cannot go on, while the counter has room, has returned a nonce, which is good, and has ended every
      worker. In particular one that has hashed a good nonce returns. */
  lemma SearchReturns(states: seq<Search>, steps: seq<Step>, good: nat -> bool)
    requires Run(states, steps, good) && RoomForChunk(states[|steps|])
    requires forall step :: !Enabled(states[|steps|], step)
    ensures var s := states[|steps|];
            && |s.returned| == 1 && good(s.returned[0]) && s.stopped
            && forall w: nat :: w < |s.workers| ==> WorkerAt(s, w, Offered) || WorkerAt(s, w, Left)
  {
    var s := states[|steps|];
    RunKeeps(states, steps, good, |steps|);
    hide Run, ChunksCounted, AllInPlace, TriedExactly, GoodKept;
    forall w: nat | w < |s.workers| ensures WorkerAt(s, w, Offered) || WorkerAt(s, w, Left) {
      assert !Enabled(s, Look(w)) && !Enabled(s, Quit(w)) && !Enabled(s, Fetch(w));
      assert !Enabled(s, Hash(w)) && !Enabled(s, Offer(w));
    }
    assert !Enabled(s, Receive) && !Enabled(s, Stop);
    assert WorkerAt(s, 0, Offered) || WorkerAt(s, 0, Left);
    assert s.returned != [] ==> s.returned[0] in s.returned;
  }

  /** The operations a worker has left after stopChan is closed. */
  function OperationsLeft(at: At): nat {
    match at
    case Searching => 3
    case Hashing => 2
    case Top => 1
    case Offering => 1
    case _ => 0
  }

  function WorkLeft(workers: seq<Worker>): nat {
    if workers == [] then 0 else WorkLeft(workers[..|workers| - 1]) + OperationsLeft(workers[|workers| - 1].at)
  }

  lemma {:induction false} WorkOf(workers: seq<Worker>, w: nat, worker: Worker)
    requires w < |workers|
    ensures WorkLeft(workers[w := worker])
         == WorkLeft(workers) - OperationsLeft(workers[w].at) + OperationsLeft(worker.at)
  {
    var n := |workers| - 1;
    if w == n {
      assert workers[w := worker][..n] == workers[..n];
    } else {
      WorkOf(workers[..n], w, worker);
      assert workers[w := worker][..n] == workers[..n][w := worker];
    }
  }

  lemma StopLeaves(s: Search, step: Step, good: nat -> bool)
    requires StopsInOrder(s) && s.stopped && Enabled(s, step)
    ensures var t := After(s, step, good); t.stopped && WorkLeft(t.workers) < WorkLeft(s.workers)
  {
    var t := After(s, step, good);
    assert !step.Look? && !step.Receive? && !step.Stop?;
    WorkOf(s.workers, step.w, t.workers[step.w]);
    hide WorkLeft;
    assert t.workers == s.workers[step.w := t.workers[step.w]];
  }

  /** Once stopChan is closed, at most three operations are left for each worker. */
  lemma {:induction false} StopBounded(states: seq<Search>, steps: seq<Step>, good: nat -> bool, i: nat, j: nat)
    requires Run(states, steps, good) && i <= j < |states| && states[i].stopped
    ensures states[j].stopped && (j - i) + WorkLeft(states[j].workers) <= WorkLeft(states[i].workers)
  {
    hide WorkLeft, After, Enabled, Searched, GoodKept;
    if i < j {
      StopBounded(states, steps, good, i, j - 1);
      RunKeeps(states, steps, good, j - 1);
      StopLeaves(states[j - 1], steps[j - 1], good);
    }
  }

  /** With the test that validateHash makes, the result is a nonce that Mine may return for the block. */
  lemma ResultIsMined(env: Env, b: LedgerBlock, bits: u32, target: u32, states: seq<Search>, steps: seq<Step>, i: nat)
    requires Run(states, steps, (n: nat) => n < TWO64 && MineFinds(env, b, bits, target, n)) && i < |states|
    ensures forall n :: n in states[i].returned ==> n < TWO64 && MineFinds(env, b, bits, target, n)
  {
    hide MineFinds;
    OneResult(states, steps, (n: nat) => n < TWO64 && MineFinds(env, b, bits, target, n), i, i);
  }
}

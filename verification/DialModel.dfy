/** internal/p2p/dial.go: the scheduler's state as a value, and what each event of its loop does to it. Module
    DialScheduler proves the imperative methods against these functions. */
module DialModel {
  /** A 32-byte identifier, as the number it spells. */
  type NodeID = nat
  datatype Node = Node(id: NodeID, tcpPort: nat)

  datatype Sched = Sched(
    self: NodeID, maxDialPeers: int, maxActiveDials: int,
    dialing: set<NodeID>, peers: set<NodeID>, dialPeers: int,
    statics: map<NodeID, Node>, pool: seq<NodeID>, history: map<NodeID, int>)

  datatype DialCheck = DialOk | IsSelf | NoPort | AlreadyDialing | AlreadyConnected | RecentlyDialed

  function CheckDial(s: Sched, n: Node): DialCheck {
    if n.id == s.self then IsSelf
    else if n.tcpPort == 0 then NoPort
    else if n.id in s.dialing then AlreadyDialing
    else if n.id in s.peers then AlreadyConnected
    else if n.id in s.history then RecentlyDialed
    else DialOk
  }

  /** A static node that may be dialed now. */
  predicate Dialable(s: Sched, id: NodeID) { id in s.statics && CheckDial(s, s.statics[id]) == DialOk }

  function FreeDialSlots(s: Sched): int {
    var slots := (s.maxDialPeers - s.dialPeers) * 2;
    (if slots > s.maxActiveDials then s.maxActiveDials else slots) - |s.dialing|
  }

  // ---- The static pool ----

  /** removeFromStaticPool: the last entry moves into the gap. */
  function SwapRemove<T>(pool: seq<T>, i: nat): seq<T>
    requires i < |pool|
  {
    pool[i := pool[|pool| - 1]][..|pool| - 1]
  }

  /** The slot of an ID, or -1. */
  function SlotOf(pool: seq<NodeID>, id: NodeID): (i: int)
    ensures -1 <= i < |pool|
    ensures i >= 0 ==> pool[i] == id
    ensures i < 0 <==> id !in pool
  {
    if pool == [] then -1
    else if pool[|pool| - 1] == id then |pool| - 1
    else
      assert pool == pool[..|pool| - 1] + [pool[|pool| - 1]];
      SlotOf(pool[..|pool| - 1], id)
  }

  function Drop(s: Sched, id: NodeID): (t: Sched)
    ensures t == s.(pool := t.pool)
  {
    if SlotOf(s.pool, id) >= 0 then s.(pool := SwapRemove(s.pool, SlotOf(s.pool, id))) else s
  }

  /** updateStaticPool. */
  function UpdatePool(s: Sched, id: NodeID): (t: Sched)
    ensures t == s.(pool := t.pool)
  {
    if id !in s.pool && Dialable(s, id) then s.(pool := s.pool + [id]) else s
  }

  // ---- Events ----

  function OnDone(s: Sched, id: NodeID): Sched { UpdatePool(s.(dialing := s.dialing - {id}), id) }

  function OnPeerAdded(s: Sched, id: NodeID, dialed: bool): Sched {
    Drop(s.(peers := s.peers + {id}, dialPeers := s.dialPeers + if dialed then 1 else 0), id)
  }

  function OnPeerRemoved(s: Sched, id: NodeID, dialed: bool): Sched {
    UpdatePool(s.(peers := s.peers - {id}, dialPeers := s.dialPeers - if dialed then 1 else 0), id)
  }

  function OnAddStatic(s: Sched, n: Node): Sched {
    if n.id in s.statics then s else UpdatePool(s.(statics := s.statics[n.id := n]), n.id)
  }

  function OnRemoveStatic(s: Sched, id: NodeID): Sched { Drop(s.(statics := s.statics - {id}), id) }

  function OnExpired(s: Sched, id: NodeID): Sched { UpdatePool(s.(history := s.history - {id}), id) }

  /** expireHistory meets the expired entries in some order. */
  function OnAllExpired(s: Sched, order: seq<NodeID>): (t: Sched)
    ensures t == s.(history := t.history, pool := t.pool)
  {
    if order == [] then s else OnExpired(OnAllExpired(s, order[..|order| - 1]), order[|order| - 1])
  }

  /** A task that is being dialed resolves its node. */
  function OnResolved(s: Sched, n: Node): Sched { s.(statics := s.statics[n.id := n]) }

  /** startDial of the task in a slot, and its removal from the pool. */
  function StartOne(s: Sched, slot: nat, expiry: int): Sched
    requires slot < |s.pool|
  {
    var id := s.pool[slot];
    s.(dialing := s.dialing + {id}, history := s.history[id := expiry], pool := SwapRemove(s.pool, slot))
  }

  /** startStaticDials with the random slots it draws. */
  ghost predicate CanStart(s: Sched, slots: seq<nat>, expiry: int) {
    slots == [] ||
    var rest := slots[..|slots| - 1];
    CanStart(s, rest, expiry) && slots[|slots| - 1] < |StartAll(s, rest, expiry).pool|
  }

  function StartAll(s: Sched, slots: seq<nat>, expiry: int): Sched {
    if slots == [] then s
    else
      var t := StartAll(s, slots[..|slots| - 1], expiry);
      if slots[|slots| - 1] < |t.pool| then StartOne(t, slots[|slots| - 1], expiry) else t
  }

  // ---- The invariant ----

  ghost predicate Distinct<T>(pool: seq<T>) { forall i, j :: 0 <= i < j < |pool| ==> pool[i] != pool[j] }

  ghost predicate Keyed(s: Sched) { forall id :: id in s.statics ==> s.statics[id].id == id }

  /** The pool holds, once each, exactly the static nodes that may be dialed now. */
  ghost predicate PoolExact(s: Sched) {
    Distinct(s.pool) && Keyed(s) && forall id :: id in s.pool <==> Dialable(s, id)
  }

  ghost predicate DialsBounded(s: Sched) { |s.dialing| <= if s.maxActiveDials > 0 then s.maxActiveDials else 0 }

  ghost predicate Inv(s: Sched) { PoolExact(s) && DialsBounded(s) }

  /** What checkDial demands, and so what the pool holds: every static node, other than the node itself, that has a
      port, is not being dialed, is no peer, and was not dialed recently. */
  lemma PoolHolds(s: Sched, id: NodeID)
    requires Inv(s)
    ensures id in s.pool <==>
              && id in s.statics && id != s.self && s.statics[id].tcpPort != 0
              && id !in s.dialing && id !in s.peers && id !in s.history
  {
    hide DialsBounded, Distinct;
  }

  /** The first thing that is wrong with a dial is what the check reports. */
  lemma ChecksInOrder(s: Sched, n: Node)
    ensures CheckDial(s, n) == IsSelf <==> n.id == s.self
    ensures n.id != s.self ==> (CheckDial(s, n) == NoPort <==> n.tcpPort == 0)
    ensures n.id != s.self && n.tcpPort != 0 ==> (CheckDial(s, n) == AlreadyDialing <==> n.id in s.dialing)
    ensures n.id != s.self && n.tcpPort != 0 && n.id !in s.dialing ==>
              (CheckDial(s, n) == AlreadyConnected <==> n.id in s.peers)
    ensures n.id != s.self && n.tcpPort != 0 && n.id !in s.dialing && n.id !in s.peers ==>
              (CheckDial(s, n) == RecentlyDialed <==> n.id in s.history)
  {
  }

  lemma SwapRemoveFacts<T>(pool: seq<T>, i: nat)
    requires i < |pool| && Distinct(pool)
    ensures Distinct(SwapRemove(pool, i))
    ensures forall x :: x in SwapRemove(pool, i) <==> x in pool && x != pool[i]
  {
    var r, last := SwapRemove(pool, i), |pool| - 1;
    forall x | x in pool && x != pool[i] ensures x in r {
      var k :| 0 <= k < |pool| && pool[k] == x;
      assert r[if k == last then i else k] == x;
    }
    forall x | x in r ensures x in pool && x != pool[i] {
      var k :| 0 <= k < |r| && r[k] == x;
      assert x == pool[if k == i then last else k];
    }
  }

  lemma SwapRemoveBag<T>(pool: seq<T>, i: nat)
    requires i < |pool|
    ensures multiset(SwapRemove(pool, i)) == multiset(pool) - multiset{pool[i]}
  {
    var last := |pool| - 1;
    assert pool == pool[..last] + [pool[last]];
    if i < last {
      var front := pool[..last];
      assert SwapRemove(pool, i) == front[..i] + [pool[last]] + front[i + 1..];
      assert front == front[..i] + [pool[i]] + front[i + 1..];
    } else {
      assert SwapRemove(pool, i) == pool[..last];
    }
  }

  /** Only the named node's standing may have changed between s and t. */
  ghost predicate SameBut(s: Sched, t: Sched, id: NodeID) {
    t.pool == s.pool && Keyed(t) && forall n :: n != id ==> (Dialable(t, n) <==> Dialable(s, n))
  }

  /** updateStaticPool restores exactness when the node can only have become dialable. */
  lemma UpdateRestores(s: Sched, t: Sched, id: NodeID)
    requires PoolExact(s) && SameBut(s, t, id)
    requires Dialable(s, id) ==> Dialable(t, id)
    ensures PoolExact(UpdatePool(t, id))
  {
    DialableIgnoresPool(t, UpdatePool(t, id));
    hide Dialable;
  }

  /** Removing the node from the pool restores exactness when it is not dialable any more. */
  lemma DropRestores(s: Sched, t: Sched, id: NodeID)
    requires PoolExact(s) && SameBut(s, t, id) && !Dialable(t, id)
    ensures PoolExact(Drop(t, id))
  {
    DialableIgnoresPool(t, Drop(t, id));
    hide Dialable, SwapRemove;
    if SlotOf(t.pool, id) >= 0 {
      SwapRemoveFacts(t.pool, SlotOf(t.pool, id));
    }
  }

  lemma DialableIgnoresPool(s: Sched, t: Sched)
    requires t == s.(pool := t.pool)
    ensures forall id :: Dialable(s, id) <==> Dialable(t, id)
  {
  }

  lemma Shrinks<T>(a: set<T>, x: T)
    ensures |a - {x}| <= |a|
  {
    if x in a {
      assert |a - {x}| + 1 == |a|;
    } else {
      assert a - {x} == a;
    }
  }

  lemma DoneKeeps(s: Sched, id: NodeID)
    requires Inv(s)
    ensures var t := OnDone(s, id); Inv(t) && t == s.(dialing := s.dialing - {id}, pool := t.pool)
  {
    var t := s.(dialing := s.dialing - {id});
    Shrinks(s.dialing, id);
    assert SameBut(s, t, id);
    UpdateRestores(s, t, id);
  }

  lemma PeerAddedKeeps(s: Sched, id: NodeID, dialed: bool)
    requires Inv(s)
    ensures var t := OnPeerAdded(s, id, dialed);
            && Inv(t) && t == s.(peers := s.peers + {id}, dialPeers := t.dialPeers, pool := t.pool)
            && t.dialPeers == if dialed then s.dialPeers + 1 else s.dialPeers
  {
    var t := s.(peers := s.peers + {id}, dialPeers := s.dialPeers + if dialed then 1 else 0);
    assert SameBut(s, t, id) && !Dialable(t, id);
    hide Dialable;
    DropRestores(s, t, id);
  }

  lemma PeerRemovedKeeps(s: Sched, id: NodeID, dialed: bool)
    requires Inv(s)
    ensures var t := OnPeerRemoved(s, id, dialed);
            && Inv(t) && t == s.(peers := s.peers - {id}, dialPeers := t.dialPeers, pool := t.pool)
            && t.dialPeers == if dialed then s.dialPeers - 1 else s.dialPeers
  {
    var t := s.(peers := s.peers - {id}, dialPeers := s.dialPeers - if dialed then 1 else 0);
    assert SameBut(s, t, id) && (Dialable(s, id) ==> Dialable(t, id));
    hide Dialable, SameBut;
    UpdateRestores(s, t, id);
  }

  lemma AddStaticKeeps(s: Sched, n: Node)
    requires Inv(s)
    ensures var t := OnAddStatic(s, n);
            && Inv(t) && t == s.(statics := t.statics, pool := t.pool) && (n.id in s.statics ==> t == s)
            && t.statics == if n.id in s.statics then s.statics else s.statics[n.id := n]
  {
    if n.id !in s.statics {
      var t := s.(statics := s.statics[n.id := n]);
      assert SameBut(s, t, n.id);
      UpdateRestores(s, t, n.id);
    }
  }

  lemma RemoveStaticKeeps(s: Sched, id: NodeID)
    requires Inv(s)
    ensures var t := OnRemoveStatic(s, id); Inv(t) && t == s.(statics := s.statics - {id}, pool := t.pool)
  {
    var t := s.(statics := s.statics - {id});
    assert SameBut(s, t, id) && !Dialable(t, id);
    hide Dialable;
    DropRestores(s, t, id);
  }

  lemma ExpiredKeeps(s: Sched, id: NodeID)
    requires Inv(s)
    ensures var t := OnExpired(s, id); Inv(t) && t == s.(history := s.history - {id}, pool := t.pool)
  {
    var t := s.(history := s.history - {id});
    assert SameBut(s, t, id);
    UpdateRestores(s, t, id);
  }

  lemma {:induction false} AllExpiredKeeps(s: Sched, order: seq<NodeID>)
    requires Inv(s)
    ensures var t := OnAllExpired(s, order);
            && Inv(t) && t == s.(history := t.history, pool := t.pool)
            && t.history == map id | id in s.history && id !in order :: s.history[id]
  {
    hide Inv, OnExpired;
    if order != [] {
      var rest, last := order[..|order| - 1], order[|order| - 1];
      assert forall id :: id in order <==> id in rest || id == last;
      AllExpiredKeeps(s, order[..|order| - 1]);
      ExpiredKeeps(OnAllExpired(s, order[..|order| - 1]), order[|order| - 1]);
    }
  }

  /** A node resolved while it is being dialed stays out of the pool, whatever it resolves to. */
  lemma ResolvedKeeps(s: Sched, n: Node)
    requires Inv(s) && n.id in s.dialing && n.id in s.statics
    ensures var t := OnResolved(s, n);
            && Inv(t) && t == s.(statics := t.statics) && t.statics.Keys == s.statics.Keys
            && forall id :: id in s.statics ==> t.statics[id] == if id == n.id then n else s.statics[id]
  {
  }

  lemma StartExact(s: Sched, slot: nat, expiry: int)
    requires PoolExact(s) && slot < |s.pool|
    ensures Dialable(s, s.pool[slot]) && PoolExact(StartOne(s, slot, expiry))
  {
    var id, t := s.pool[slot], StartOne(s, slot, expiry);
    assert id in s.pool;
    SwapRemoveFacts(s.pool, slot);
    hide SwapRemove;
    forall n ensures Dialable(t, n) <==> Dialable(s, n) && n != id {
      assert n in s.statics ==> s.statics[n].id == n;
    }
  }

  /** A started dial passes checkDial at that moment, takes one slot, and keeps the invariant while a slot is
      free. */
  lemma StartKeeps(s: Sched, slot: nat, expiry: int)
    requires Inv(s) && slot < |s.pool| && FreeDialSlots(s) > 0
    ensures Dialable(s, s.pool[slot]) && Inv(StartOne(s, slot, expiry))
    ensures var t, id := StartOne(s, slot, expiry), s.pool[slot];
            && t == s.(dialing := s.dialing + {id}, history := s.history[id := expiry], pool := t.pool)
            && multiset(t.pool) == multiset(s.pool) - multiset{id}
    ensures FreeDialSlots(StartOne(s, slot, expiry)) == FreeDialSlots(s) - 1
  {
    StartExact(s, slot, expiry);
    SwapRemoveBag(s.pool, slot);
    hide PoolExact, SwapRemove;
    assert s.pool[slot] !in s.dialing;
  }

  /** startStaticDials(freeDialSlots()): every dial it starts, without checking again, passes checkDial when it
      is started, and the number of dials stays within maxActiveDials. */
  lemma {:induction false} StartAllKeeps(s: Sched, slots: seq<nat>, expiry: int, k: nat)
    requires Inv(s) && k <= |slots| && (slots == [] || |slots| <= FreeDialSlots(s))
    ensures Inv(StartAll(s, slots[..k], expiry))
    ensures FreeDialSlots(StartAll(s, slots[..k], expiry)) >= FreeDialSlots(s) - k
    ensures var t := StartAll(s, slots[..k], expiry);
            k < |slots| && slots[k] < |t.pool| ==>
              var id := t.pool[slots[k]];
              && id in t.statics && id != t.self && t.statics[id].tcpPort != 0
              && id !in t.dialing && id !in t.peers && id !in t.history
  {
    hide Dialable, PoolExact, DialsBounded, FreeDialSlots, StartOne;
    if k > 0 {
      StartAllKeeps(s, slots, expiry, k - 1);
      assert slots[..k][..k - 1] == slots[..k - 1];
      var t := StartAll(s, slots[..k - 1], expiry);
      if slots[k - 1] < |t.pool| {
        StartKeeps(t, slots[k - 1], expiry);
      }
    }
    var t := StartAll(s, slots[..k], expiry);
    if k < |slots| && slots[k] < |t.pool| {
      PoolHolds(t, t.pool[slots[k]]);
      assert t.pool[slots[k]] in t.pool;
    }
  }
}

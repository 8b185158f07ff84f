/** internal/p2p/dial.go: the dial scheduler with its task objects, whose staticPoolIndex fields point back into
    the pool slice. Each method takes the scheduler's model to the state that module DialModel gives it. */
module DialScheduler {
  import opened DialModel

  class DialTask {
    var staticPoolIndex: int
    var dest: Node

    constructor (dest: Node)
      ensures staticPoolIndex == -1 && this.dest == dest
    {
      this.staticPoolIndex, this.dest := -1, dest;
    }
  }

  class Scheduler {
    const self: NodeID
    const maxDialPeers: int
    const maxActiveDials: int
    var dialing: map<NodeID, DialTask>
    var peers: set<NodeID>
    var dialPeers: int
    var statics: map<NodeID, DialTask>
    var staticPool: seq<DialTask>
    var history: map<NodeID, int>
    /** The IDs of the pooled tasks, slot by slot. */
    ghost var pool: seq<NodeID>

    /** Tasks know their slot, and every pooled task has one. */
    ghost predicate PoolIndexed()
      reads this`statics, this`staticPool, this`pool, statics.Values, staticPool
    {
      && |pool| == |staticPool|
      && (forall i :: 0 <= i < |staticPool| ==> staticPool[i].staticPoolIndex == i && staticPool[i].dest.id == pool[i])
      && (forall id :: id in statics ==>
            && statics[id].dest.id == id
            && -1 <= statics[id].staticPoolIndex < |staticPool|
            && (statics[id].staticPoolIndex >= 0 ==> staticPool[statics[id].staticPoolIndex] == statics[id]))
    }

    /** Every pooled task is the static task of its ID. */
    ghost predicate PoolLinked()
      reads this`statics, this`staticPool, this`pool
    {
      forall i :: 0 <= i < |pool| && i < |staticPool| ==> pool[i] in statics && statics[pool[i]] == staticPool[i]
    }

    ghost predicate DialingKeyed()
      reads this`dialing, dialing.Values
    {
      forall id :: id in dialing ==> dialing[id].dest.id == id
    }

    ghost predicate Valid()
      reads this`statics, this`staticPool, this`pool, this`dialing, statics.Values, staticPool, dialing.Values
    {
      PoolIndexed() && PoolLinked() && DialingKeyed()
    }

    ghost function Dests(): (dests: map<NodeID, Node>)
      reads this`statics, statics.Values
      ensures dests.Keys == statics.Keys
    {
      map id | id in statics :: statics[id].dest
    }

    ghost function Model(): Sched
      reads this, statics.Values
    {
      Sched(self, maxDialPeers, maxActiveDials, dialing.Keys, peers, dialPeers, Dests(), pool, history)
    }

    constructor (self: NodeID, maxDialPeers: int, maxActiveDials: int)
      ensures Valid()
      ensures var slots := if maxActiveDials == 0 then 50 else maxActiveDials;
              Model() == Sched(self, maxDialPeers, slots, {}, {}, 0, map[], [], map[])
    {
      this.self, this.maxDialPeers := self, maxDialPeers;
      this.maxActiveDials := if maxActiveDials == 0 then 50 else maxActiveDials;
      dialing, peers, dialPeers, statics, staticPool, history := map[], {}, 0, map[], [], map[];
      pool := [];
    }

    // ---- The pool ----

    lemma IndexIsSlot(id: NodeID)
      requires Valid() && id in statics
      ensures statics[id].staticPoolIndex >= 0 <==> id in pool
      ensures statics[id].staticPoolIndex == SlotOf(pool, id) && statics[id].dest.id == id
      ensures Distinct(pool)
    {
      if id in pool {
        var k := SlotOf(pool, id);
        assert statics[pool[k]] == staticPool[k];
      }
    }

    method CheckNode(n: Node) returns (check: DialCheck)
      ensures check == CheckDial(Model(), n)
    {
      if n.id == self {
        return IsSelf;
      }
      if n.tcpPort == 0 {
        return NoPort;
      }
      if n.id in dialing {
        return AlreadyDialing;
      }
      if n.id in peers {
        return AlreadyConnected;
      }
      if n.id in history {
        return RecentlyDialed;
      }
      check := DialOk;
    }

    method AddToStaticPool(task: DialTask)
      requires Valid() && task.dest.id in statics && statics[task.dest.id] == task && task.staticPoolIndex < 0
      modifies this`staticPool, this`pool, task
      ensures Valid() && pool == old(pool) + [task.dest.id] && Dests() == old(Dests())
      ensures task.dest == old(task.dest)
    {
      staticPool := staticPool + [task];
      pool := pool + [task.dest.id];
      task.staticPoolIndex := |staticPool| - 1;
    }

    method RemoveFromStaticPool(idx: nat)
      requires PoolIndexed() && idx < |staticPool|
      modifies this`staticPool, this`pool, staticPool
      ensures PoolIndexed() && pool == SwapRemove(old(pool), idx) && staticPool == SwapRemove(old(staticPool), idx)
      ensures forall t :: t in old(staticPool) ==> t.dest == old(t.dest)
    {
      var task := staticPool[idx];
      var end := |staticPool| - 1;
      staticPool := staticPool[idx := staticPool[end]];
      staticPool[idx].staticPoolIndex := idx;
      staticPool := staticPool[..end];
      pool := SwapRemove(pool, idx);
      task.staticPoolIndex := -1;
    }

    method UpdateStaticPool(id: NodeID)
      requires Valid()
      modifies this`staticPool, this`pool, statics.Values
      ensures Valid() && Model() == UpdatePool(old(Model()), id)
    {
      hide PoolIndexed, PoolLinked, DialingKeyed, CheckDial;
      if id in statics {
        IndexIsSlot(id);
        var task := statics[id];
        if task.staticPoolIndex < 0 {
          var check := CheckNode(task.dest);
          if check == DialOk {
            AddToStaticPool(task);
          }
        }
      }
    }

    /** Takes the task in a slot out of the pool. */
    method TakeFromPool(idx: nat)
      requires Valid() && idx < |staticPool|
      modifies this`staticPool, this`pool, staticPool
      ensures Valid() && pool == SwapRemove(old(pool), idx) && Dests() == old(Dests())
    {
      PoolIsStatic();
      LinkSurvives(staticPool, pool, idx);
      hide SwapRemove;
      RemoveFromStaticPool(idx);
    }

    /** Takes a static node out of the pool if it is there. */
    method DropFromPool(id: NodeID)
      requires Valid() && id in statics
      modifies this`staticPool, this`pool, statics.Values
      ensures Valid() && Model() == Drop(old(Model()), id) && id !in pool
    {
      IndexIsSlot(id);
      PoolIsStatic();
      hide SwapRemove, PoolIndexed, PoolLinked, DialingKeyed, Dests;
      var task := statics[id];
      if task.staticPoolIndex >= 0 {
        SwapRemoveFacts(pool, task.staticPoolIndex);
        TakeFromPool(task.staticPoolIndex);
      }
    }

    /** Swap-remove keeps tasks and IDs side by side. */
    lemma LinkSurvives(tasks: seq<DialTask>, ids: seq<NodeID>, idx: nat)
      requires |tasks| == |ids| && idx < |tasks|
      ensures |SwapRemove(tasks, idx)| == |SwapRemove(ids, idx)| == |tasks| - 1
      ensures forall i :: 0 <= i < |tasks| - 1 ==>
                exists k ::
                  0 <= k < |tasks| && SwapRemove(tasks, idx)[i] == tasks[k] && SwapRemove(ids, idx)[i] == ids[k]
    {
      forall i | 0 <= i < |tasks| - 1
        ensures exists k ::
                  0 <= k < |tasks| && SwapRemove(tasks, idx)[i] == tasks[k] && SwapRemove(ids, idx)[i] == ids[k]
      {
        var k := if i == idx then |tasks| - 1 else i;
        assert SwapRemove(tasks, idx)[i] == tasks[k] && SwapRemove(ids, idx)[i] == ids[k];
      }
    }

    lemma PoolIsStatic()
      requires PoolLinked() && |pool| == |staticPool|
      ensures forall t :: t in staticPool ==> t in statics.Values
    {
      forall t | t in staticPool ensures t in statics.Values {
        var i :| 0 <= i < |staticPool| && staticPool[i] == t;
        assert pool[i] in statics;
      }
    }

    // ---- Dials ----

    /** A pooled task goes to dialing; its goroutine is not part of this object. */
    method StartDial(task: DialTask, expiry: int)
      requires DialingKeyed()
      modifies this`history, this`dialing
      ensures DialingKeyed()
      ensures dialing == old(dialing)[task.dest.id := task]
      ensures Model() == old(Model()).(history := old(history)[task.dest.id := expiry],
                                       dialing := old(dialing).Keys + {task.dest.id})
    {
      history := history[task.dest.id := expiry];
      dialing := dialing[task.dest.id := task];
    }

    method StartPooled(idx: nat, expiry: int)
      requires Valid() && idx < |staticPool|
      modifies this`staticPool, this`pool, this`history, this`dialing, staticPool
      ensures Valid() && Model() == StartOne(old(Model()), idx, expiry)
      ensures statics == old(statics)
    {
      assert staticPool[idx].dest.id == pool[idx];
      hide SwapRemove, PoolIndexed, PoolLinked, DialingKeyed, Dests;
      var task := staticPool[idx];
      StartDial(task, expiry);
      TakeFromPool(idx);
    }

    /** Starts up to n dials of randomly drawn pooled tasks. */
    method StartStaticDials(n: int, expiry: int) returns (started: nat, ghost slots: seq<nat>)
      requires Valid()
      modifies this`staticPool, this`pool, this`history, this`dialing, statics.Values
      ensures Valid() && statics == old(statics)
      ensures CanStart(old(Model()), slots, expiry) && Model() == StartAll(old(Model()), slots, expiry)
      ensures |slots| == started && (started == 0 || started <= n) && (started < n ==> pool == [])
    {
      started, slots := 0, [];
      while started < n && |staticPool| > 0
        invariant Valid() && statics == old(statics)
        invariant CanStart(old(Model()), slots, expiry) && Model() == StartAll(old(Model()), slots, expiry)
        invariant |slots| == started && (started == 0 || started <= n)
      {
        var idx: nat :| idx < |staticPool|;
        PoolIsStatic();
        StartPooled(idx, expiry);
        assert (slots + [idx])[..|slots|] == slots;
        slots, started := slots + [idx], started + 1;
      }
    }

    /** The top of the loop: as many dials as there are free slots. */
    method FillSlots(expiry: int) returns (started: nat, ghost slots: seq<nat>)
      requires Valid()
      modifies this`staticPool, this`pool, this`history, this`dialing, statics.Values
      ensures Valid() && CanStart(old(Model()), slots, expiry) && Model() == StartAll(old(Model()), slots, expiry)
      ensures |slots| == started && (started == 0 || started <= FreeDialSlots(old(Model())))
      ensures started < FreeDialSlots(old(Model())) ==> pool == []
    {
      var free := (maxDialPeers - dialPeers) * 2;
      if free > maxActiveDials {
        free := maxActiveDials;
      }
      free := free - |dialing.Keys|;
      started, slots := StartStaticDials(free, expiry);
    }

    // ---- Events ----

    method TaskDone(task: DialTask)
      requires Valid() && task.dest.id in dialing
      modifies this`dialing, this`staticPool, this`pool, statics.Values
      ensures Valid() && Model() == OnDone(old(Model()), old(task.dest.id))
    {
      hide UpdatePool, PoolIndexed, PoolLinked, Dests;
      var id := task.dest.id;
      dialing := dialing - {id};
      UpdateStaticPool(id);
    }

    method PeerAdded(id: NodeID, dialed: bool)
      requires Valid()
      modifies this`peers, this`dialPeers, this`staticPool, this`pool, statics.Values
      ensures Valid() && Model() == OnPeerAdded(old(Model()), id, dialed)
    {
      PooledAreStatic();
      hide Drop, PoolIndexed, PoolLinked, DialingKeyed, Dests;
      CountPeer(id, dialed);
      DropAbsent(Model(), id);
      if id in statics {
        DropFromPool(id);
      }
    }

    method CountPeer(id: NodeID, dialed: bool)
      modifies this`peers, this`dialPeers
      ensures peers == old(peers) + {id} && dialPeers == old(dialPeers) + if dialed then 1 else 0
      ensures Model() == old(Model()).(peers := peers, dialPeers := dialPeers)
    {
      hide Dests;
      if dialed {
        dialPeers := dialPeers + 1;
      }
      peers := peers + {id};
    }

    lemma DropAbsent(s: Sched, id: NodeID)
      ensures id !in s.pool ==> Drop(s, id) == s
    {
    }

    lemma PooledAreStatic()
      requires PoolLinked() && |pool| == |staticPool|
      ensures forall id :: id in pool ==> id in statics
    {
    }

    method PeerRemoved(id: NodeID, dialed: bool)
      requires Valid()
      modifies this`peers, this`dialPeers, this`staticPool, this`pool, statics.Values
      ensures Valid() && Model() == OnPeerRemoved(old(Model()), id, dialed)
    {
      hide UpdatePool, PoolIndexed, PoolLinked, DialingKeyed, Dests;
      if dialed {
        dialPeers := dialPeers - 1;
      }
      peers := peers - {id};
      UpdateStaticPool(id);
    }

    method AddStatic(node: Node)
      requires Valid()
      modifies this`statics, this`staticPool, this`pool
      ensures Valid() && Model() == OnAddStatic(old(Model()), node)
      ensures node.id in statics && (node.id !in old(statics) ==> fresh(statics[node.id]))
    {
      hide Dialable, SlotOf, PoolIndexed, PoolLinked, DialingKeyed, Dests, CheckDial;
      if node.id in statics {
        return;
      }
      NewStatic(node);
      IndexIsSlot(node.id);
      var check := CheckNode(node);
      DialableStatic(Model(), node.id);
      if check == DialOk {
        AddToStaticPool(statics[node.id]);
      }
    }

    method NewStatic(node: Node)
      requires Valid() && node.id !in statics
      modifies this`statics
      ensures Valid() && Model() == old(Model()).(statics := old(Model()).statics[node.id := node])
      ensures node.id in statics && fresh(statics[node.id]) && statics == old(statics)[node.id := statics[node.id]]
      ensures statics[node.id].staticPoolIndex == -1 && statics[node.id].dest == node
    {
      var task := new DialTask(node);
      statics := statics[node.id := task];
    }

    /** The task leaves the pool before it leaves the map; nothing can observe the state in between. */
    method RemoveStatic(id: NodeID)
      requires Valid()
      modifies this`statics, this`staticPool, this`pool, statics.Values
      ensures Valid() && Model() == OnRemoveStatic(old(Model()), id)
    {
      PooledAreStatic();
      if id in statics {
        hide SlotOf, SwapRemove, PoolIndexed, PoolLinked, DialingKeyed, Dests;
        DropFromPool(id);
        ForgetStatic(id);
      } else {
        assert Model().statics - {id} == Model().statics;
      }
    }

    lemma NoneExpired(s: Sched)
      ensures OnAllExpired(s, []) == s
    {
    }

    lemma ExpireOneMore(s: Sched, order: seq<NodeID>, id: NodeID)
      ensures OnAllExpired(s, order + [id]) == OnExpired(OnAllExpired(s, order), id)
    {
      assert (order + [id])[..|order|] == order;
    }

    lemma DialableStatic(s: Sched, id: NodeID)
      requires id in s.statics
      ensures Dialable(s, id) <==> CheckDial(s, s.statics[id]) == DialOk
    {
    }

    method ForgetStatic(id: NodeID)
      requires Valid() && id in statics && id !in pool
      modifies this`statics
      ensures Valid() && Model() == old(Model()).(statics := old(Model()).statics - {id})
    {
      statics := statics - {id};
    }

    /** Forgets the entries that expired before now, in any order. */
    method ExpireHistory(now: int) returns (ghost order: seq<NodeID>)
      requires Valid()
      modifies this`history, this`staticPool, this`pool, statics.Values
      ensures Valid() && Model() == OnAllExpired(old(Model()), order)
      ensures Distinct(order) && forall id :: id in order <==> id in old(history) && old(history)[id] < now
    {
      hide UpdatePool, Valid, Dests, OnAllExpired;
      NoneExpired(Model());
      var expired := set id | id in history && history[id] < now;
      order := [];
      while expired != {}
        invariant Valid() && statics == old(statics)
        invariant Model() == OnAllExpired(old(Model()), order)
        invariant Distinct(order) && forall id :: id in order ==> id !in expired
        invariant forall id :: id in order || id in expired <==> id in old(history) && old(history)[id] < now
        decreases |expired|
      {
        var id :| id in expired;
        history, expired := history - {id}, expired - {id};
        UpdateStaticPool(id);
        ExpireOneMore(old(Model()), order, id);
        order := order + [id];
      }
    }

    /** A running task stores the node its resolver found. */
    method TaskResolved(task: DialTask, node: Node)
      requires Valid() && node.id == task.dest.id && node.id in dialing && dialing[node.id] == task
      modifies task
      ensures Valid()
      ensures Model() == if node.id in statics && statics[node.id] == task
                         then OnResolved(old(Model()), node) else old(Model())
    {
      task.dest := node;
    }
  }
}

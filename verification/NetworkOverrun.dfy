/** How far the dialed peers can exceed their limit: the bound of module Network is reached in every
    configuration, so the limit is kept exactly in those where the two are equal. */
module NetworkOverrun {
  import opened DialModel
  import opened Text
  import opened Network
  import Multiplex

  ghost predicate Reachable(cfg: Config, net: Net) {
    exists states, steps :: Run(cfg, states, steps) && states[|steps|] == net
  }

  lemma ReachInit(cfg: Config, net: Net)
    requires Init(cfg, net)
    ensures Reachable(cfg, net)
  {
    assert Run(cfg, [net], []);
  }

  lemma ReachStep(cfg: Config, net: Net, step: Step)
    requires Reachable(cfg, net) && Enabled(cfg, net, step)
    ensures Reachable(cfg, After(cfg, net, step))
  {
    hide Enabled, After, Init;
    var states, steps :| Run(cfg, states, steps) && states[|steps|] == net;
    assert Run(cfg, states + [After(cfg, net, step)], steps + [step]);
  }

  lemma ReachKeeps(cfg: Config, net: Net)
    requires Reachable(cfg, net)
    ensures NetInv(cfg, net)
  {
    hide NetInv, Enabled, After, Init;
    var states, steps :| Run(cfg, states, steps) && states[|steps|] == net;
    RunKeeps(cfg, states, steps, |steps|);
  }

  /** The next number that names neither a node nor a connection. */
  ghost predicate Unused(cfg: Config, net: Net, top: nat) {
    && cfg.self < top
    && (forall id :: id in net.sched.statics || id in net.sched.history || id in net.sched.dialing ==> id < top)
    && (forall id :: id in net.peers ==> id < top)
    && (forall c :: c in net.conns ==> c < top)
  }

  /** So many peers, all dialed, and so many dial tasks that have not connected yet. No node is trusted before
      MaxPeers is exceeded. */
  ghost predicate Shape(cfg: Config, net: Net, joined: nat, dials: nat) {
    && net.report == Idle && net.sched.pool == []
    && net.sched.dialPeers == joined == |net.peers| && net.sched.peers == net.peers.Keys
    && PeersWith(net, Dialed) == net.peers.Keys
    && |net.sched.dialing| == dials && net.links.Keys == net.sched.dialing && net.sched.dialing !! net.peers.Keys
    && (forall id :: id in net.links ==> net.links[id] == None && id != cfg.self)
    && (joined <= cfg.maxPeers ==> net.trusted == {})
  }

  ghost predicate Calm(cfg: Config, net: Net, joined: nat, dials: nat, top: nat) {
    Reachable(cfg, net) && Shape(cfg, net, joined, dials) && Unused(cfg, net, top)
  }

  /** The slots of a calm state's scheduler, free or not. */
  function Slots(cfg: Config, joined: nat): int {
    var slots := (MaxDialedConns(cfg) - joined) * 2;
    if slots > ActiveDials(cfg) then ActiveDials(cfg) else slots
  }

  lemma CalmSlots(cfg: Config, net: Net, joined: nat, dials: nat, top: nat)
    requires Calm(cfg, net, joined, dials, top)
    ensures FreeDialSlots(net.sched) == Slots(cfg, joined) - dials && net.sched.self == cfg.self
  {
    ReachKeeps(cfg, net);
    hide Reachable, Inv, PeersJoined, Counted, Mirrored, Linked, DialBudget, PeersWith;
  }

  // ---- One dial ----

  /** The scheduler after a new static node is added and dialed. */
  function Dialing(s: Sched, id: NodeID): Sched {
    s.(statics := s.statics[id := Node(id, 30303)], dialing := s.dialing + {id}, history := s.history[id := 0])
  }

  lemma AddAndStart(s: Sched, id: NodeID)
    requires s.pool == [] && id != s.self
    requires id !in s.statics && id !in s.history && id !in s.dialing && id !in s.peers
    ensures var t := OnAddStatic(s, Node(id, 30303));
            t == s.(statics := t.statics, pool := [id]) && StartOne(t, 0, 0) == Dialing(s, id)
  {
    var n := Node(id, 30303);
    var u := s.(statics := s.statics[id := n]);
    assert Dialable(u, id);
    hide Dialable, CheckDial, SlotOf;
    assert [] + [id] == [id] && SwapRemove([id], 0) == [];
    assert OnAddStatic(s, n) == u.(pool := [id]);
    hide OnAddStatic, SwapRemove;
  }

  lemma ReachDialing(cfg: Config, net: Net, id: NodeID)
    requires Reachable(cfg, net) && net.sched.pool == [] && id != net.sched.self && FreeDialSlots(net.sched) > 0
    requires id !in net.sched.statics && id !in net.sched.history && id !in net.sched.dialing
    requires id !in net.sched.peers
    ensures Reachable(cfg, net.(sched := Dialing(net.sched, id), links := net.links[id := None]))
  {
    hide Reachable, StartOne, OnAddStatic, Dialing;
    AddAndStart(net.sched, id);
    ReachStep(cfg, net, AddStatic(Node(id, 30303)));
    ReachStep(cfg, After(cfg, net, AddStatic(Node(id, 30303))), StartDial(0, 0));
  }

  lemma DialingPeers(net: Net, s: Sched, links: map<NodeID, Option<nat>>, kind: Kind)
    ensures PeersWith(net.(sched := s, links := links), kind) == PeersWith(net, kind)
  {
  }

  lemma DialingShape(cfg: Config, net: Net, joined: nat, dials: nat, top: nat)
    requires Shape(cfg, net, joined, dials) && Unused(cfg, net, top)
    ensures Shape(cfg, net.(sched := Dialing(net.sched, top), links := net.links[top := None]), joined, dials + 1)
  {
    var t := net.(sched := Dialing(net.sched, top), links := net.links[top := None]);
    DialingPeers(net, t.sched, t.links, Dialed);
    hide PeersWith;
    assert top !in net.sched.dialing && top !in net.peers && top != cfg.self;
    hide Unused;
    forall id | id in t.links ensures t.links[id] == None && id != cfg.self && id !in net.peers {
      assert id == top || id in net.links;
    }
    assert t.links.Keys == net.links.Keys + {top};
  }

  lemma DialingUnused(cfg: Config, net: Net, top: nat)
    requires Unused(cfg, net, top)
    ensures Unused(cfg, net.(sched := Dialing(net.sched, top), links := net.links[top := None]), top + 1)
  {
  }

  lemma StartAnother(cfg: Config, net: Net, joined: nat, dials: nat, top: nat) returns (t: Net)
    requires Calm(cfg, net, joined, dials, top) && dials < Slots(cfg, joined)
    ensures Calm(cfg, t, joined, dials + 1, top + 1)
  {
    CalmSlots(cfg, net, joined, dials, top);
    DialingShape(cfg, net, joined, dials, top);
    DialingUnused(cfg, net, top);
    hide Reachable, Dialing, FreeDialSlots, Slots, PeersWith;
    ReachDialing(cfg, net, top);
    t := net.(sched := Dialing(net.sched, top), links := net.links[top := None]);
  }

  // ---- One peer ----

  lemma SomeCapability(protocols: seq<Multiplex.Protocol>) returns (caps: seq<Multiplex.Cap>)
    ensures |protocols| > 0 ==> Multiplex.CountMatching(protocols, caps) > 0
  {
    caps := [];
    if protocols != [] {
      var c := Multiplex.Cap(protocols[0].name, protocols[0].version);
      caps := [c];
      assert Multiplex.Matches(protocols[0], c);
      assert c in Multiplex.Shared(protocols, caps);
      Multiplex.CountPositive(protocols, caps);
    }
  }

  ghost function Trusting(net: Net, id: NodeID, on: bool): Net {
    if on then net.(trusted := net.trusted + {id}) else net
  }

  ghost function Connected(net: Net, id: NodeID, c: nat, conn: Conn): Net {
    net.(conns := net.conns[c := conn], links := net.links[id := Some(c)])
  }

  /** A dial task's connection passes the first checkpoint; its node is trusted first if there is no room. */
  lemma ReachChecked(cfg: Config, net: Net, id: NodeID, c: nat, trust: bool)
    requires Reachable(cfg, net) && net.report == Idle && id in net.links && net.links[id] == None
    requires id !in net.peers && id != cfg.self && c !in net.conns
    requires !trust ==> |net.peers| < cfg.maxPeers && net.trusted == {}
    ensures Reachable(cfg, Connected(Trusting(net, id, trust), id, c, Conn(id, false, trust, Checked, false)))
  {
    hide Reachable;
    var start := Trusting(net, id, trust);
    if trust {
      ReachStep(cfg, net, Trust(id));
      assert After(cfg, net, Trust(id)) == start;
    }
    ReachStep(cfg, start, Connect(id, c));
    var mid := Connected(start, id, c, Conn(id, false, false, New, false));
    ReachStep(cfg, mid, PostHandshake(c));
    assert After(cfg, mid, PostHandshake(c)).conns
        == start.conns[c := Conn(id, false, trust, Checked, false)];
  }

  ghost function Joining(net: Net, id: NodeID, c: nat, conn: Conn): Net {
    net.(conns := net.conns[c := conn], peers := net.peers[id := c], links := net.links - {id},
         sched := net.sched.(peers := net.sched.peers + {id}, dialPeers := net.sched.dialPeers + 1,
                             dialing := net.sched.dialing - {id}))
  }

  lemma SchedJoins(s: Sched, id: NodeID)
    requires s.pool == [] && Keyed(s)
    ensures OnPeerAdded(s, id, true) == s.(peers := s.peers + {id}, dialPeers := s.dialPeers + 1)
    ensures OnDone(OnPeerAdded(s, id, true), id)
         == s.(peers := s.peers + {id}, dialPeers := s.dialPeers + 1, dialing := s.dialing - {id})
  {
    var t := s.(peers := s.peers + {id}, dialPeers := s.dialPeers + 1);
    assert Drop(t, id) == t;
    var u := t.(dialing := s.dialing - {id});
    assert !Dialable(u, id);
    assert UpdatePool(u, id) == u;
  }

  ghost function Reported(net: Net, id: NodeID, c: nat, conn: Conn): Net {
    net.(conns := net.conns[c := conn], peers := net.peers[id := c], sched := OnPeerAdded(net.sched, id, true))
  }

  /** It passes the second one, and the scheduler is told. */
  lemma ReachReported(cfg: Config, net: Net, id: NodeID, c: nat, conn: Conn)
    requires Reachable(cfg, net) && net.report == Idle && net.sched.pool == [] && id !in net.peers && id != cfg.self
    requires c in net.conns && net.conns[c] == conn && conn == Conn(id, false, conn.trusted, Checked, false)
    requires !conn.trusted ==> |net.peers| < cfg.maxPeers
    ensures Reachable(cfg, Reported(net, id, c, conn.(stage := Joined, waived := conn.trusted)))
  {
    hide Reachable, OnPeerAdded;
    var caps := SomeCapability(cfg.protocols);
    ReachStep(cfg, net, AddPeer(c, caps));
    ReachStep(cfg, After(cfg, net, AddPeer(c, caps)), TakeAdded);
  }

  lemma TaskEnds(cfg: Config, net: Net, id: NodeID, c: nat, conn: Conn)
    requires net.report == Idle && id in net.links && id in net.sched.dialing && net.links[id] == Some(c)
    requires c in net.conns && net.conns[c] == conn && conn.stage == Joined && Settled(net.sched)
    ensures Enabled(cfg, net, DialDone(id))
    ensures After(cfg, net, DialDone(id)) == net.(sched := OnDone(net.sched, id), links := net.links - {id})
  {
    hide OnDone, Settled;
  }

  /** Then the task ends. */
  lemma ReachJoined(cfg: Config, net: Net, id: NodeID, c: nat, trust: bool)
    requires net.report == Idle && id in net.links && id in net.sched.dialing
    requires net.sched.pool == [] && Keyed(net.sched) && id !in net.peers && id != cfg.self && c !in net.conns
    requires !trust ==> |net.peers| < cfg.maxPeers
    requires Reachable(cfg, Connected(net, id, c, Conn(id, false, trust, Checked, false)))
    ensures Reachable(cfg, Joining(net, id, c, Conn(id, false, trust, Joined, trust)))
  {
    hide Reachable, OnPeerAdded, OnDone, Keyed;
    var n0 := Connected(net, id, c, Conn(id, false, trust, Checked, false));
    var joined := Conn(id, false, trust, Joined, trust);
    ReachReported(cfg, n0, id, c, n0.conns[c]);
    SchedJoins(net.sched, id);
    var n1 := Reported(n0, id, c, joined);
    assert Settled(n1.sched);
    TaskEnds(cfg, n1, id, c, joined);
    JoiningIs(net, id, c, n0.conns[c], joined);
    hide Enabled, After, Reported, Joining, Connected;
    ReachStep(cfg, n1, DialDone(id));
  }

  lemma JoiningIs(net: Net, id: NodeID, c: nat, conn: Conn, joined: Conn)
    requires id in net.links && net.sched.pool == [] && Keyed(net.sched)
    ensures var n := Reported(Connected(net, id, c, conn), id, c, joined);
            n.(sched := OnDone(n.sched, id), links := n.links - {id}) == Joining(net, id, c, joined)
  {
    SchedJoins(net.sched, id);
    hide OnDone, OnPeerAdded, Keyed;
    assert net.links[id := Some(c)] - {id} == net.links - {id};
  }

  lemma JoiningDialed(net: Net, id: NodeID, c: nat, conn: Conn)
    requires PeersWith(net, Dialed) == net.peers.Keys && id !in net.peers && c !in net.conns && !conn.inbound
    ensures PeersWith(Joining(net, id, c, conn), Dialed) == net.peers.Keys + {id}
  {
    var t := Joining(net, id, c, conn);
    forall n | n in net.peers ensures net.peers[n] in net.conns && n in PeersWith(t, Dialed) {
      assert n in PeersWith(net, Dialed);
    }
  }

  lemma JoiningCounts(net: Net, id: NodeID, c: nat, conn: Conn)
    requires id in net.sched.dialing && id !in net.peers
    ensures var t := Joining(net, id, c, conn);
            && |t.peers| == |net.peers| + 1 && t.peers.Keys == net.peers.Keys + {id}
            && |t.sched.dialing| == |net.sched.dialing| - 1 && t.links.Keys == net.links.Keys - {id}
  {
    CountShrinks(net.sched.dialing, id);
    CountGrows(net.peers.Keys, id, true);
    assert net.peers[id := c].Keys == net.peers.Keys + {id};
  }

  lemma JoiningLinks(cfg: Config, net: Net, id: NodeID, c: nat, conn: Conn)
    requires net.links.Keys == net.sched.dialing && net.sched.dialing !! net.peers.Keys
    requires forall n :: n in net.links ==> net.links[n] == None && n != cfg.self
    ensures var t := Joining(net, id, c, conn);
            && t.links.Keys == t.sched.dialing && t.sched.dialing !! t.peers.Keys
            && forall n :: n in t.links ==> t.links[n] == None && n != cfg.self
  {
  }

  lemma JoiningShape(cfg: Config, net: Net, joined: nat, dials: nat, id: NodeID, c: nat, trust: bool)
    requires Shape(cfg, net, joined, dials) && id in net.sched.dialing && c !in net.conns
    requires trust <==> joined >= cfg.maxPeers
    ensures dials > 0
    ensures Shape(cfg, Joining(Trusting(net, id, trust), id, c, Conn(id, false, trust, Joined, trust)),
                  joined + 1, dials - 1)
  {
    var from, conn := Trusting(net, id, trust), Conn(id, false, trust, Joined, trust);
    assert PeersWith(from, Dialed) == PeersWith(net, Dialed);
    JoiningDialed(from, id, c, conn);
    hide PeersWith;
    JoiningCounts(from, id, c, conn);
    JoiningLinks(cfg, from, id, c, conn);
  }

  lemma JoiningUnused(cfg: Config, net: Net, id: NodeID, trust: bool, conn: Conn, top: nat)
    requires Unused(cfg, net, top) && id in net.sched.dialing
    ensures Unused(cfg, Joining(Trusting(net, id, trust), id, top, conn), top + 1)
  {
  }

  lemma JoinAnother(cfg: Config, net: Net, joined: nat, dials: nat, top: nat) returns (t: Net)
    requires Calm(cfg, net, joined, dials, top) && dials > 0
    ensures Calm(cfg, t, joined + 1, dials - 1, top + 1)
  {
    var id :| id in net.sched.dialing;
    var trust := joined >= cfg.maxPeers;
    var conn := Conn(id, false, trust, Joined, trust);
    ReachKeeps(cfg, net);
    assert Keyed(net.sched);
    JoiningShape(cfg, net, joined, dials, id, top, trust);
    JoiningUnused(cfg, net, id, trust, conn, top);
    assert top !in net.conns && id in net.links && id !in net.peers && net.links[id] == None && id != cfg.self;
    hide Reachable, Unused, NetInv, PeersWith, Joining, Keyed;
    ReachChecked(cfg, net, id, top, trust);
    ReachJoined(cfg, Trusting(net, id, trust), id, top, trust);
    t := Joining(Trusting(net, id, trust), id, top, conn);
  }

  // ---- Many ----

  lemma {:induction false} StartMany(cfg: Config, net: Net, joined: nat, dials: nat, top: nat, goal: nat)
    returns (t: Net, top': nat)
    requires Calm(cfg, net, joined, dials, top) && dials <= goal && (dials < goal ==> goal <= Slots(cfg, joined))
    ensures Calm(cfg, t, joined, goal, top')
    decreases goal - dials
  {
    hide Calm;
    t, top' := net, top;
    if dials < goal {
      t := StartAnother(cfg, net, joined, dials, top);
      t, top' := StartMany(cfg, t, joined, dials + 1, top + 1, goal);
    }
  }

  lemma {:induction false} JoinMany(cfg: Config, net: Net, joined: nat, dials: nat, top: nat)
    returns (t: Net, top': nat)
    requires Calm(cfg, net, joined, dials, top)
    ensures Calm(cfg, t, joined + dials, 0, top')
    decreases dials
  {
    hide Calm;
    t, top' := net, top;
    if dials > 0 {
      t := JoinAnother(cfg, net, joined, dials, top);
      t, top' := JoinMany(cfg, t, joined + 1, dials - 1, top + 1);
    }
  }

  /** One dial after the other, up to the limit. */
  lemma {:induction false} FillUp(cfg: Config, goal: nat) returns (t: Net, top: nat)
    requires goal == 0 || (goal <= MaxDialedConns(cfg) && ActiveDials(cfg) > 0)
    ensures Calm(cfg, t, goal, 0, top)
  {
    if goal == 0 {
      t, top := Net(map[], map[], 0, {}, Idle,
                    Sched(cfg.self, MaxDialedConns(cfg), ActiveDials(cfg), {}, {}, 0, map[], [], map[]), map[]),
                cfg.self + 1;
      ReachInit(cfg, t);
      assert PeersWith(t, Dialed) == {};
    } else {
      hide Calm;
      t, top := FillUp(cfg, goal - 1);
      t, top := StartMany(cfg, t, goal - 1, 0, top, 1);
      t, top := JoinMany(cfg, t, goal - 1, 1, top);
    }
  }

  /** In every configuration a run reaches the bound on dialed peers: it fills up to where the free slots are
      most, starts that many dials, and all of them become peers. If MaxPeers leaves room, no node is trusted. */
  lemma DialLimitOverrun(cfg: Config) returns (net: Net)
    ensures Reachable(cfg, net) && net.report == Idle && |PeersWith(net, Dialed)| == DialedBound(cfg)
    ensures DialedBound(cfg) <= cfg.maxPeers ==> net.trusted == {}
  {
    var limit, active := MaxDialedConns(cfg), ActiveDials(cfg);
    var off := limit <= 0 || active <= 0;
    var start := if off || limit < active / 2 then 0 else limit - active / 2;
    var dials := DialedBound(cfg) - start;
    var top: nat;
    net, top := FillUp(cfg, start);
    hide Reachable, PeersWith, Unused;
    net, top := StartMany(cfg, net, start, 0, top, dials);
    net, top := JoinMany(cfg, net, start, dials, top);
  }

  /** No run exceeds the limit on dialed peers if and only if there is no limit to exceed or only one dial runs at
      a time. */
  lemma DialLimitKept(cfg: Config)
    ensures (forall net :: Reachable(cfg, net) ==> |PeersWith(net, Dialed)| <= AtLeastZero(MaxDialedConns(cfg)))
       <==> MaxDialedConns(cfg) <= 0 || cfg.maxPendingPeers < 0 || cfg.maxPendingPeers == 1
  {
    var most := DialLimitOverrun(cfg);
    hide Reachable, Run, PeersWith;
    forall net | Reachable(cfg, net) ensures |PeersWith(net, Dialed)| <= DialedBound(cfg) {
      ReachBounded(cfg, net);
    }
  }

  lemma ReachBounded(cfg: Config, net: Net)
    requires Reachable(cfg, net)
    ensures |PeersWith(net, Dialed)| <= DialedBound(cfg)
  {
    hide PeersWith, Enabled, After, Init;
    var states, steps :| Run(cfg, states, steps) && states[|steps|] == net;
    DialedPeersBounded(cfg, states, steps, |steps|);
  }

  /** A hundred peers with the defaults: 33 may be dialed and 67 inbound, and up to 58 are dialed. */
  lemma DefaultLimits(cfg: Config)
    requires cfg.maxPeers == 100 && !cfg.noDial && cfg.dialRatio == 0 && cfg.maxPendingPeers == 0
    ensures MaxDialedConns(cfg) == 33 && MaxInboundConns(cfg) == 67 && DialedBound(cfg) == 58
  {
  }
}

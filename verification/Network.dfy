/** internal/p2p/p2p.go: the server's run loop together with the dial scheduler, the connections being set up and
    the dial tasks. One step is one event of one goroutine; when the server reports a peer to the scheduler it
    waits for the scheduler to take the report, which is a step of its own. */
module Network {
  import opened DialModel
  import opened Text
  import opened Machine
  import Multiplex

  datatype Config = Config(
    self: NodeID, maxPeers: int, noDial: bool, dialRatio: int, maxPendingPeers: int, protocols: seq<Multiplex.Protocol>)

  const DEFAULT_DIAL_RATIO: int := 3
  const DEFAULT_PENDING_PEERS: int := 50

  function Ratio(cfg: Config): (ratio: int)
    ensures ratio != 0
  {
    if cfg.dialRatio == 0 then DEFAULT_DIAL_RATIO else cfg.dialRatio
  }

  /** The limit is zero only if dialing is off or no peers are allowed. With settings that are not negative it is
      then the largest share of MaxPeers that the ratio allows, or 1 if that is none. */
  function MaxDialedConns(cfg: Config): (limit: int)
    ensures limit == 0 <==> cfg.noDial || cfg.maxPeers == 0
    ensures cfg.maxPeers >= 0 && cfg.dialRatio >= 0 ==> 0 <= limit <= cfg.maxPeers
    ensures limit > 0 && cfg.maxPeers > 0 && cfg.dialRatio >= 0 ==>
              var ratio := if cfg.dialRatio == 0 then 3 else cfg.dialRatio;
              (limit == 1 || limit * ratio <= cfg.maxPeers) && cfg.maxPeers < (limit + 1) * ratio
    ensures limit < 0 ==> (cfg.maxPeers < 0) != (cfg.dialRatio < 0)
  {
    if cfg.noDial || cfg.maxPeers == 0 then 0
    else
      QuotientSigns(cfg.maxPeers, Ratio(cfg));
      QuotientMeans(cfg.maxPeers, Ratio(cfg));
      var limit := Quotient(cfg.maxPeers, Ratio(cfg));
      if limit == 0 then 1 else limit
  }

  function MaxInboundConns(cfg: Config): int { cfg.maxPeers - MaxDialedConns(cfg) }

  /** The scheduler's limit on running dials. */
  function ActiveDials(cfg: Config): int {
    if cfg.maxPendingPeers == 0 then DEFAULT_PENDING_PEERS else cfg.maxPendingPeers
  }

  /** The most dialed peers there can be: a dial is started while the running ones, if they all become peers,
      keep within twice the distance to the limit, and within the active dials. */
  function DialedBound(cfg: Config): nat {
    var limit, active := MaxDialedConns(cfg), ActiveDials(cfg);
    if limit <= 0 || active <= 0 then 0 else limit + if limit < active / 2 then limit else active / 2
  }

  function AtLeastZero(x: int): nat { if x < 0 then 0 else x }

  // ---- State ----

  /** A connection is new, has passed the first checkpoint, is a peer, or is closed. */
  datatype Stage = New | Checked | Joined | Closed

  /** A connection was accepted or dialed by a static task. `waived` is history: it was trusted when it became a
      peer, so the limits were not applied. */
  datatype Conn = Conn(node: NodeID, inbound: bool, trusted: bool, stage: Stage, waived: bool)

  /** The server is waiting for events, or for the scheduler to take a report about a connection. */
  datatype Report = Idle | Adding(conn: nat) | Removing(conn: nat)

  datatype Net = Net(
    conns: map<nat, Conn>,
    peers: map<NodeID, nat>,
    inboundCount: int,
    trusted: set<NodeID>,
    report: Report,
    sched: Sched,
    links: map<NodeID, Option<nat>>)   // each running dial task, and the connection it has set up

  datatype Disc = Fine | TooManyPeers | AlreadyConnected | Self | UselessPeer

  function PostHandshakeChecks(cfg: Config, net: Net, c: Conn): Disc {
    if !c.trusted && |net.peers| >= cfg.maxPeers then TooManyPeers
    else if !c.trusted && c.inbound && net.inboundCount >= MaxInboundConns(cfg) then TooManyPeers
    else if c.node in net.peers then Disc.AlreadyConnected
    else if c.node == cfg.self then Self
    else Fine
  }

  function AddPeerChecks(cfg: Config, net: Net, c: Conn, caps: seq<Multiplex.Cap>): Disc {
    if |cfg.protocols| > 0 && Multiplex.CountMatching(cfg.protocols, caps) == 0 then UselessPeer
    else PostHandshakeChecks(cfg, net, c)
  }

  // ---- Steps ----

  datatype Step =
    | Trust(id: NodeID)
    | Untrust(id: NodeID)
    | Accept(conn: nat, id: NodeID)               // an inbound connection finishes its encryption handshake
    | Connect(id: NodeID, conn: nat)              // so does the connection of a dial task
    | PostHandshake(conn: nat)                    // first checkpoint
    | AddPeer(conn: nat, caps: seq<Multiplex.Cap>)  // second checkpoint
    | TakeAdded                                   // the scheduler takes peerAdded
    | DropPeer(conn: nat)                         // the server receives from delpeer
    | TakeRemoved                                 // the scheduler takes peerRemoved
    | Fail(conn: nat)                             // a handshake fails
    | StartDial(slot: nat, expiry: int)
    | DialDone(id: NodeID)                        // the scheduler receives from doneCh
    | AddStatic(node: Node)
    | RemoveStatic(id: NodeID)
    | Expire(order: seq<NodeID>)
    | Resolve(node: Node)

  ghost predicate AtStage(net: Net, c: nat, stage: Stage) { c in net.conns && net.conns[c].stage == stage }

  /** The task's SetupConn call has returned, or was never made. */
  ghost predicate TaskOver(net: Net, id: NodeID) {
    && id in net.links
    && (net.links[id].Some? ==>
          var c := net.links[id].value;
          (AtStage(net, c, Joined) || AtStage(net, c, Closed)) && net.report != Adding(c))
  }

  /** The scheduler waits for events only after it has started all the dials it can. */
  predicate Settled(s: Sched) { FreeDialSlots(s) <= 0 || s.pool == [] }

  ghost predicate Enabled(cfg: Config, net: Net, step: Step) {
    match step
    case Trust(id) => net.report == Idle
    case Untrust(id) => net.report == Idle
    case Accept(c, id) => c !in net.conns
    case Connect(id, c) => c !in net.conns && id in net.links && net.links[id] == None
    case PostHandshake(c) => net.report == Idle && AtStage(net, c, New)
    case AddPeer(c, caps) => net.report == Idle && AtStage(net, c, Checked)
    case TakeAdded => net.report.Adding? && net.report.conn in net.conns && Settled(net.sched)
    case DropPeer(c) => net.report == Idle && AtStage(net, c, Joined)
    case TakeRemoved => net.report.Removing? && net.report.conn in net.conns && Settled(net.sched)
    case Fail(c) => AtStage(net, c, New) || AtStage(net, c, Checked)
    case StartDial(slot, expiry) => slot < |net.sched.pool| && FreeDialSlots(net.sched) > 0
    case DialDone(id) => id in net.sched.dialing && TaskOver(net, id) && Settled(net.sched)
    case AddStatic(n) => Settled(net.sched)
    case RemoveStatic(id) => Settled(net.sched)
    case Expire(order) => Settled(net.sched)
    case Resolve(n) => n.id in net.sched.dialing && n.id in net.sched.statics
  }

  function SetTrust(net: Net, id: NodeID, on: bool): map<nat, Conn> {
    if id in net.peers && net.peers[id] in net.conns then
      net.conns[net.peers[id] := net.conns[net.peers[id]].(trusted := on)]
    else net.conns
  }

  function TookAdded(net: Net): Net
    requires net.report.Adding? && net.report.conn in net.conns
  {
    var conn := net.conns[net.report.conn];
    net.(sched := OnPeerAdded(net.sched, conn.node, !conn.inbound),
         inboundCount := net.inboundCount + (if conn.inbound then 1 else 0), report := Idle)
  }

  function TookRemoved(net: Net): Net
    requires net.report.Removing? && net.report.conn in net.conns
  {
    var conn := net.conns[net.report.conn];
    net.(sched := OnPeerRemoved(net.sched, conn.node, !conn.inbound),
         inboundCount := net.inboundCount - (if conn.inbound then 1 else 0), report := Idle)
  }

  function Started(net: Net, slot: nat, expiry: int): Net
    requires slot < |net.sched.pool|
  {
    net.(sched := StartOne(net.sched, slot, expiry), links := net.links[net.sched.pool[slot] := None])
  }

  ghost function After(cfg: Config, net: Net, step: Step): Net
    requires Enabled(cfg, net, step)
  {
    match step
    case Trust(id) => net.(trusted := net.trusted + {id}, conns := SetTrust(net, id, true))
    case Untrust(id) => net.(trusted := net.trusted - {id}, conns := SetTrust(net, id, false))
    case Accept(c, id) => net.(conns := net.conns[c := Conn(id, true, false, New, false)])
    case Connect(id, c) =>
      net.(conns := net.conns[c := Conn(id, false, false, New, false)], links := net.links[id := Some(c)])
    case PostHandshake(c) =>
      var conn := net.conns[c].(trusted := net.conns[c].trusted || net.conns[c].node in net.trusted);
      var stage := if PostHandshakeChecks(cfg, net, conn) == Fine then Checked else Closed;
      net.(conns := net.conns[c := conn.(stage := stage)])
    case AddPeer(c, caps) =>
      var conn := net.conns[c];
      if AddPeerChecks(cfg, net, conn, caps) == Fine then
        net.(conns := net.conns[c := conn.(stage := Joined, waived := conn.trusted)],
             peers := net.peers[conn.node := c], report := Adding(c))
      else net.(conns := net.conns[c := conn.(stage := Closed)])
    case TakeAdded => TookAdded(net)
    case DropPeer(c) =>
      var conn := net.conns[c];
      net.(peers := net.peers - {conn.node}, conns := net.conns[c := conn.(stage := Closed)], report := Removing(c))
    case TakeRemoved => TookRemoved(net)
    case Fail(c) => net.(conns := net.conns[c := net.conns[c].(stage := Closed)])
    case StartDial(slot, expiry) => Started(net, slot, expiry)
    case DialDone(id) => net.(sched := OnDone(net.sched, id), links := net.links - {id})
    case AddStatic(n) => net.(sched := OnAddStatic(net.sched, n))
    case RemoveStatic(id) => net.(sched := OnRemoveStatic(net.sched, id))
    case Expire(order) => net.(sched := OnAllExpired(net.sched, order))
    case Resolve(n) => net.(sched := OnResolved(net.sched, n))
  }

  ghost predicate Init(cfg: Config, net: Net) {
    net == Net(map[], map[], 0, net.trusted, Idle,
               Sched(cfg.self, MaxDialedConns(cfg), ActiveDials(cfg), {}, {}, 0, map[], [], map[]), map[])
  }

  // ---- Counting peers ----

  datatype Kind = Inbound | Dialed | Limited | LimitedInbound

  /** Limited peers are those admitted untrusted. */
  predicate Has(c: Conn, kind: Kind) {
    match kind
    case Inbound => c.inbound
    case Dialed => !c.inbound
    case Limited => !c.waived
    case LimitedInbound => !c.waived && c.inbound
  }

  ghost function PeersWith(net: Net, kind: Kind): set<NodeID> {
    set n | n in net.peers && net.peers[n] in net.conns && Has(net.conns[net.peers[n]], kind)
  }

  /** What the peers map is ahead of the counters by while a report is pending. */
  ghost function Lag(net: Net, kind: Kind): int {
    match net.report
    case Idle => 0
    case Adding(c) => if c in net.conns && Has(net.conns[c], kind) then 1 else 0
    case Removing(c) => if c in net.conns && Has(net.conns[c], kind) then -1 else 0
  }

  // ---- The invariant ----

  /** Peers and joined connections match one to one. */
  ghost predicate PeersJoined(cfg: Config, net: Net) {
    && (forall n :: n in net.peers ==> AtStage(net, net.peers[n], Joined) && net.conns[net.peers[n]].node == n)
    && (forall c :: AtStage(net, c, Joined) ==> net.conns[c].node in net.peers && net.peers[net.conns[c].node] == c)
    && cfg.self !in net.peers
    && (net.report.Adding? ==> AtStage(net, net.report.conn, Joined))
    && (net.report.Removing? ==> AtStage(net, net.report.conn, Closed) && net.conns[net.report.conn].node !in net.peers)
  }

  ghost predicate Counted(cfg: Config, net: Net) {
    && net.inboundCount == |PeersWith(net, Inbound)| - Lag(net, Inbound)
    && net.sched.dialPeers == |PeersWith(net, Dialed)| - Lag(net, Dialed)
    && |PeersWith(net, Limited)| <= AtLeastZero(cfg.maxPeers)
    && |PeersWith(net, LimitedInbound)| <= AtLeastZero(MaxInboundConns(cfg))
  }

  /** The scheduler's peers are the server's, up to the report it has not taken yet. */
  ghost predicate Mirrored(net: Net) {
    match net.report
    case Idle => net.sched.peers == net.peers.Keys
    case Adding(c) => c in net.conns && net.sched.peers == net.peers.Keys - {net.conns[c].node}
    case Removing(c) => c in net.conns && net.sched.peers == net.peers.Keys + {net.conns[c].node}
  }

  /** The connection is not yet a peer the scheduler knows of, and may still become one. */
  ghost predicate Coming(net: Net, c: nat) {
    c in net.conns && (net.conns[c].stage == New || net.conns[c].stage == Checked || net.report == Adding(c))
  }

  /** The dial tasks that may still add to the scheduler's dialed peers. */
  ghost function Undelivered(net: Net): set<NodeID> {
    set id | id in net.links && (net.links[id].None? || Coming(net, net.links[id].value))
  }

  ghost predicate Linked(net: Net) {
    && net.links.Keys == net.sched.dialing
    && (forall id :: id in net.links && net.links[id].Some? ==>
          net.links[id].value in net.conns
          && net.conns[net.links[id].value].node == id && !net.conns[net.links[id].value].inbound)
    && (forall c :: Coming(net, c) && !net.conns[c].inbound ==>
          net.conns[c].node in net.links && net.links[net.conns[c].node] == Some(c))
  }

  ghost predicate DialBudget(cfg: Config, net: Net) {
    net.sched.dialPeers + |Undelivered(net)| <= DialedBound(cfg)
  }

  ghost predicate SchedFits(cfg: Config, s: Sched) {
    Inv(s) && s.self == cfg.self && s.maxDialPeers == MaxDialedConns(cfg) && s.maxActiveDials == ActiveDials(cfg)
  }

  ghost predicate NetInv(cfg: Config, net: Net) {
    && PeersJoined(cfg, net) && Counted(cfg, net) && Mirrored(net)
    && Linked(net) && DialBudget(cfg, net) && SchedFits(cfg, net.sched)
  }

  // ---- The steps keep it ----

  /** What the server and the counters rest on, and what the dial budget rests on. */
  ghost predicate ServerInv(cfg: Config, net: Net) { PeersJoined(cfg, net) && Counted(cfg, net) && Mirrored(net) }

  ghost predicate DialInv(cfg: Config, net: Net) { Linked(net) && DialBudget(cfg, net) && SchedFits(cfg, net.sched) }

  /** Counts depend only on which connection each peer has and on what limits know of it. */
  lemma CountsSame(net: Net, t: Net)
    requires t.peers == net.peers
    requires forall n :: n in net.peers ==>
               net.peers[n] in net.conns && net.peers[n] in t.conns
                   && SameConn(net.conns[net.peers[n]], t.conns[net.peers[n]])
    ensures forall kind :: PeersWith(t, kind) == PeersWith(net, kind)
  {
  }

  ghost predicate SameConn(c: Conn, d: Conn) { d == c.(trusted := d.trusted) }

  /** Steps after which every peer, report and counter is as before, and every other connection is no peer. */
  lemma ServerSame(cfg: Config, net: Net, t: Net)
    requires ServerInv(cfg, net)
    requires t.peers == net.peers && t.report == net.report && t.inboundCount == net.inboundCount
    requires t.sched.peers == net.sched.peers && t.sched.dialPeers == net.sched.dialPeers
    requires forall c :: AtStage(net, c, Joined) || AtStage(net, c, Closed) ==>
               c in t.conns && SameConn(net.conns[c], t.conns[c])
    requires forall c :: AtStage(t, c, Joined) ==> AtStage(net, c, Joined)
    ensures ServerInv(cfg, t)
  {
    CountsSame(net, t);
    hide PeersWith, MaxInboundConns;
  }

  /** Steps after which no more tasks are undelivered than before. */
  lemma DialSame(cfg: Config, net: Net, t: Net)
    requires DialInv(cfg, net)
    requires t.links == net.links && t.sched.dialing == net.sched.dialing && t.sched.dialPeers == net.sched.dialPeers
    requires SchedFits(cfg, t.sched)
    requires forall c :: c in net.conns ==>
               c in t.conns && t.conns[c].node == net.conns[c].node && t.conns[c].inbound == net.conns[c].inbound
    requires forall c :: Coming(t, c) ==> Coming(net, c) || t.conns[c].inbound
    ensures DialInv(cfg, t)
  {
    hide SchedFits;
    assert Undelivered(t) <= Undelivered(net);
    SubsetSize(Undelivered(t), Undelivered(net));
  }

  /** The scheduler handles an event of its own that does not change what it dials. */
  lemma SchedOnly(cfg: Config, net: Net, s: Sched)
    requires NetInv(cfg, net) && Inv(s)
    requires s == net.sched.(statics := s.statics, pool := s.pool, history := s.history)
    ensures NetInv(cfg, net.(sched := s))
  {
    var t := net.(sched := s);
    assert forall c :: Coming(t, c) ==> Coming(net, c);
    assert SchedFits(cfg, t.sched);
    ServerSame(cfg, net, t);
    hide Coming, SchedFits;
    DialSame(cfg, net, t);
  }

  /** A connection that is not a peer changes, or closes. */
  lemma ConnMoves(cfg: Config, net: Net, c: nat, conn: Conn)
    requires NetInv(cfg, net) && (AtStage(net, c, New) || AtStage(net, c, Checked))
    requires conn.node == net.conns[c].node && conn.inbound == net.conns[c].inbound && conn.stage != Joined
    ensures NetInv(cfg, net.(conns := net.conns[c := conn]))
  {
    var t := net.(conns := net.conns[c := conn]);
    hide PeersJoined, Counted, Mirrored, Linked, DialBudget, Inv;
    ServerSame(cfg, net, t);
    DialSame(cfg, net, t);
  }

  lemma TrustMoves(cfg: Config, net: Net, id: NodeID, on: bool, trusted: set<NodeID>)
    requires NetInv(cfg, net)
    ensures NetInv(cfg, net.(trusted := trusted, conns := SetTrust(net, id, on)))
  {
    var t := net.(trusted := trusted, conns := SetTrust(net, id, on));
    hide PeersJoined, Counted, Mirrored, Linked, DialBudget, Inv;
    ServerSame(cfg, net, t);
    DialSame(cfg, net, t);
  }

  lemma AcceptKeeps(cfg: Config, net: Net, c: nat, id: NodeID)
    requires NetInv(cfg, net) && c !in net.conns
    ensures NetInv(cfg, net.(conns := net.conns[c := Conn(id, true, false, New, false)]))
  {
    var t := net.(conns := net.conns[c := Conn(id, true, false, New, false)]);
    hide PeersJoined, Counted, Mirrored, Linked, DialBudget, Inv;
    ServerSame(cfg, net, t);
    DialSame(cfg, net, t);
  }

  lemma ConnectKeeps(cfg: Config, net: Net, id: NodeID, c: nat)
    requires NetInv(cfg, net) && Enabled(cfg, net, Connect(id, c))
    ensures NetInv(cfg, After(cfg, net, Connect(id, c)))
  {
    var t := After(cfg, net, Connect(id, c));
    ConnectLinks(cfg, net, id, c);
    hide PeersJoined, Counted, Mirrored, Linked, DialBudget, Inv;
    ServerSame(cfg, net, t);
  }

  lemma ConnectLinks(cfg: Config, net: Net, id: NodeID, c: nat)
    requires NetInv(cfg, net) && Enabled(cfg, net, Connect(id, c))
    ensures DialInv(cfg, After(cfg, net, Connect(id, c)))
  {
    hide PeersJoined, Counted, Mirrored, Inv;
    var t := After(cfg, net, Connect(id, c));
    assert Undelivered(t) == Undelivered(net);
  }

  // ---- Joining and leaving ----

  ghost function OneIf<T>(x: T, has: bool): set<T> { if has then {x} else {} }

  lemma CountGrows<T>(a: set<T>, x: T, has: bool)
    requires x !in a
    ensures |a + OneIf(x, has)| == |a| + (if has then 1 else 0)
  {
    if !has {
      assert a + OneIf(x, has) == a;
    }
  }

  lemma CountShrinks<T>(a: set<T>, x: T)
    ensures |a - {x}| == |a| - (if x in a then 1 else 0)
  {
    if x !in a {
      assert a - {x} == a;
    }
  }

  lemma PeersJoin(net: Net, t: Net, c: nat, kind: Kind)
    requires c in t.conns && t.peers == net.peers[t.conns[c].node := c] && t.conns[c].node !in net.peers
    requires forall n :: n in net.peers ==>
               net.peers[n] in net.conns && net.peers[n] in t.conns && t.conns[net.peers[n]] == net.conns[net.peers[n]]
    ensures PeersWith(t, kind) == PeersWith(net, kind) + OneIf(t.conns[c].node, Has(t.conns[c], kind))
  {
    hide Has;
  }

  /** The sets of peers after one joins. */
  lemma PeerJoins(net: Net, t: Net, c: nat, kind: Kind)
    requires c in t.conns && t.conns[c].node !in net.peers && t.peers == net.peers[t.conns[c].node := c]
    requires forall n :: n in net.peers ==>
               net.peers[n] in net.conns && net.peers[n] in t.conns && t.conns[net.peers[n]] == net.conns[net.peers[n]]
    ensures |PeersWith(t, kind)| == |PeersWith(net, kind)| + (if Has(t.conns[c], kind) then 1 else 0)
  {
    PeersJoin(net, t, c, kind);
    assert t.conns[c].node !in PeersWith(net, kind);
    hide PeersWith, Has;
    CountGrows(PeersWith(net, kind), t.conns[c].node, Has(t.conns[c], kind));
  }

  lemma KindsNested(net: Net)
    ensures |PeersWith(net, Limited)| <= |net.peers|
    ensures |PeersWith(net, LimitedInbound)| <= |PeersWith(net, Inbound)|
  {
    SubsetSize(PeersWith(net, Limited), net.peers.Keys);
    SubsetSize(PeersWith(net, LimitedInbound), PeersWith(net, Inbound));
  }

  ghost function Admitted(net: Net, c: nat): Net
    requires c in net.conns
  {
    var conn := net.conns[c];
    net.(conns := net.conns[c := conn.(stage := Joined, waived := conn.trusted)],
         peers := net.peers[conn.node := c], report := Adding(c))
  }

  lemma AdmitJoined(cfg: Config, net: Net, c: nat)
    requires PeersJoined(cfg, net) && net.report == Idle && AtStage(net, c, Checked)
    requires PostHandshakeChecks(cfg, net, net.conns[c]) == Fine
    ensures PeersJoined(cfg, Admitted(net, c))
  {
  }

  lemma AdmitCounted(cfg: Config, net: Net, c: nat)
    requires PeersJoined(cfg, net) && Counted(cfg, net) && net.report == Idle && AtStage(net, c, Checked)
    requires PostHandshakeChecks(cfg, net, net.conns[c]) == Fine
    ensures Counted(cfg, Admitted(net, c))
  {
    var t := Admitted(net, c);
    PeerJoins(net, t, c, Inbound);
    PeerJoins(net, t, c, Dialed);
    PeerJoins(net, t, c, Limited);
    PeerJoins(net, t, c, LimitedInbound);
    KindsNested(net);
    hide PeersWith, PeersJoined, MaxInboundConns;
  }

  lemma AdmitServer(cfg: Config, net: Net, c: nat)
    requires ServerInv(cfg, net) && net.report == Idle && AtStage(net, c, Checked)
    requires PostHandshakeChecks(cfg, net, net.conns[c]) == Fine
    ensures ServerInv(cfg, Admitted(net, c))
  {
    AdmitJoined(cfg, net, c);
    AdmitCounted(cfg, net, c);
    assert net.conns[c].node !in net.peers;
    hide PeersJoined, Counted, PostHandshakeChecks;
    assert Admitted(net, c).peers.Keys - {net.conns[c].node} == net.peers.Keys;
  }

  lemma AdmitKeeps(cfg: Config, net: Net, c: nat)
    requires NetInv(cfg, net) && net.report == Idle && AtStage(net, c, Checked)
    requires PostHandshakeChecks(cfg, net, net.conns[c]) == Fine
    ensures NetInv(cfg, Admitted(net, c))
  {
    hide PeersJoined, Counted, Mirrored, Linked, DialBudget, SchedFits, PostHandshakeChecks;
    AdmitServer(cfg, net, c);
    hide ServerInv;
    DialSame(cfg, net, Admitted(net, c));
  }

  lemma TakeAddedServer(cfg: Config, net: Net)
    requires ServerInv(cfg, net) && net.report.Adding? && net.report.conn in net.conns
    ensures ServerInv(cfg, TookAdded(net))
  {
    var t := TookAdded(net);
    CountsSame(net, t);
    hide PeersWith, Drop;
  }

  lemma TakeAddedKeeps(cfg: Config, net: Net)
    requires NetInv(cfg, net) && net.report.Adding? && net.report.conn in net.conns
    ensures NetInv(cfg, TookAdded(net))
  {
    var t, c := TookAdded(net), net.report.conn;
    var conn := net.conns[c];
    TakeAddedServer(cfg, net);
    assert AtStage(net, c, Joined);
    PeerAddedKeeps(net.sched, conn.node, !conn.inbound);
    hide PeersJoined, Counted, Mirrored, Inv, Drop;
    TakeAddedDials(cfg, net);
  }

  lemma AddedNoLongerComing(net: Net, d: nat)
    requires net.report.Adding? && AtStage(net, net.report.conn, Joined)
    ensures Coming(TookAdded(net), d) <==> Coming(net, d) && d != net.report.conn
  {
  }

  lemma AddedKeepsLinks(cfg: Config, net: Net)
    requires Linked(net) && net.report.Adding? && AtStage(net, net.report.conn, Joined)
    ensures Linked(TookAdded(net))
  {
    hide Drop;
    forall d: nat ensures Coming(TookAdded(net), d) ==> Coming(net, d) {
      AddedNoLongerComing(net, d);
    }
    hide Coming;
  }

  lemma AddedDelivers(net: Net)
    requires Linked(net) && net.report.Adding? && AtStage(net, net.report.conn, Joined)
    ensures var conn := net.conns[net.report.conn];
            |Undelivered(TookAdded(net))| <= |Undelivered(net)| - (if conn.inbound then 0 else 1)
  {
    hide Drop;
    var t, c := TookAdded(net), net.report.conn;
    forall d: nat ensures Coming(t, d) <==> Coming(net, d) && d != c {
      AddedNoLongerComing(net, d);
    }
    var before := if net.conns[c].inbound then Undelivered(net) else Undelivered(net) - {net.conns[c].node};
    assert Coming(net, c);
    hide Coming;
    assert Undelivered(t) <= before;
    SubsetSize(Undelivered(t), before);
    assert !net.conns[c].inbound ==> net.conns[c].node in Undelivered(net);
    hide Undelivered;
    CountShrinks(Undelivered(net), net.conns[c].node);
  }

  lemma TakeAddedDials(cfg: Config, net: Net)
    requires DialInv(cfg, net) && net.report.Adding? && AtStage(net, net.report.conn, Joined)
    requires SchedFits(cfg, TookAdded(net).sched)
    ensures DialInv(cfg, TookAdded(net))
  {
    AddedKeepsLinks(cfg, net);
    AddedDelivers(net);
    hide SchedFits, Drop, Undelivered, Linked;
  }

  ghost function Dropped(net: Net, c: nat): Net
    requires c in net.conns
  {
    net.(peers := net.peers - {net.conns[c].node}, conns := net.conns[c := net.conns[c].(stage := Closed)],
         report := Removing(c))
  }

  lemma PeersLeave(net: Net, t: Net, c: nat, kind: Kind)
    requires c in net.conns && t == Dropped(net, c)
    requires net.conns[c].node in net.peers && net.peers[net.conns[c].node] == c
    requires forall n :: n in net.peers && n != net.conns[c].node ==> net.peers[n] != c
    ensures PeersWith(t, kind) == PeersWith(net, kind) - {net.conns[c].node}
    ensures net.conns[c].node in PeersWith(net, kind) <==> Has(net.conns[c], kind)
  {
    hide Has;
  }

  lemma PeerLeaves(net: Net, t: Net, c: nat, kind: Kind)
    requires c in net.conns && t == Dropped(net, c)
    requires net.conns[c].node in net.peers && net.peers[net.conns[c].node] == c
    requires forall n :: n in net.peers && n != net.conns[c].node ==> net.peers[n] != c
    ensures |PeersWith(t, kind)| == |PeersWith(net, kind)| - (if Has(net.conns[c], kind) then 1 else 0)
  {
    PeersLeave(net, t, c, kind);
    hide PeersWith, Has, Dropped;
    CountShrinks(PeersWith(net, kind), net.conns[c].node);
  }

  lemma DropJoined(cfg: Config, net: Net, c: nat)
    requires PeersJoined(cfg, net) && net.report == Idle && AtStage(net, c, Joined)
    ensures PeersJoined(cfg, Dropped(net, c))
  {
  }

  lemma DropCounted(cfg: Config, net: Net, c: nat)
    requires PeersJoined(cfg, net) && Counted(cfg, net) && net.report == Idle && AtStage(net, c, Joined)
    ensures Counted(cfg, Dropped(net, c))
  {
    var t := Dropped(net, c);
    PeerLeaves(net, t, c, Inbound);
    PeerLeaves(net, t, c, Dialed);
    PeerLeaves(net, t, c, Limited);
    PeerLeaves(net, t, c, LimitedInbound);
    hide PeersWith, PeersJoined, MaxInboundConns;
  }

  lemma DropServer(cfg: Config, net: Net, c: nat)
    requires ServerInv(cfg, net) && net.report == Idle && AtStage(net, c, Joined)
    ensures ServerInv(cfg, Dropped(net, c))
  {
    DropJoined(cfg, net, c);
    DropCounted(cfg, net, c);
    assert net.conns[c].node in net.peers;
    hide PeersJoined, Counted;
    assert Dropped(net, c).peers.Keys + {net.conns[c].node} == net.peers.Keys;
  }

  lemma DropKeeps(cfg: Config, net: Net, c: nat)
    requires NetInv(cfg, net) && net.report == Idle && AtStage(net, c, Joined)
    ensures NetInv(cfg, Dropped(net, c))
  {
    hide PeersJoined, Counted, Mirrored, Linked, DialBudget, SchedFits;
    DropServer(cfg, net, c);
    hide ServerInv;
    DialSame(cfg, net, Dropped(net, c));
  }

  lemma TakeRemovedServer(cfg: Config, net: Net)
    requires ServerInv(cfg, net) && net.report.Removing? && net.report.conn in net.conns
    ensures ServerInv(cfg, TookRemoved(net))
  {
    var t := TookRemoved(net);
    CountsSame(net, t);
    hide PeersWith, UpdatePool;
  }

  lemma TakeRemovedDials(cfg: Config, net: Net)
    requires DialInv(cfg, net) && net.report.Removing? && net.report.conn in net.conns
    requires SchedFits(cfg, TookRemoved(net).sched)
    ensures DialInv(cfg, TookRemoved(net))
  {
    hide SchedFits, UpdatePool;
    assert Undelivered(TookRemoved(net)) == Undelivered(net);
  }

  lemma TakeRemovedKeeps(cfg: Config, net: Net)
    requires NetInv(cfg, net) && net.report.Removing? && net.report.conn in net.conns
    ensures NetInv(cfg, TookRemoved(net))
  {
    var conn := net.conns[net.report.conn];
    TakeRemovedServer(cfg, net);
    PeerRemovedKeeps(net.sched, conn.node, !conn.inbound);
    hide PeersJoined, Counted, Mirrored, Linked, DialBudget, Inv, UpdatePool;
    TakeRemovedDials(cfg, net);
  }

  // ---- Dials ----

  lemma StartKeepsNet(cfg: Config, net: Net, slot: nat, expiry: int)
    requires NetInv(cfg, net) && slot < |net.sched.pool| && FreeDialSlots(net.sched) > 0
    ensures NetInv(cfg, Started(net, slot, expiry))
  {
    var t := Started(net, slot, expiry);
    StartKeeps(net.sched, slot, expiry);
    DialedNotNegative(cfg, net);
    assert net.sched.pool[slot] !in net.sched.dialing;
    StartLinked(cfg, net, slot, expiry);
    StartBudget(cfg, net, slot, expiry);
    hide PeersJoined, Counted, Mirrored, Linked, DialBudget, Inv, SwapRemove, Dialable, FreeDialSlots;
    ServerSame(cfg, net, t);
  }

  lemma DialedNotNegative(cfg: Config, net: Net)
    requires ServerInv(cfg, net)
    ensures net.sched.dialPeers >= 0
  {
    if net.report.Adding? {
      var c := net.report.conn;
      if Has(net.conns[c], Dialed) {
        SubsetSize({net.conns[c].node}, PeersWith(net, Dialed));
      }
    }
  }

  lemma StartLinked(cfg: Config, net: Net, slot: nat, expiry: int)
    requires Linked(net) && slot < |net.sched.pool| && FreeDialSlots(net.sched) > 0
        && net.sched.pool[slot] !in net.sched.dialing
    ensures Linked(Started(net, slot, expiry))
  {
    hide SwapRemove, FreeDialSlots;
    assert forall c :: Coming(Started(net, slot, expiry), c) <==> Coming(net, c);
  }

  lemma RoomForOne(limit: int, active: int, dialed: int, dials: nat, undelivered: int)
    requires dialed >= 0 && undelivered <= dials + 1
    requires (if (limit - dialed) * 2 > active then active else (limit - dialed) * 2) - dials > 0
    ensures limit > 0 && active > 0
    ensures dialed + undelivered <= limit + if limit < active / 2 then limit else active / 2
  {
  }

  /** A free slot leaves the budget room for one more dial, even if every running one becomes a peer. */
  lemma StartBudget(cfg: Config, net: Net, slot: nat, expiry: int)
    requires Linked(net) && slot < |net.sched.pool| && FreeDialSlots(net.sched) > 0
        && net.sched.pool[slot] !in net.sched.dialing
    requires net.sched.dialPeers >= 0
    requires net.sched.maxDialPeers == MaxDialedConns(cfg) && net.sched.maxActiveDials == ActiveDials(cfg)
    ensures DialBudget(cfg, Started(net, slot, expiry))
  {
    hide SwapRemove, Coming;
    var t, id := Started(net, slot, expiry), net.sched.pool[slot];
    SubsetSize(Undelivered(t), t.links.Keys);
    hide Undelivered;
    assert t.links.Keys == net.sched.dialing + {id};
    CountGrows(net.sched.dialing, id, true);
    RoomForOne(net.sched.maxDialPeers, net.sched.maxActiveDials, net.sched.dialPeers, |net.sched.dialing|,
        |Undelivered(t)|);
  }

  lemma DoneKeepsNet(cfg: Config, net: Net, id: NodeID)
    requires NetInv(cfg, net) && Enabled(cfg, net, DialDone(id))
    ensures NetInv(cfg, After(cfg, net, DialDone(id)))
  {
    DoneServer(cfg, net, id);
    DoneSched(cfg, net.sched, id);
    hide PeersJoined, Counted, Mirrored, Linked, DialBudget, SchedFits, OnDone;
    DoneLinked(cfg, net, id);
    DoneBudget(cfg, net, id);
    AfterDone(cfg, net, id);
    hide After, Enabled;
  }

  lemma AfterDone(cfg: Config, net: Net, id: NodeID)
    requires Enabled(cfg, net, DialDone(id))
    ensures After(cfg, net, DialDone(id)) == net.(sched := OnDone(net.sched, id), links := net.links - {id})
  {
    hide OnDone, TaskOver, Settled;
  }

  lemma DoneSched(cfg: Config, s: Sched, id: NodeID)
    requires SchedFits(cfg, s)
    ensures SchedFits(cfg, OnDone(s, id))
  {
    DoneKeeps(s, id);
    hide Inv, UpdatePool;
  }

  lemma DoneServer(cfg: Config, net: Net, id: NodeID)
    requires ServerInv(cfg, net)
    ensures ServerInv(cfg, net.(sched := OnDone(net.sched, id), links := net.links - {id}))
  {
    hide PeersJoined, Counted, Mirrored, UpdatePool;
    ServerSame(cfg, net, net.(sched := OnDone(net.sched, id), links := net.links - {id}));
  }

  lemma DoneLinked(cfg: Config, net: Net, id: NodeID)
    requires Linked(net) && Enabled(cfg, net, DialDone(id))
    ensures Linked(After(cfg, net, DialDone(id)))
  {
    hide UpdatePool;
    assert forall c :: Coming(After(cfg, net, DialDone(id)), c) <==> Coming(net, c);
  }

  lemma DoneBudget(cfg: Config, net: Net, id: NodeID)
    requires DialBudget(cfg, net) && Enabled(cfg, net, DialDone(id))
    ensures DialBudget(cfg, After(cfg, net, DialDone(id)))
  {
    hide UpdatePool, TaskOver;
    var t := After(cfg, net, DialDone(id));
    assert Undelivered(t) <= Undelivered(net);
    SubsetSize(Undelivered(t), Undelivered(net));
  }

  // ---- Every step ----

  lemma ServerStepKeeps(cfg: Config, net: Net, step: Step)
    requires NetInv(cfg, net) && Enabled(cfg, net, step)
    requires step.Trust? || step.Untrust? || step.Accept? || step.PostHandshake? || step.AddPeer? || step.Fail?
    ensures NetInv(cfg, After(cfg, net, step))
  {
    hide NetInv;
    match step
    case Trust(id) => TrustMoves(cfg, net, id, true, net.trusted + {id});
    case Untrust(id) => TrustMoves(cfg, net, id, false, net.trusted - {id});
    case Accept(c, id) => AcceptKeeps(cfg, net, c, id);
    case PostHandshake(c) => ConnMoves(cfg, net, c, After(cfg, net, step).conns[c]);
    case AddPeer(c, caps) =>
      if AddPeerChecks(cfg, net, net.conns[c], caps) == Fine {
        AdmitKeeps(cfg, net, c);
      } else {
        ConnMoves(cfg, net, c, After(cfg, net, step).conns[c]);
      }
    case Fail(c) => ConnMoves(cfg, net, c, After(cfg, net, step).conns[c]);
  }

  lemma SchedStepKeeps(cfg: Config, net: Net, step: Step)
    requires NetInv(cfg, net) && Enabled(cfg, net, step)
    requires step.AddStatic? || step.RemoveStatic? || step.Expire? || step.Resolve?
    ensures NetInv(cfg, After(cfg, net, step))
  {
    hide PeersJoined, Counted, Mirrored, Linked, DialBudget, Inv, Drop, UpdatePool, OnAllExpired;
    match step
    case AddStatic(n) =>
      AddStaticKeeps(net.sched, n);
      SchedOnly(cfg, net, OnAddStatic(net.sched, n));
    case RemoveStatic(id) =>
      RemoveStaticKeeps(net.sched, id);
      SchedOnly(cfg, net, OnRemoveStatic(net.sched, id));
    case Expire(order) =>
      AllExpiredKeeps(net.sched, order);
      SchedOnly(cfg, net, OnAllExpired(net.sched, order));
    case Resolve(n) =>
      ResolvedKeeps(net.sched, n);
      SchedOnly(cfg, net, OnResolved(net.sched, n));
  }

  lemma StepKeeps(cfg: Config, net: Net, step: Step)
    requires NetInv(cfg, net) && Enabled(cfg, net, step)
    ensures NetInv(cfg, After(cfg, net, step))
  {
    hide NetInv;
    match step
    case Connect(id, c) => ConnectKeeps(cfg, net, id, c);
    case TakeAdded => TakeAddedKeeps(cfg, net);
    case DropPeer(c) => DropKeeps(cfg, net, c);
    case TakeRemoved => TakeRemovedKeeps(cfg, net);
    case StartDial(slot, expiry) => StartKeepsNet(cfg, net, slot, expiry);
    case DialDone(id) => DoneKeepsNet(cfg, net, id);
    case _ =>
      hide After, Enabled;
      if step.AddStatic? || step.RemoveStatic? || step.Expire? || step.Resolve? {
        SchedStepKeeps(cfg, net, step);
      } else {
        ServerStepKeeps(cfg, net, step);
      }
  }

  // ---- Runs ----

  ghost predicate Run(cfg: Config, states: seq<Net>, steps: seq<Step>) {
    && |states| == |steps| + 1 && Init(cfg, states[0])
    && forall i :: 0 <= i < |steps| ==>
         Enabled(cfg, states[i], steps[i]) && states[i + 1] == After(cfg, states[i], steps[i])
  }

  lemma InitHolds(cfg: Config, net: Net)
    requires Init(cfg, net)
    ensures NetInv(cfg, net)
  {
    assert forall kind :: PeersWith(net, kind) == {};
    assert Undelivered(net) == {};
  }

  lemma {:induction false} RunKeeps(cfg: Config, states: seq<Net>, steps: seq<Step>, i: nat)
    requires Run(cfg, states, steps) && i < |states|
    ensures NetInv(cfg, states[i])
  {
    hide NetInv, After, Enabled, Init;
    if i == 0 {
      InitHolds(cfg, states[0]);
    } else {
      RunKeeps(cfg, states, steps, i - 1);
      StepKeeps(cfg, states[i - 1], steps[i - 1]);
    }
  }

  /** The server's dialed peers never exceed the limit on dialed peers by more than itself, nor by more than half
      the active dials. */
  lemma DialedPeersBounded(cfg: Config, states: seq<Net>, steps: seq<Step>, i: nat)
    requires Run(cfg, states, steps) && i < |states|
    ensures |PeersWith(states[i], Dialed)| <= DialedBound(cfg)
    ensures states[i].sched.dialPeers <= DialedBound(cfg)
  {
    var net := states[i];
    RunKeeps(cfg, states, steps, i);
    hide After, Enabled, Init, Inv;
    if net.report.Adding? {
      var c := net.report.conn;
      if Has(net.conns[c], Dialed) {
        assert Coming(net, c) && net.conns[c].node in Undelivered(net);
        SubsetSize({net.conns[c].node}, Undelivered(net));
      }
    }
  }

  /** In every run: the inbound counter is the number of inbound peers once no report is pending; the node is
      never its own peer; the peers admitted untrusted, and the inbound ones among them, keep to their limits
      across changes of trust; and once its report is taken, the scheduler's peers are the server's. */
  lemma PeerLimitsHold(cfg: Config, states: seq<Net>, steps: seq<Step>, i: nat)
    requires Run(cfg, states, steps) && i < |states|
    ensures states[i].report == Idle ==> states[i].inboundCount == |PeersWith(states[i], Inbound)|
    ensures states[i].report == Idle ==> states[i].sched.peers == states[i].peers.Keys
    ensures cfg.self !in states[i].peers
    ensures |PeersWith(states[i], Limited)| <= AtLeastZero(cfg.maxPeers)
    ensures |PeersWith(states[i], LimitedInbound)| <= AtLeastZero(cfg.maxPeers - MaxDialedConns(cfg))
  {
    RunKeeps(cfg, states, steps, i);
    hide After, Enabled, Init, Inv, PeersWith;
  }

  /** Every dial that is started is of a static node, not the node itself, that has a port, is not being dialed, is
      no peer of the scheduler and was not dialed recently, although only its slot in the pool was drawn; and the
      dials never exceed maxActiveDials. */
  lemma DialsAreAllowed(cfg: Config, states: seq<Net>, steps: seq<Step>, i: nat)
    requires Run(cfg, states, steps) && i < |steps| && steps[i].StartDial?
    ensures steps[i].slot < |states[i].sched.pool|
    ensures var s, t := states[i].sched, states[i + 1].sched;
            var id := s.pool[steps[i].slot];
            && id in s.statics && id != cfg.self && s.statics[id].tcpPort != 0
            && id !in s.dialing && id !in s.peers && id !in s.history
            && |s.dialing| < |t.dialing| <= AtLeastZero(ActiveDials(cfg)) && id in t.dialing && id in t.history
  {
    RunKeeps(cfg, states, steps, i);
    RunKeeps(cfg, states, steps, i + 1);
    hide PeersJoined, Counted, Mirrored, Linked, DialBudget, Init;
    assert Enabled(cfg, states[i], steps[i]) && states[i + 1] == After(cfg, states[i], steps[i]);
    hide Run;
    StartAllowed(cfg, states[i].sched, steps[i].slot, steps[i].expiry);
  }

  lemma StartAllowed(cfg: Config, s: Sched, slot: nat, expiry: int)
    requires SchedFits(cfg, s) && slot < |s.pool| && FreeDialSlots(s) > 0
    ensures var t, id := StartOne(s, slot, expiry), s.pool[slot];
            && id in s.statics && id != cfg.self && s.statics[id].tcpPort != 0
            && id !in s.dialing && id !in s.peers && id !in s.history
            && |s.dialing| < |t.dialing| <= AtLeastZero(ActiveDials(cfg)) && id in t.dialing && id in t.history
  {
    StartKeeps(s, slot, expiry);
    assert s.pool[slot] in s.pool;
    PoolHolds(s, s.pool[slot]);
    CountGrows(s.dialing, s.pool[slot], true);
    hide PoolExact, FreeDialSlots, StartOne;
  }

  /** In every run the pool holds exactly the static nodes that may be dialed. */
  lemma PoolHoldsExactly(cfg: Config, states: seq<Net>, steps: seq<Step>, i: nat, id: NodeID)
    requires Run(cfg, states, steps) && i < |states|
    ensures var s := states[i].sched;
            id in s.pool <==>
              && id in s.statics && id != cfg.self && s.statics[id].tcpPort != 0
              && id !in s.dialing && id !in s.peers && id !in s.history
  {
    RunKeeps(cfg, states, steps, i);
    hide Run, PeersJoined, Counted, Mirrored, Linked, DialBudget;
    PoolHolds(states[i].sched, id);
  }

  // ---- What single events do ----

  /** The conditions of both checkpoints: a trusted connection escapes the limits, nothing else. */
  ghost predicate MayPass(cfg: Config, net: Net, conn: Conn, trusted: bool) {
    && (trusted || |net.peers| < cfg.maxPeers)
    && (trusted || !conn.inbound || net.inboundCount < cfg.maxPeers - MaxDialedConns(cfg))
    && conn.node !in net.peers && conn.node != cfg.self
  }

  /** The first checkpoint passes a connection exactly on these conditions, trusting what is trusted by then. */
  lemma FirstCheckpointPasses(cfg: Config, net: Net, c: nat)
    requires Enabled(cfg, net, PostHandshake(c))
    ensures var conn, t := net.conns[c], After(cfg, net, PostHandshake(c));
            var trusted := conn.trusted || conn.node in net.trusted;
            && t == net.(conns := net.conns[c := conn.(trusted := trusted, stage := t.conns[c].stage)])
            && (t.conns[c].stage == Checked <==> MayPass(cfg, net, conn, trusted))
            && (t.conns[c].stage == Closed <==> !MayPass(cfg, net, conn, trusted))
  {
  }

  /** The second one admits a connection as a peer exactly if it still passes and, where the server has protocols, one
      of them matches an announced capability; otherwise the connection is closed and nothing else changes. */
  lemma AddPeerAdmits(cfg: Config, net: Net, c: nat, caps: seq<Multiplex.Cap>)
    requires Enabled(cfg, net, AddPeer(c, caps))
    ensures var conn, t := net.conns[c], After(cfg, net, AddPeer(c, caps));
            var useful := cfg.protocols == [] || exists p, cap ::
              p in cfg.protocols && cap in caps && p.name == cap.name && p.version == cap.version;
            if useful && MayPass(cfg, net, conn, conn.trusted) then
              t == net.(conns := net.conns[c := conn.(stage := Joined, waived := conn.trusted)],
                        peers := net.peers[conn.node := c], report := Adding(c))
            else t == net.(conns := net.conns[c := conn.(stage := Closed)])
  {
    Multiplex.CountPositive(cfg.protocols, caps);
    var useful := exists p, cap ::
      p in cfg.protocols && cap in caps && p.name == cap.name && p.version == cap.version;
    if useful {
      var p, cap :| p in cfg.protocols && cap in caps && p.name == cap.name && p.version == cap.version;
      assert Multiplex.Matches(p, cap);
      assert cap in Multiplex.Shared(cfg.protocols, caps);
    }
    if Multiplex.Shared(cfg.protocols, caps) != {} {
      var cap :| cap in Multiplex.Shared(cfg.protocols, caps);
      var p :| p in cfg.protocols && Multiplex.Matches(p, cap);
      assert p.name == cap.name && p.version == cap.version;
    }
    assert useful <==> Multiplex.Shared(cfg.protocols, caps) != {};
    hide Multiplex.CountMatching, Multiplex.Shared;
  }

  /** Trust reaches the peer there is, its connection alone, and every later one. */
  lemma TrustReaches(cfg: Config, net: Net, id: NodeID, n: NodeID)
    requires NetInv(cfg, net) && net.report == Idle && n in net.peers
    ensures var t, u := After(cfg, net, Trust(id)), After(cfg, net, Untrust(id));
            var conn := net.conns[net.peers[n]];
            && t.trusted == net.trusted + {id} && u.trusted == net.trusted - {id}
            && t.peers == u.peers == net.peers
            && t.conns[net.peers[n]] == (if n == id then conn.(trusted := true) else conn)
            && u.conns[net.peers[n]] == (if n == id then conn.(trusted := false) else conn)
  {
    hide Counted, Mirrored, Linked, DialBudget, SchedFits;
  }

  /** A connection never changes its node or side, and moves on only in these ways; a failed or dropped one is
      closed. */
  lemma StagesMove(cfg: Config, net: Net, step: Step, c: nat)
    requires Enabled(cfg, net, step) && c in net.conns
    ensures var t := After(cfg, net, step);
            && c in t.conns && t.conns[c].node == net.conns[c].node && t.conns[c].inbound == net.conns[c].inbound
            && (t.conns[c].stage != net.conns[c].stage ==>
                  || step == Fail(c) || step == DropPeer(c) || step == PostHandshake(c)
                  || (step.AddPeer? && step.conn == c))
            && (step == Fail(c) || step == DropPeer(c) ==> t.conns[c].stage == Closed)
            && (step == DropPeer(c) ==> t.peers == net.peers - {net.conns[c].node} && t.report == Removing(c))
            && (step.AddPeer? && step.conn == c ==> t.conns[c].stage == Joined || t.conns[c].stage == Closed)
  {
    hide PostHandshakeChecks, AddPeerChecks, OnDone, OnPeerAdded, OnPeerRemoved, OnAddStatic, OnRemoveStatic;
    hide OnAllExpired, OnResolved, StartOne, FreeDialSlots, Settled, TaskOver;
  }

  // ---- Nothing is stuck ----

  /** The scheduler can start a dial now. */
  ghost predicate CanStartDial(cfg: Config, net: Net) { exists slot: nat :: Enabled(cfg, net, StartDial(slot, 0)) }

  lemma SettledOrStarts(cfg: Config, net: Net)
    ensures Settled(net.sched) || CanStartDial(cfg, net)
  {
    if !Settled(net.sched) {
      assert Enabled(cfg, net, StartDial(0, 0));
    }
  }

  lemma ReportIsTaken(cfg: Config, net: Net)
    requires PeersJoined(cfg, net)
    ensures net.report.Adding? ==> Enabled(cfg, net, TakeAdded) || CanStartDial(cfg, net)
    ensures net.report.Removing? ==> Enabled(cfg, net, TakeRemoved) || CanStartDial(cfg, net)
  {
    SettledOrStarts(cfg, net);
    hide Settled, CanStartDial;
  }

  lemma ConnectionIsServed(cfg: Config, net: Net, c: nat)
    requires c in net.conns
    ensures net.report == Idle ==>
              || net.conns[c].stage == Closed || Enabled(cfg, net, PostHandshake(c))
              || Enabled(cfg, net, AddPeer(c, [])) || Enabled(cfg, net, DropPeer(c))
    ensures net.conns[c].stage == New || net.conns[c].stage == Checked ==> Enabled(cfg, net, Fail(c))
  {
  }

  lemma DialEnds(cfg: Config, net: Net, id: NodeID)
    requires Linked(net) && net.report == Idle && id in net.links
    ensures || Enabled(cfg, net, DialDone(id)) || CanStartDial(cfg, net)
            || (net.links[id].Some? && Enabled(cfg, net, Fail(net.links[id].value)))
  {
    SettledOrStarts(cfg, net);
    hide Settled, CanStartDial;
  }

  /** In every run the scheduler can take a pending report or start a dial first; once no report is pending the server
      can deal with every connection; and a running dial can end, or its connection can be closed, which ends it. */
  lemma NothingIsStuck(cfg: Config, states: seq<Net>, steps: seq<Step>, i: nat)
    requires Run(cfg, states, steps) && i < |states|
    ensures var net := states[i];
            && (net.report.Adding? ==> Enabled(cfg, net, TakeAdded) || CanStartDial(cfg, net))
            && (net.report.Removing? ==> Enabled(cfg, net, TakeRemoved) || CanStartDial(cfg, net))
            && (forall c :: c in net.conns && net.report == Idle ==>
                  || net.conns[c].stage == Closed || Enabled(cfg, net, PostHandshake(c))
                  || Enabled(cfg, net, AddPeer(c, [])) || Enabled(cfg, net, DropPeer(c)))
            && (forall id :: id in net.sched.dialing && net.report == Idle ==>
                  id in net.links
                  && (|| Enabled(cfg, net, DialDone(id)) || CanStartDial(cfg, net)
                      || (net.links[id].Some? && Enabled(cfg, net, Fail(net.links[id].value)))))
  {
    var net := states[i];
    RunKeeps(cfg, states, steps, i);
    ReportIsTaken(cfg, net);
    assert net.links.Keys == net.sched.dialing && Linked(net);
    hide Run, NetInv, Enabled, CanStartDial, Linked;
    forall c | c in net.conns && net.report == Idle
      ensures || net.conns[c].stage == Closed || Enabled(cfg, net, PostHandshake(c))
              || Enabled(cfg, net, AddPeer(c, [])) || Enabled(cfg, net, DropPeer(c))
    {
      ConnectionIsServed(cfg, net, c);
    }
    forall id | id in net.links && net.report == Idle
      ensures || Enabled(cfg, net, DialDone(id)) || CanStartDial(cfg, net)
              || (net.links[id].Some? && Enabled(cfg, net, Fail(net.links[id].value)))
    {
      DialEnds(cfg, net, id);
    }
  }
}

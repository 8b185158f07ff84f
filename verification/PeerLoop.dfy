/** internal/p2p/peer.go: Peer.run, pingLoop, readLoop, the protocol goroutines and their WriteMsg calls, as a
    state machine. One step is one channel operation of one goroutine. */
module PeerLoop {
  import opened Machine

  /** Where the goroutine of Peer.run is: in its select, between receiving a successful write result and
      handing the token back, or past its loop. */
  datatype RunAt = Selecting | Resending | Stopped

  /** A goroutine that may send one last message on a channel: at work, about to send, or finished. */
  datatype Sender = Working | Sending | Finished

  /** readLoop is reading from the wire, offering a ping to pingLoop, offering a message to a protocol, about to
      send its error, or finished. */
  datatype Reader = Reading | Pinging | Delivering(name: string) | Failing | Done

  datatype Peer = Peer(
    writeStart: nat,              // tokens in writeStart
    waiting: set<nat>,            // WriteMsg calls that wait for the token
    writing: set<nat>,            // WriteMsg calls that took the token and have not reported
    writeErr: seq<bool>,          // reported results, true for success
    readErr: nat,                 // errors waiting in readErr
    protoErr: nat,                // errors waiting in p.protoErr
    pingRecv: nat,                // pings waiting in p.pingRecv
    run: RunAt,
    closed: bool,                 // p.closed is closed
    hungUp: bool,                 // the connection is closed
    reader: Reader,
    pinger: Sender,
    protocols: map<string, Sender>)

  const WRITE_START_CAPACITY := 1
  const WRITE_ERR_CAPACITY := 1
  const READ_ERR_CAPACITY := 1
  const PING_RECV_CAPACITY := 16

  function ProtoErrCapacity(p: Peer): nat { |p.protocols| + 1 }

  /** run has put the token in place and has started everything. */
  ghost predicate Init(p: Peer) {
    && p == Peer(1, {}, {}, [], 0, 0, 0, Selecting, false, false, Reading, Working, p.protocols)
    && forall n :: n in p.protocols ==> p.protocols[n] == Working
  }

  datatype Step =
    | CallWrite(w: nat)                // a protocol calls WriteMsg
    | TakeToken(w: nat)                // WriteMsg receives from wstart
    | QuitWrite(w: nat)                // WriteMsg sees p.closed
    | ReportWrite(w: nat, ok: bool)    // WriteMsg sends on werr
    | ReceiveWrite                     // run receives from writeErr
    | ResendToken                      // run sends on writeStart
    | ReceiveRead                      // run receives from readErr
    | ReceiveProto                     // run receives from p.protoErr
    | ReceiveDisconnect                // run receives from p.disc
    | Close                            // run closes p.closed
    | HangUp                           // run closes the connection
    | ReadPing                         // readLoop reads a ping
    | ReadMessage(name: string)        // or a message for a protocol
    | PassPing                         // it sends on p.pingRecv
    | Deliver                          // it sends on proto.in, to the protocol's ReadMsg
    | ReaderSeesClosed                 // it sees p.closed instead
    | ReaderFails                      // ReadMsg or handle returns an error
    | ReaderSends
    | Pong                             // pingLoop receives from p.pingRecv
    | PingFails
    | PingSends
    | PingQuits                        // pingLoop sees p.closed
    | ProtocolReturns(name: string)
    | ProtocolSends(name: string)

  ghost predicate AtWork(p: Peer, n: string) { n in p.protocols && p.protocols[n] == Working }

  /** The goroutine is at this operation and its channel lets it proceed. */
  ghost predicate Enabled(p: Peer, s: Step) {
    match s
    case CallWrite(w) => w !in p.waiting && w !in p.writing && exists n :: AtWork(p, n)
    case TakeToken(w) => w in p.waiting && p.writeStart > 0
    case QuitWrite(w) => w in p.waiting && p.closed
    case ReportWrite(w, ok) => w in p.writing && |p.writeErr| < WRITE_ERR_CAPACITY
    case ReceiveWrite => p.run == Selecting && |p.writeErr| > 0
    case ResendToken => p.run == Resending && p.writeStart < WRITE_START_CAPACITY
    case ReceiveRead => p.run == Selecting && p.readErr > 0
    case ReceiveProto => p.run == Selecting && p.protoErr > 0
    case ReceiveDisconnect => p.run == Selecting
    case Close => p.run == Stopped && !p.closed
    case HangUp => p.closed && !p.hungUp
    case ReadPing => p.reader == Reading && !p.hungUp
    case ReadMessage(n) => p.reader == Reading && !p.hungUp && n in p.protocols
    case PassPing => p.reader == Pinging && p.pingRecv < PING_RECV_CAPACITY
    case Deliver => p.reader.Delivering? && AtWork(p, p.reader.name)
    case ReaderSeesClosed => (p.reader == Pinging || p.reader.Delivering?) && p.closed
    case ReaderFails => p.reader == Reading
    case ReaderSends => p.reader == Failing && p.readErr < READ_ERR_CAPACITY
    case Pong => p.pinger == Working && p.pingRecv > 0
    case PingFails => p.pinger == Working
    case PingSends => p.pinger == Sending && p.protoErr < ProtoErrCapacity(p)
    case PingQuits => p.pinger == Working && p.closed
    case ProtocolReturns(n) => AtWork(p, n)
    case ProtocolSends(n) => n in p.protocols && p.protocols[n] == Sending && p.protoErr < ProtoErrCapacity(p)
  }

  ghost function After(p: Peer, s: Step): Peer
    requires Enabled(p, s)
  {
    match s
    case CallWrite(w) => p.(waiting := p.waiting + {w})
    case TakeToken(w) =>
      p.(writeStart := p.writeStart - 1, waiting := p.waiting - {w}, writing := p.writing + {w})
    case QuitWrite(w) => p.(waiting := p.waiting - {w})
    case ReportWrite(w, ok) => p.(writing := p.writing - {w}, writeErr := p.writeErr + [ok])
    case ReceiveWrite => p.(writeErr := p.writeErr[1..], run := if p.writeErr[0] then Resending else Stopped)
    case ResendToken => p.(writeStart := p.writeStart + 1, run := Selecting)
    case ReceiveRead => p.(readErr := p.readErr - 1, run := Stopped)
    case ReceiveProto => p.(protoErr := p.protoErr - 1, run := Stopped)
    case ReceiveDisconnect => p.(run := Stopped)
    case Close => p.(closed := true)
    case HangUp => p.(hungUp := true)
    case ReadPing => p.(reader := Pinging)
    case ReadMessage(n) => p.(reader := Delivering(n))
    case PassPing => p.(reader := Reading, pingRecv := p.pingRecv + 1)
    case Deliver => p.(reader := Reading)
    case ReaderSeesClosed => p.(reader := if p.reader == Pinging then Reading else Failing)
    case ReaderFails => p.(reader := Failing)
    case ReaderSends => p.(reader := Done, readErr := p.readErr + 1)
    case Pong => p.(pingRecv := p.pingRecv - 1)
    case PingFails => p.(pinger := Sending)
    case PingSends => p.(pinger := Finished, protoErr := p.protoErr + 1)
    case PingQuits => p.(pinger := Finished)
    case ProtocolReturns(n) => p.(protocols := p.protocols[n := Sending])
    case ProtocolSends(n) => p.(protocols := p.protocols[n := Finished], protoErr := p.protoErr + 1)
  }

  // ---- The invariant ----

  /** Where the one write token can be: waiting, with a writer, in a pending result, or on its way back. */
  ghost function Tokens(p: Peer): nat {
    p.writeStart + |p.writing| + |p.writeErr| + if p.run == Resending then 1 else 0
  }

  ghost function ProtocolsAt(protocols: map<string, Sender>, at: Sender): set<string> {
    set n | n in protocols && protocols[n] == at
  }

  /** The errors that have been sent to run from p.protoErr's senders, if pingLoop ended by one. */
  ghost function Reports(p: Peer): nat {
    |ProtocolsAt(p.protocols, Finished)| + if p.pinger == Finished then 1 else 0
  }

  ghost predicate TokenKept(p: Peer) { Tokens(p) <= 1 && (p.run != Stopped ==> Tokens(p) == 1) }

  /** Until run stops, every error sent is still waiting for it; afterwards at most those are. */
  ghost predicate ErrorsKept(p: Peer) {
    && p.readErr <= (if p.reader == Done then 1 else 0)
    && (p.run != Stopped && p.reader == Done ==> p.readErr == 1)
    && p.protoErr <= Reports(p) && (p.run != Stopped ==> p.protoErr == Reports(p))
  }

  ghost predicate Orderly(p: Peer) {
    && p.pingRecv <= PING_RECV_CAPACITY
    && (p.closed ==> p.run == Stopped) && (p.hungUp ==> p.closed)
    && (p.reader.Delivering? ==> p.reader.name in p.protocols)
  }

  ghost predicate Inv(p: Peer) { TokenKept(p) && ErrorsKept(p) && Orderly(p) }

  lemma ProtocolMoves(p: Peer, n: string, to: Sender)
    requires n in p.protocols && p.protocols[n] != to
    ensures ProtocolsAt(p.protocols[n := to], to) == ProtocolsAt(p.protocols, to) + {n}
    ensures ProtocolsAt(p.protocols[n := to], p.protocols[n]) == ProtocolsAt(p.protocols, p.protocols[n]) - {n}
    ensures n in ProtocolsAt(p.protocols, p.protocols[n]) && n !in ProtocolsAt(p.protocols, to)
    ensures forall at :: at != to && at != p.protocols[n] ==>
              ProtocolsAt(p.protocols[n := to], at) == ProtocolsAt(p.protocols, at)
    ensures p.protocols[n := to].Keys == p.protocols.Keys
  {
  }

  lemma TokenStep(p: Peer, s: Step)
    requires TokenKept(p) && Enabled(p, s)
    ensures TokenKept(After(p, s))
  {
  }

  lemma ReportsStep(p: Peer, s: Step)
    requires Enabled(p, s)
    ensures Reports(After(p, s)) == Reports(p) + if s.PingSends? || s.PingQuits? || s.ProtocolSends? then 1 else 0
  {
    hide ProtocolsAt;
    match s
    case ProtocolReturns(n) => ProtocolMoves(p, n, Sending);
    case ProtocolSends(n) => ProtocolMoves(p, n, Finished);
    case _ =>
  }

  lemma ErrorsStep(p: Peer, s: Step)
    requires ErrorsKept(p) && Orderly(p) && Enabled(p, s)
    ensures ErrorsKept(After(p, s))
  {
    ReportsStep(p, s);
    hide Reports;
  }

  lemma OrderStep(p: Peer, s: Step)
    requires Orderly(p) && Enabled(p, s)
    ensures Orderly(After(p, s))
  {
  }

  lemma StepKeeps(p: Peer, s: Step)
    requires Inv(p) && Enabled(p, s)
    ensures Inv(After(p, s))
  {
    hide TokenKept, ErrorsKept, Orderly, Enabled, After;
    TokenStep(p, s);
    ErrorsStep(p, s);
    OrderStep(p, s);
  }

  /** run leaves its loop exactly on a failed write, a read error, a protocol's or pingLoop's error, or a disconnect
      request; after a good write it hands the token back; and once stopped it stays so. */
  lemma RunStopsExactly(p: Peer, s: Step)
    requires Enabled(p, s)
    ensures After(p, s).run == Stopped <==>
              || p.run == Stopped || s.ReceiveRead? || s.ReceiveProto? || s.ReceiveDisconnect?
              || (s.ReceiveWrite? && !p.writeErr[0])
    ensures s.ReceiveWrite? && p.writeErr[0] ==>
              After(p, s).run == Resending && After(p, s).writeErr == p.writeErr[1..]
    ensures s.ReportWrite? ==> After(p, s).writeErr == p.writeErr + [s.ok]
    ensures s.ResendToken? ==> After(p, s).run == Selecting && After(p, s).writeStart == p.writeStart + 1
    ensures After(p, s).closed <==> p.closed || s.Close?
    ensures After(p, s).hungUp <==> p.hungUp || s.HangUp?
  {
  }

  // ---- Runs ----

  ghost predicate Run(states: seq<Peer>, steps: seq<Step>) {
    && |states| == |steps| + 1 && Init(states[0])
    && forall i :: 0 <= i < |steps| ==> Enabled(states[i], steps[i]) && states[i + 1] == After(states[i], steps[i])
  }

  lemma {:induction false} RunKeeps(states: seq<Peer>, steps: seq<Step>, i: nat)
    requires Run(states, steps) && i < |states|
    ensures Inv(states[i])
  {
    hide Inv, After;
    if i == 0 {
      InitHolds(states[0]);
    } else {
      RunKeeps(states, steps, i - 1);
      StepKeeps(states[i - 1], steps[i - 1]);
    }
  }

  lemma InitHolds(p: Peer)
    requires Init(p)
    ensures Inv(p)
  {
  }

  /** The places the write token can be add up to exactly one until run stops, and to at most one afterwards;
      so two subprotocol writes never overlap, nor does one overlap an unread result. */
  lemma WritesExclude(states: seq<Peer>, steps: seq<Step>, i: nat)
    requires Run(states, steps) && i < |states|
    ensures states[i].run != Stopped ==> Tokens(states[i]) == 1
    ensures Tokens(states[i]) <= 1
    ensures forall v, w :: v in states[i].writing && w in states[i].writing ==> v == w
    ensures states[i].writing != {} ==> states[i].writeStart == 0 && states[i].writeErr == []
    ensures states[i].pingRecv <= 16
  {
    var p := states[i];
    RunKeeps(states, steps, i);
    forall v, w | v in p.writing && w in p.writing
      ensures v == w
    {
      SubsetSize({v, w}, p.writing);
    }
  }

  lemma RoomForReport(p: Peer)
    ensures |ProtocolsAt(p.protocols, Finished)| <= |p.protocols|
    ensures forall n :: n in p.protocols && p.protocols[n] != Finished ==>
              |ProtocolsAt(p.protocols, Finished)| < |p.protocols|
  {
    SubsetSize(ProtocolsAt(p.protocols, Finished), p.protocols.Keys);
  }

  /** No goroutine that has reached a send ever finds its channel full. */
  lemma SendsNeverBlock(states: seq<Peer>, steps: seq<Step>, i: nat)
    requires Run(states, steps) && i < |states|
    ensures forall w, ok :: w in states[i].writing ==> Enabled(states[i], ReportWrite(w, ok))
    ensures states[i].run == Resending ==> Enabled(states[i], ResendToken)
    ensures states[i].reader == Failing ==> Enabled(states[i], ReaderSends)
    ensures states[i].pinger == Sending ==> Enabled(states[i], PingSends)
    ensures forall n :: n in states[i].protocols && states[i].protocols[n] == Sending ==>
        Enabled(states[i], ProtocolSends(n))
  {
    RunKeeps(states, steps, i);
    InvSends(states[i]);
  }

  lemma InvSends(p: Peer)
    requires Inv(p)
    ensures forall w, ok :: w in p.writing ==> Enabled(p, ReportWrite(w, ok))
    ensures p.run == Resending ==> Enabled(p, ResendToken)
    ensures p.reader == Failing ==> Enabled(p, ReaderSends)
    ensures p.pinger == Sending ==> Enabled(p, PingSends)
    ensures forall n :: n in p.protocols && p.protocols[n] == Sending ==> Enabled(p, ProtocolSends(n))
  {
    RoomForReport(p);
    hide ProtocolsAt;
    forall w | w in p.writing ensures |p.writing| >= 1 {
      SubsetSize({w}, p.writing);
    }
  }

  // ---- Nobody is stranded ----

  /** The step that a goroutine which run has started, or run itself, can take towards an end of the reader's
      wait. */
  ghost predicate Frees(p: Peer, s: Step) {
    && Enabled(p, s)
    && (s.PassPing? || s.Deliver? || s.ReaderSeesClosed? || s.Pong? || s.PingSends? || s.ProtocolSends?
        || s.ReceiveProto? || s.ResendToken? || s.Close?)
  }

  /** When readLoop waits in a select, it can proceed, or the goroutine it waits for can, or, if that one has
      finished, run can proceed to close p.closed. */
  lemma ReaderNotStranded(states: seq<Peer>, steps: seq<Step>, i: nat) returns (s: Step)
    requires Run(states, steps) && i < |states|
    requires states[i].reader == Pinging || states[i].reader.Delivering?
    ensures Frees(states[i], s)
  {
    var p := states[i];
    RunKeeps(states, steps, i);
    InvSends(p);
    hide Run;
    var other := if p.reader == Pinging then p.pinger else p.protocols[p.reader.name];
    if p.closed {
      s := ReaderSeesClosed;
    } else if p.run == Stopped {
      s := Close;
    } else if p.run == Resending {
      s := ResendToken;
    } else if other == Working {
      s := if p.reader.Delivering? then Deliver else if p.pingRecv > 0 then Pong else PassPing;
    } else if other == Sending {
      s := if p.reader == Pinging then PingSends else ProtocolSends(p.reader.name);
    } else {
      s := ReceiveProto;
      if p.reader.Delivering? {
        SubsetSize({p.reader.name}, ProtocolsAt(p.protocols, Finished));
      }
    }
  }

  // ---- Pings and messages ----

  datatype Kind = Pings | Pongs | Messages | Deliveries

  ghost predicate IsOf(s: Step, kind: Kind) {
    match kind
    case Pings => s.ReadPing?
    case Pongs => s.Pong?
    case Messages => s.ReadMessage?
    case Deliveries => s.Deliver?
  }

  ghost function Count(steps: seq<Step>, kind: Kind): nat {
    if steps == [] then 0 else Count(steps[..|steps| - 1], kind) + if IsOf(steps[|steps| - 1], kind) then 1 else 0
  }

  ghost function OneIf(b: bool): nat { if b then 1 else 0 }

  ghost function Pending(p: Peer): int { p.pingRecv + OneIf(p.reader == Pinging) }

  lemma StepReads(p: Peer, s: Step)
    requires Enabled(p, s) && !p.closed
    ensures Pending(After(p, s)) == Pending(p) + OneIf(s.ReadPing?) - OneIf(s.Pong?)
    ensures OneIf(After(p, s).reader.Delivering?)
         == OneIf(p.reader.Delivering?) + OneIf(s.ReadMessage?) - OneIf(s.Deliver?)
  {
  }

  /** Until p.closed is closed nothing read is lost: every ping is answered, waits for pingLoop, or is being passed to
      it; every message for a protocol was taken by it or is being offered to it. */
  lemma {:induction false} NothingReadIsLost(states: seq<Peer>, steps: seq<Step>, i: nat)
    requires Run(states, steps) && i < |states| && !states[i].closed
    ensures Count(steps[..i], Pings)
         == Count(steps[..i], Pongs) + states[i].pingRecv + OneIf(states[i].reader == Pinging)
    ensures Count(steps[..i], Messages) == Count(steps[..i], Deliveries) + OneIf(states[i].reader.Delivering?)
  {
    if i == 0 {
      assert steps[..0] == [];
    } else {
      var p, s := states[i - 1], steps[i - 1];
      assert Enabled(p, s) && states[i] == After(p, s);
      assert !p.closed by { RunStopsExactly(p, s); }
      StepReads(p, s);
      hide Enabled, After, Init, Count, IsOf;
      NothingReadIsLost(states, steps, i - 1);
      CountOneMore(steps, i);
    }
  }

  lemma CountOneMore(steps: seq<Step>, i: nat)
    requires 0 < i <= |steps|
    ensures Count(steps[..i], Pings) == Count(steps[..i - 1], Pings) + OneIf(steps[i - 1].ReadPing?)
    ensures Count(steps[..i], Pongs) == Count(steps[..i - 1], Pongs) + OneIf(steps[i - 1].Pong?)
    ensures Count(steps[..i], Messages) == Count(steps[..i - 1], Messages) + OneIf(steps[i - 1].ReadMessage?)
    ensures Count(steps[..i], Deliveries) == Count(steps[..i - 1], Deliveries) + OneIf(steps[i - 1].Deliver?)
  {
    assert steps[..i][..i - 1] == steps[..i - 1] && steps[..i][i - 1] == steps[i - 1];
  }

  // ---- Shutdown ----

  /** run waits until all goroutines it started have finished. */
  ghost predicate AllDone(p: Peer) {
    && p.reader == Done && p.pinger == Finished
    && forall n :: n in p.protocols ==> p.protocols[n] == Finished
  }

  /** Once p.closed is closed, every goroutine and every WriteMsg call that has not finished has a step of its
      own. A protocol at work returns by itself; its ReadMsg and WriteMsg calls do. */
  lemma ShutdownProgress(states: seq<Peer>, steps: seq<Step>, i: nat)
    requires Run(states, steps) && i < |states| && states[i].closed
    ensures var p := states[i];
            && (p.reader != Done ==>
                  Enabled(p, ReaderSeesClosed) || Enabled(p, ReaderFails) || Enabled(p, ReaderSends))
            && (p.pinger != Finished ==> Enabled(p, PingQuits) || Enabled(p, PingSends))
            && (forall n :: n in p.protocols && p.protocols[n] != Finished ==>
                  Enabled(p, ProtocolReturns(n)) || Enabled(p, ProtocolSends(n)))
            && (forall w :: w in p.waiting ==> Enabled(p, QuitWrite(w)))
            && (forall w :: w in p.writing ==> Enabled(p, ReportWrite(w, true)))
  {
    RunKeeps(states, steps, i);
    hide Run;
    ClosedProgress(states[i]);
  }

  lemma ClosedProgress(p: Peer)
    requires Inv(p) && p.closed
    ensures p.reader != Done ==> Enabled(p, ReaderSeesClosed) || Enabled(p, ReaderFails) || Enabled(p, ReaderSends)
    ensures p.pinger != Finished ==> Enabled(p, PingQuits) || Enabled(p, PingSends)
    ensures forall n :: n in p.protocols && p.protocols[n] != Finished ==>
              Enabled(p, ProtocolReturns(n)) || Enabled(p, ProtocolSends(n))
    ensures forall w :: w in p.waiting ==> Enabled(p, QuitWrite(w))
    ensures forall w :: w in p.writing ==> Enabled(p, ReportWrite(w, true))
  {
    InvSends(p);
    hide Inv;
    forall n | n in p.protocols && p.protocols[n] != Finished
      ensures Enabled(p, ProtocolReturns(n)) || Enabled(p, ProtocolSends(n))
    {
      assert p.protocols[n] == Working || p.protocols[n] == Sending;
    }
  }

  ghost function ReaderLeft(r: Reader): nat {
    match r
    case Reading => 2
    case Pinging => 4
    case Delivering(n) => 3
    case Failing => 1
    case Done => 0
  }

  ghost function SenderLeft(at: Sender): nat { match at case Working => 2 case Sending => 1 case Finished => 0 }

  ghost function ProtocolsLeft(protocols: map<string, Sender>): nat {
    2 * |ProtocolsAt(protocols, Working)| + |ProtocolsAt(protocols, Sending)|
  }

  ghost function WritesLeft(p: Peer): nat { 2 * |p.waiting| + |p.writing| }

  /** What is left to do after the connection is closed. */
  ghost function Left(p: Peer): nat {
    ReaderLeft(p.reader) + p.pingRecv + SenderLeft(p.pinger) + ProtocolsLeft(p.protocols) + WritesLeft(p)
  }

  lemma ProtocolLeaves(p: Peer, n: string)
    requires n in p.protocols
    ensures p.protocols[n] == Working ==> ProtocolsLeft(p.protocols[n := Sending]) == ProtocolsLeft(p.protocols) - 1
    ensures p.protocols[n] == Sending ==> ProtocolsLeft(p.protocols[n := Finished]) == ProtocolsLeft(p.protocols) - 1
  {
    hide ProtocolsAt;
    match p.protocols[n]
    case Working => ProtocolMoves(p, n, Sending);
    case Sending => ProtocolMoves(p, n, Finished);
    case Finished =>
  }

  lemma WriteLeaves(p: Peer, s: Step)
    requires Enabled(p, s) && (s.CallWrite? || s.TakeToken? || s.QuitWrite? || s.ReportWrite?)
    ensures After(p, s) == p.(waiting := After(p, s).waiting, writing := After(p, s).writing,
                              writeStart := After(p, s).writeStart, writeErr := After(p, s).writeErr)
    ensures if s.CallWrite? then WritesLeft(After(p, s)) == WritesLeft(p) + 2
            else WritesLeft(After(p, s)) < WritesLeft(p)
  {
    if s.TakeToken? {
      assert |p.writing + {s.w}| <= |p.writing| + 1;
    }
  }

  lemma StepLeaves(p: Peer, s: Step)
    requires Inv(p) && p.hungUp && Enabled(p, s)
    ensures After(p, s).hungUp
    ensures if s.CallWrite? then Left(After(p, s)) == Left(p) + 2 else Left(After(p, s)) < Left(p)
  {
    hide ProtocolsLeft, Tokens, Reports;
    if s.CallWrite? || s.TakeToken? || s.QuitWrite? || s.ReportWrite? {
      WriteLeaves(p, s);
      hide WritesLeft, Enabled, After;
    } else {
      match s
      case ProtocolReturns(n) => ProtocolLeaves(p, n);
      case ProtocolSends(n) => ProtocolLeaves(p, n);
      case _ =>
    }
  }

  ghost function Calls(steps: seq<Step>): nat {
    if steps == [] then 0 else Calls(steps[..|steps| - 1]) + if steps[|steps| - 1].CallWrite? then 1 else 0
  }

  /** After the connection is closed a run has only so many steps left, apart from new WriteMsg calls of protocols
      still at work, each of which adds at most three. */
  lemma {:induction false} ShutdownBounded(states: seq<Peer>, steps: seq<Step>, i: nat, j: nat)
    requires Run(states, steps) && i <= j < |states| && states[i].hungUp
    ensures states[j].hungUp
    ensures (j - i) + Left(states[j]) <= Left(states[i]) + 3 * Calls(steps[i..j])
  {
    hide Left, After, Enabled, Inv;
    if i < j {
      ShutdownBounded(states, steps, i, j - 1);
      RunKeeps(states, steps, j - 1);
      StepLeaves(states[j - 1], steps[j - 1]);
      assert steps[i..j][..j - 1 - i] == steps[i..j - 1];
    } else {
      assert steps[i..j] == [];
    }
  }

  /** So a run that cannot go on after the connection is closed has ended every goroutine and every WriteMsg call,
      and wg.Wait returns. */
  lemma ShutdownCompletes(states: seq<Peer>, steps: seq<Step>)
    requires Run(states, steps) && states[|steps|].hungUp
    requires forall s :: !Enabled(states[|steps|], s)
    ensures AllDone(states[|steps|]) && states[|steps|].waiting == {} && states[|steps|].writing == {}
  {
    RunKeeps(states, steps, |steps|);
    ShutdownProgress(states, steps, |steps|);
    hide Run, Enabled;
  }
}

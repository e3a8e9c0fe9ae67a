/**
 The distributed shutdown. Kernel 0 collects the readiness of all other kernels before it
 broadcasts SHUTDOWN; a peer may volunteer while kernel 0's question to it is on its way.
 A peer that is told to stop does so once its last VPE is gone, and kernel 0 stops last.
 Channels keep their order, the set of kernels is fixed, and an idle kernel stays idle.
 */
module Shutdown {

  /** What a peer sends: SHUTDOWNREQUEST in its two stages, and the reply to SHUTDOWN. */
  datatype Stage = KRequest | KReply | KDone

  /** What kernel 0 sends: the question whether a peer is ready, and the final SHUTDOWN. */
  datatype Order = Ask | Stop

  /** Kernel 0's record of a peer (KPE::ShutdownState). */
  datatype Mark = Unasked | Inflight | Ready

  /**
   A peer as it is, kernel 0's record of it and the two channels between them. `idle` is
   used() <= daemons(), `daemons` that a daemon is left, and `waiting` that a thread waits to
   send to another kernel; `gone` once kernel 0 has deleted the record. The last six fields
   are history: how often kernel 0 asked, how often the peer was reached, what the peer has
   sent and what kernel 0 has heard.
   */
  datatype Peer = Peer(mark: Mark,
                       idle: bool,
                       daemons: bool,
                       waiting: bool,
                       closing: int,
                       requests: int,
                       issued: bool,
                       stopped: bool,
                       gone: bool,
                       up: seq<Stage>,
                       down: seq<Order>,
                       asked: nat,
                       reached: nat,
                       volunteered: nat,
                       replied: nat,
                       heardRequest: nat,
                       heardReply: nat)

  /**
   `closing` and `idle` are kernel 0's closingRequests and used() <= daemons(); `terminated`
   once it has called PEManager::terminate.
   */
  datatype System = System(closing: int, idle: bool, terminated: bool, broadcasts: nat, peers: seq<Peer>)

  // ------------------------------------------------------------------- peers

  function NewPeer(idle: bool, daemons: bool, waiting: bool): Peer {
    Peer(Unasked, idle, daemons, waiting, -1, 0, false, false, false, [], [], 0, 0, 0, 0, 0, 0)
  }

  function SendRequest(p: Peer): Peer {
    p.(up := p.up + [KRequest], volunteered := p.volunteered + 1)
  }

  function SendReply(p: Peer): Peer {
    p.(up := p.up + [KReply], requests := p.requests - 1, replied := p.replied + 1)
  }

  function Finish(p: Peer): Peer {
    p.(up := p.up + [KDone], stopped := true)
  }

  /** PEManager::terminate stops a kernel that has no VPEs left and no threads that wait. */
  predicate Empty(p: Peer) {
    p.idle && !p.daemons && !p.waiting
  }

  /** SyscallHandler::tryTerminate on a peer. */
  function PeerTryTerminate(p: Peer): Peer {
    if !p.idle then p
    else if p.closing < 0 then SendRequest(p).(closing := p.closing + 1)
    else if p.issued && !p.daemons then if p.waiting then p else Finish(p)
    else if p.requests > 0 then SendReply(p)
    else p
  }

  /** A VPE of the peer exits; `lastOne` if none but daemons are left then, `lastDaemon` if no daemon is. */
  function PeerExit(p: Peer, lastOne: bool, lastDaemon: bool): Peer {
    PeerTryTerminate(p.(idle := p.idle || lastOne, daemons := p.daemons && !lastDaemon))
  }

  /** A thread of the peer goes to sleep until there is room for its message. */
  function PeerSleep(p: Peer): Peer {
    p.(waiting := true)
  }

  /** It goes on, and runs KPE::checkShutdown; `last` if it was the last that waited. */
  function PeerWake(p: Peer, last: bool): Peer {
    var q := p.(waiting := p.waiting && !last);
    if q.issued && Empty(q) then Finish(q) else q
  }

  /** KernelcallHandler::requestShutdown and ::shutdown on a peer. */
  function PeerReceive(p: Peer): Peer
    requires |p.down| > 0
  {
    var q := p.(down := p.down[1..]);
    match p.down[0]
    case Ask =>
      var r := q.(requests := q.requests + 1, reached := q.reached + 1);
      if r.idle then SendReply(r).(closing := r.closing + 1) else r
    case Stop =>
      var r := q.(issued := true);
      if Empty(r) then Finish(r) else r
  }

  // ---------------------------------------------------------------- kernel 0

  function AskPeer(p: Peer): Peer {
    if p.mark == Unasked then p.(mark := Inflight, down := p.down + [Ask], asked := p.asked + 1) else p
  }

  function StopPeer(p: Peer): Peer {
    if p.gone then p else p.(down := p.down + [Stop])
  }

  /** Coordinator::broadcastShutdownRequest: the new records, and how many were asked. */
  function AskAll(ps: seq<Peer>): seq<Peer> {
    seq(|ps|, i requires 0 <= i < |ps| => AskPeer(ps[i]))
  }

  function CountUnasked(ps: seq<Peer>): nat {
    if |ps| == 0 then 0 else CountUnasked(ps[..|ps| - 1]) + (if ps[|ps| - 1].mark == Unasked then 1 else 0)
  }

  function StopAll(ps: seq<Peer>): seq<Peer> {
    seq(|ps|, i requires 0 <= i < |ps| => StopPeer(ps[i]))
  }

  function BroadcastRequest(s: System): System {
    s.(closing := CountUnasked(s.peers), peers := AskAll(s.peers))
  }

  /** The end of requestShutdown on kernel 0. */
  function StopIfReady(s: System): System {
    if s.closing == 0 && s.idle then s.(broadcasts := s.broadcasts + 1, peers := StopAll(s.peers)) else s
  }

  /** A VPE of kernel 0 exits. */
  function ZeroExit(s: System, lastOne: bool): System {
    if !lastOne then s else
      var s' := BroadcastRequest(s.(idle := true));
      s'.(terminated := s.terminated || s'.closing == 0)
  }

  function HeadUp(p: Peer): Peer
    requires |p.up| > 0
  {
    var q := p.(up := p.up[1..]);
    match p.up[0]
    case KRequest => q.(mark := Ready, heardRequest := q.heardRequest + 1)
    case KReply => q.(heardReply := q.heardReply + 1)
    case KDone => q.(gone := true)
  }

  predicate AllGone(ps: seq<Peer>) {
    forall i :: 0 <= i < |ps| ==> ps[i].gone
  }

  /**
   Kernel 0 takes the next message of peer `i` (KernelcallHandler::requestShutdown and
   ::shutdown). A request of a peer without a record is ignored.
   */
  function ZeroReceive(s: System, i: nat): System
    requires i < |s.peers| && |s.peers[i].up| > 0
  {
    var p := s.peers[i];
    var s1 := s.(peers := s.peers[i := HeadUp(p)]);
    if p.up[0] == KDone then
      s1.(terminated := s.terminated || AllGone(s1.peers))
    else if p.gone then
      s.(peers := s.peers[i := p.(up := p.up[1..])])
    else if p.up[0] == KRequest then
      var s2 := if p.mark == Inflight then s1.(closing := s1.closing - 1) else s1;
      StopIfReady(if s2.closing < 0 && s2.idle then BroadcastRequest(s2) else s2)
    else
      StopIfReady(if p.mark != Ready then s1.(closing := s1.closing - 1) else s1)
  }

  // -------------------------------------------------------------------- runs

  datatype Event =
    | ExitZero(lastOne: bool)
    | ExitPeer(i: nat, lastOne: bool, lastDaemon: bool)
    | SleepPeer(i: nat)
    | WakePeer(i: nat, last: bool)
    | ToZero(i: nat)
    | ToPeer(i: nat)

  /** No VPE exits on kernel 0 once it is idle, and nothing happens on a stopped peer. */
  predicate Enabled(s: System, e: Event) {
    match e
    case ExitZero(_) => !s.idle
    case ExitPeer(i, _, _) => i < |s.peers| && !s.peers[i].stopped
    case SleepPeer(i) => i < |s.peers| && !s.peers[i].stopped
    case WakePeer(i, _) => i < |s.peers| && !s.peers[i].stopped && s.peers[i].waiting
    case ToZero(i) => i < |s.peers| && |s.peers[i].up| > 0
    case ToPeer(i) => i < |s.peers| && |s.peers[i].down| > 0 && !s.peers[i].stopped
  }

  function Next(s: System, e: Event): System
    requires Enabled(s, e)
  {
    match e
    case ExitZero(lastOne) => ZeroExit(s, lastOne)
    case ToZero(i) => ZeroReceive(s, i)
    case _ => s.(peers := s.peers[e.i := PeerNext(s.peers[e.i], e)])
  }

  /** What the event does to the peer on which it happens. */
  function PeerNext(p: Peer, e: Event): Peer
    requires !e.ExitZero? && !e.ToZero? && (e.ToPeer? ==> |p.down| > 0)
  {
    match e
    case ExitPeer(_, lastOne, lastDaemon) => PeerExit(p, lastOne, lastDaemon)
    case SleepPeer(_) => PeerSleep(p)
    case WakePeer(_, last) => PeerWake(p, last)
    case ToPeer(_) => PeerReceive(p)
  }

  predicate Possible(s: System, es: seq<Event>)
    decreases |es|
  {
    |es| == 0 || (Enabled(s, es[0]) && Possible(Next(s, es[0]), es[1..]))
  }

  function After(s: System, es: seq<Event>): System
    requires Possible(s, es)
    decreases |es|
  {
    if |es| == 0 then s else After(Next(s, es[0]), es[1..])
  }

  predicate Fresh(p: Peer) {
    p == NewPeer(p.idle, p.daemons, p.waiting)
  }

  predicate Initial(s: System) {
    && s.closing == -1 && !s.terminated && s.broadcasts == 0
    && forall i :: 0 <= i < |s.peers| ==> Fresh(s.peers[i])
  }

  // --------------------------------------------------------------- invariant

  function Asks(down: seq<Order>): nat {
    if |down| == 0 then 0 else (if down[0] == Ask then 1 else 0) + Asks(down[1..])
  }

  /** The messages of a peer that kernel 0 has not taken yet, in the order they were sent. */
  function Unheard(p: Peer): seq<Stage> {
    (if p.heardRequest < p.volunteered then [KRequest] else []) +
    (if p.heardReply < p.replied then [KReply] else []) +
    (if p.stopped && !p.gone then [KDone] else [])
  }

  predicate Announced(p: Peer) {
    p.volunteered + p.replied > 0
  }

  predicate PeerInv(p: Peer) {
    && p.reached <= p.asked <= 1 && Asks(p.down) == p.asked - p.reached
    && p.replied <= p.reached && p.requests == p.reached - p.replied
    && p.volunteered <= 1 && p.heardRequest <= p.volunteered && p.heardReply <= p.replied
    && (p.heardReply > 0 ==> p.heardRequest == p.volunteered)
    && p.up == Unheard(p)
    && p.closing >= -1 && (p.closing >= 0 <==> Announced(p))
    && (p.mark == Ready <==> p.heardRequest == 1)
    && (p.mark == Unasked ==> p.asked == 0) && (p.mark == Inflight ==> p.asked == 1)
    && (Announced(p) ==> p.idle)
    && (p.reached == 1 && p.idle ==> Announced(p))
    && (p.stopped <==> p.issued && Empty(p)) && (Told(p) ==> Announced(p))
    && (p.gone ==> p.stopped && p.heardRequest == p.volunteered && p.heardReply == p.replied)
  }

  /** SHUTDOWN has been sent to the peer. */
  predicate Told(p: Peer) {
    p.issued || Stop in p.down
  }

  /** Asked, and no answer has reached kernel 0. */
  predicate Open(p: Peer) {
    p.mark == Inflight && p.heardReply == 0
  }

  function CountOpen(ps: seq<Peer>): nat {
    if |ps| == 0 then 0 else CountOpen(ps[..|ps| - 1]) + (if Open(ps[|ps| - 1]) then 1 else 0)
  }

  /** The peers are sound and, as far as `closing` tells, correctly counted. */
  ghost predicate Sound(s: System) {
    && (forall i {:trigger PeerInv(s.peers[i])} :: 0 <= i < |s.peers| ==> PeerInv(s.peers[i]))
    && s.closing >= -1
    && (s.closing == -1 ==> forall i :: 0 <= i < |s.peers| ==> s.peers[i].asked == 0)
    && (s.closing >= 0 ==>
          && s.idle && s.closing == CountOpen(s.peers)
          && forall i :: 0 <= i < |s.peers| ==> s.peers[i].mark != Unasked)
    && (s.broadcasts > 0 ==> s.closing == 0 && |s.peers| > 0)
    && (forall i :: 0 <= i < |s.peers| ==> (Told(s.peers[i]) <==> s.broadcasts > 0))
    && (|s.peers| > 0 && AllGone(s.peers) ==> s.terminated)
  }

  ghost predicate Inv(s: System) {
    && Sound(s)
    && (s.closing == 0 ==> s.broadcasts > 0 || s.terminated)
    && (s.closing == -1 && s.idle ==> forall i :: 0 <= i < |s.peers| ==> s.peers[i].mark == Unasked)
  }
}

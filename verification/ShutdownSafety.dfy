/** What the shutdown protocol guarantees for any number of kernels and any crossing of messages. */
module ShutdownSafety {
  import opened Shutdown

  // ------------------------------------------------------------- single peers

  lemma {:induction false} AsksAppend(down: seq<Order>, o: Order)
    ensures Asks(down + [o]) == Asks(down) + (if o == Ask then 1 else 0)
  {
    if |down| > 0 {
      assert (down + [o])[1..] == down[1..] + [o];
      AsksAppend(down[1..], o);
    }
  }

  /** What a step of the peer itself leaves alone. */
  predicate OwnStep(p: Peer, q: Peer) {
    && q.mark == p.mark && q.heardReply == p.heardReply && q.asked == p.asked && q.gone == p.gone
    && (Told(q) <==> Told(p))
  }

  lemma PeerNextInv(p: Peer, e: Event)
    requires PeerInv(p) && !p.stopped && !e.ExitZero? && !e.ToZero? && (e.ToPeer? ==> |p.down| > 0)
    ensures PeerInv(PeerNext(p, e)) && OwnStep(p, PeerNext(p, e))
  {
    match e
    case ExitPeer(_, lastOne, lastDaemon) => PeerExitInv(p, lastOne, lastDaemon);
    case SleepPeer(_) => PeerSleepInv(p);
    case WakePeer(_, last) => PeerWakeInv(p, last);
    case ToPeer(_) => PeerReceiveInv(p);
  }

  lemma PeerExitInv(p: Peer, lastOne: bool, lastDaemon: bool)
    requires PeerInv(p) && !p.stopped
    ensures PeerInv(PeerExit(p, lastOne, lastDaemon)) && OwnStep(p, PeerExit(p, lastOne, lastDaemon))
  {
    if p.closing < 0 {
      FirstExitInv(p, lastOne, lastDaemon);
    } else {
      LaterExitInv(p, lastOne, lastDaemon);
    }
  }

  lemma FirstExitInv(p: Peer, lastOne: bool, lastDaemon: bool)
    requires PeerInv(p) && !p.stopped && p.closing < 0
    ensures PeerInv(PeerExit(p, lastOne, lastDaemon)) && OwnStep(p, PeerExit(p, lastOne, lastDaemon))
  {
  }

  lemma LaterExitInv(p: Peer, lastOne: bool, lastDaemon: bool)
    requires PeerInv(p) && !p.stopped && p.closing >= 0
    ensures PeerInv(PeerExit(p, lastOne, lastDaemon)) && OwnStep(p, PeerExit(p, lastOne, lastDaemon))
  {
  }

  lemma PeerSleepInv(p: Peer)
    requires PeerInv(p) && !p.stopped
    ensures PeerInv(PeerSleep(p)) && OwnStep(p, PeerSleep(p))
  {
  }

  lemma PeerWakeInv(p: Peer, last: bool)
    requires PeerInv(p) && !p.stopped
    ensures PeerInv(PeerWake(p, last)) && OwnStep(p, PeerWake(p, last))
  {
  }

  lemma PeerReceiveInv(p: Peer)
    requires PeerInv(p) && |p.down| > 0 && !p.stopped
    ensures PeerInv(PeerReceive(p)) && OwnStep(p, PeerReceive(p))
  {
    if p.down[0] == Ask {
      TakeAskInv(p);
    } else {
      TakeStopInv(p);
    }
  }

  lemma TakeAskInv(p: Peer)
    requires PeerInv(p) && |p.down| > 0 && p.down[0] == Ask && !p.stopped
    ensures PeerInv(PeerReceive(p)) && OwnStep(p, PeerReceive(p))
  {
  }

  lemma TakeStopInv(p: Peer)
    requires PeerInv(p) && |p.down| > 0 && p.down[0] == Stop && !p.stopped
    ensures PeerInv(PeerReceive(p)) && OwnStep(p, PeerReceive(p))
  {
  }

  lemma AskPeerInv(p: Peer)
    requires PeerInv(p)
    ensures PeerInv(AskPeer(p)) && Open(AskPeer(p)) == (p.mark == Unasked || Open(p))
    ensures AskPeer(p).gone == p.gone && Told(AskPeer(p)) == Told(p)
  {
    AsksAppend(p.down, Ask);
  }

  lemma StopPeerInv(p: Peer)
    requires PeerInv(p) && Announced(p)
    ensures PeerInv(StopPeer(p)) && Open(StopPeer(p)) == Open(p) && StopPeer(p).gone == p.gone
    ensures Told(StopPeer(p))
  {
    AsksAppend(p.down, Stop);
  }

  /** Whoever is heard has a record; a message that counts closes the question to its sender. */
  lemma HeadUpInv(p: Peer)
    requires PeerInv(p) && |p.up| > 0
    ensures !p.gone && PeerInv(HeadUp(p)) && Told(HeadUp(p)) == Told(p) && HeadUp(p).asked == p.asked
    ensures p.mark == Inflight ==> p.asked == 1
    ensures p.up[0] == KDone ==> HeadUp(p).mark == p.mark && Open(HeadUp(p)) == Open(p) && p.stopped
    ensures p.up[0] != KDone ==>
              && (Open(p) <==> p.mark == Inflight) && !Open(HeadUp(p)) && HeadUp(p).mark != Unasked
              && !HeadUp(p).gone && (p.up[0] == KReply ==> p.mark != Unasked && p.asked == 1)
  {
  }

  // ------------------------------------------------------------------ counts

  lemma {:induction false} CountOpenUpdate(ps: seq<Peer>, i: nat, q: Peer)
    requires i < |ps|
    ensures CountOpen(ps[i := q]) + (if Open(ps[i]) then 1 else 0) == CountOpen(ps) + (if Open(q) then 1 else 0)
  {
    var n := |ps| - 1;
    if i == n {
      assert ps[i := q][..n] == ps[..n];
    } else {
      assert ps[i := q][..n] == ps[..n][i := q];
      CountOpenUpdate(ps[..n], i, q);
    }
  }

  lemma {:induction false} CountOpenSame(ps: seq<Peer>, qs: seq<Peer>)
    requires |ps| == |qs| && forall i :: 0 <= i < |ps| ==> Open(qs[i]) == Open(ps[i])
    ensures CountOpen(qs) == CountOpen(ps)
  {
    if |ps| > 0 {
      CountOpenSame(ps[..|ps| - 1], qs[..|ps| - 1]);
    }
  }

  /** As long as nobody has been asked, asking opens exactly the unasked peers. */
  lemma {:induction false} CountAsked(ps: seq<Peer>, qs: seq<Peer>)
    requires |ps| == |qs| && forall i :: 0 <= i < |ps| ==> Open(qs[i]) == (ps[i].mark == Unasked)
    ensures CountOpen(qs) == CountUnasked(ps)
  {
    if |ps| > 0 {
      CountAsked(ps[..|ps| - 1], qs[..|ps| - 1]);
    }
  }

  lemma {:induction false} CountOpenZero(ps: seq<Peer>, i: nat)
    requires CountOpen(ps) == 0 && i < |ps|
    ensures !Open(ps[i])
  {
    if i < |ps| - 1 {
      CountOpenZero(ps[..|ps| - 1], i);
    }
  }

  // ------------------------------------------------------------------- steps

  lemma BroadcastRequestSound(s: System)
    requires Sound(s) && s.closing == -1 && s.idle
    ensures Sound(BroadcastRequest(s)) && BroadcastRequest(s).closing >= 0
  {
    var s' := BroadcastRequest(s);
    forall i | 0 <= i < |s.peers|
      ensures PeerInv(s'.peers[i]) && s'.peers[i].mark != Unasked && !Told(s'.peers[i])
      ensures Open(s'.peers[i]) == (s.peers[i].mark == Unasked) && s'.peers[i].gone == s.peers[i].gone
    {
      AskPeerInv(s.peers[i]);
    }
    CountAsked(s.peers, s'.peers);
  }

  /** Kernel 0 has heard from the peer. */
  predicate Heard(p: Peer) {
    p.heardRequest == 1 || p.heardReply == 1
  }

  lemma NothingOpen(s: System)
    requires Sound(s) && s.closing == 0
    ensures s.idle
    ensures forall i :: 0 <= i < |s.peers| ==> Heard(s.peers[i]) && Announced(s.peers[i]) && s.peers[i].idle
  {
    forall i | 0 <= i < |s.peers| ensures Heard(s.peers[i]) && Announced(s.peers[i]) && s.peers[i].idle {
      assert PeerInv(s.peers[i]);
      CountOpenZero(s.peers, i);
    }
  }

  lemma StopIfReadyInv(s: System)
    requires Sound(s) && (s.closing == -1 ==> !s.idle) && |s.peers| > 0
    ensures Inv(StopIfReady(s))
  {
    var s' := StopIfReady(s);
    if s.closing == 0 && s.idle {
      NothingOpen(s);
      forall i | 0 <= i < |s.peers|
        ensures PeerInv(s'.peers[i]) && s'.peers[i].mark == s.peers[i].mark && Told(s'.peers[i])
        ensures Open(s'.peers[i]) == Open(s.peers[i]) && s'.peers[i].gone == s.peers[i].gone
      {
        StopPeerInv(s.peers[i]);
      }
      CountOpenSame(s.peers, s'.peers);
    }
  }

  /** What kernel 0 knows after taking the message, before it acts on it. */
  function Taken(s: System, i: nat): System
    requires i < |s.peers| && |s.peers[i].up| > 0
  {
    var p := s.peers[i];
    s.(peers := s.peers[i := HeadUp(p)],
       closing := if p.mark == Inflight then s.closing - 1 else s.closing)
  }

  lemma TakenSound(s: System, i: nat)
    requires Inv(s) && i < |s.peers| && |s.peers[i].up| > 0 && s.peers[i].up[0] != KDone
    ensures Sound(Taken(s, i)) && !s.peers[i].gone
    ensures s.peers[i].up[0] == KReply ==> s.peers[i].mark != Unasked && Taken(s, i).closing >= 0
  {
    hide PeerInv, Told, HeadUp;
    var p := s.peers[i];
    assert PeerInv(p);
    HeadUpInv(p);
    CountOpenUpdate(s.peers, i, HeadUp(p));
    var s' := Taken(s, i);
    if s.closing == 0 {
      CountOpenZero(s.peers, i);
    }
    forall j | 0 <= j < |s'.peers| ensures PeerInv(s'.peers[j]) && Told(s'.peers[j]) == Told(s.peers[j]) {
      assert PeerInv(s.peers[j]);
    }
    assert s'.peers[i] == HeadUp(p);
  }

  /** The state in which kernel 0 decides whether to broadcast SHUTDOWN. */
  function Considered(s: System, i: nat): System
    requires i < |s.peers| && |s.peers[i].up| > 0
  {
    var s1 := Taken(s, i);
    if s.peers[i].up[0] == KRequest && s1.closing < 0 && s1.idle then BroadcastRequest(s1) else s1
  }

  lemma ZeroReceiveIs(s: System, i: nat)
    requires Inv(s) && i < |s.peers| && |s.peers[i].up| > 0 && s.peers[i].up[0] != KDone
    ensures ZeroReceive(s, i) == StopIfReady(Considered(s, i))
  {
    TakenSound(s, i);
    hide Inv, Sound, HeadUp, StopIfReady, BroadcastRequest;
  }

  lemma ZeroReceiveInv(s: System, i: nat)
    requires Inv(s) && i < |s.peers| && |s.peers[i].up| > 0
    ensures Inv(ZeroReceive(s, i))
  {
    if s.peers[i].up[0] == KDone {
      DoneInv(s, i);
    } else {
      TakenSound(s, i);
      ZeroReceiveIs(s, i);
      hide ZeroReceive, HeadUp;
      if s.peers[i].up[0] == KRequest && Taken(s, i).closing < 0 && Taken(s, i).idle {
        BroadcastRequestSound(Taken(s, i));
      }
      StopIfReadyInv(Considered(s, i));
    }
  }

  lemma DoneInv(s: System, i: nat)
    requires Inv(s) && i < |s.peers| && |s.peers[i].up| > 0 && s.peers[i].up[0] == KDone
    ensures Inv(ZeroReceive(s, i))
  {
    hide PeerInv, HeadUp, Told;
    var p := s.peers[i];
    assert PeerInv(p);
    HeadUpInv(p);
    CountOpenUpdate(s.peers, i, HeadUp(p));
    var s' := ZeroReceive(s, i);
    forall j | 0 <= j < |s'.peers| ensures PeerInv(s'.peers[j]) && Told(s'.peers[j]) == Told(s.peers[j]) {
      assert PeerInv(s.peers[j]);
    }
  }

  lemma PeerStepInv(s: System, i: nat, q: Peer)
    requires Inv(s) && i < |s.peers| && PeerInv(q) && OwnStep(s.peers[i], q)
    ensures Inv(s.(peers := s.peers[i := q]))
  {
    hide PeerInv, Told;
    CountOpenUpdate(s.peers, i, q);
    var s' := s.(peers := s.peers[i := q]);
    forall j | 0 <= j < |s'.peers|
      ensures PeerInv(s'.peers[j]) && s'.peers[j].gone == s.peers[j].gone && Told(s'.peers[j]) == Told(s.peers[j])
    {
      assert j != i ==> PeerInv(s.peers[j]);
    }
  }

  lemma NextInv(s: System, e: Event)
    requires Inv(s) && Enabled(s, e)
    ensures Inv(Next(s, e))
  {
    match e
    case ExitZero(lastOne) =>
      if lastOne {
        BroadcastRequestSound(s.(idle := true));
      }
    case ToZero(i) => ZeroReceiveInv(s, i);
    case _ =>
      assert PeerInv(s.peers[e.i]);
      hide PeerInv, PeerNext;
      PeerNextInv(s.peers[e.i], e);
      PeerStepInv(s, e.i, PeerNext(s.peers[e.i], e));
  }

  lemma NewPeerInv(p: Peer)
    requires Fresh(p)
    ensures PeerInv(p) && !Told(p) && !p.gone && p.asked == 0 && p.mark == Unasked
  {
    assert Asks(p.down) == 0;
    assert Unheard(p) == [];
  }

  lemma InitialInv(s: System)
    requires Initial(s)
    ensures Inv(s)
  {
    hide PeerInv, Told, Fresh;
    forall i | 0 <= i < |s.peers|
      ensures PeerInv(s.peers[i]) && !Told(s.peers[i]) && !s.peers[i].gone
      ensures s.peers[i].asked == 0 && s.peers[i].mark == Unasked
    {
      NewPeerInv(s.peers[i]);
    }
    assert |s.peers| > 0 ==> !s.peers[0].gone;
  }

  lemma {:induction false} AfterInv(s: System, es: seq<Event>)
    requires Inv(s) && Possible(s, es)
    ensures Inv(After(s, es))
    decreases |es|
  {
    if |es| > 0 {
      NextInv(s, es[0]);
      AfterInv(Next(s, es[0]), es[1..]);
    }
  }

  // ---------------------------------------------------------------- theorems

  /**
   Whenever SHUTDOWN is broadcast, kernel 0 has heard from every peer and every kernel of
   the system is idle.
   */
  lemma {:induction false} BroadcastOnlyWhenIdle(s0: System, es: seq<Event>, e: Event)
    requires Initial(s0) && Possible(s0, es) && Enabled(After(s0, es), e)
    requires Next(After(s0, es), e).broadcasts > After(s0, es).broadcasts
    ensures var s := Next(After(s0, es), e);
            && s.idle
            && forall i :: 0 <= i < |s.peers| ==> Heard(s.peers[i]) && Announced(s.peers[i]) && s.peers[i].idle
  {
    hide After, Possible;
    InitialInv(s0);
    AfterInv(s0, es);
    NextInv(After(s0, es), e);
    hide Next;
    NothingOpen(Next(After(s0, es), e));
  }

  /**
   closingRequests is -1 while nobody has been asked; from then on it is the number of
   peers that were asked and have not been heard, and everybody has been asked or is ready.
   */
  lemma {:induction false} ClosingCounts(s0: System, es: seq<Event>)
    requires Initial(s0) && Possible(s0, es)
    ensures var s := After(s0, es);
            if s.closing == -1 then
              forall i :: 0 <= i < |s.peers| ==> s.peers[i].asked == 0 && s.peers[i].mark != Inflight
            else && s.closing == CountOpen(s.peers)
                 && forall i :: 0 <= i < |s.peers| ==> s.peers[i].mark != Unasked
  {
    hide After, Possible;
    InitialInv(s0);
    AfterInv(s0, es);
    var s := After(s0, es);
    forall i | 0 <= i < |s.peers| ensures s.peers[i].asked == 0 ==> s.peers[i].mark != Inflight {
      PeerOf(s, i);
    }
  }

  /**
   A peer volunteers at most once, is asked at most once and answers at most once; its
   shutdownRequests are the questions that reached it minus the replies it gave.
   */
  lemma {:induction false} PeerTraffic(s0: System, es: seq<Event>, i: nat)
    requires Initial(s0) && Possible(s0, es) && i < |After(s0, es).peers|
    ensures var p := After(s0, es).peers[i];
            && p.volunteered <= 1 && p.asked <= 1 && p.replied <= p.reached <= p.asked
            && p.requests == p.reached - p.replied >= 0
            && p.heardRequest <= p.volunteered && p.heardReply <= p.replied
  {
    hide After, Possible;
    InitialInv(s0);
    AfterInv(s0, es);
    PeerOf(After(s0, es), i);
  }

  lemma PeerOf(s: System, i: nat)
    requires Inv(s) && i < |s.peers|
    ensures PeerInv(s.peers[i])
  {
  }

  /** What a broadcast, and what came before it, does to peer `i`. */
  lemma StopFrame(s: System, i: nat)
    requires i < |s.peers|
    ensures var s', stops := StopIfReady(s), s.closing == 0 && s.idle;
            && |s'.peers| == |s.peers| && s'.peers[i].volunteered == s.peers[i].volunteered
            && s'.broadcasts == s.broadcasts + (if stops then 1 else 0)
            && s'.peers[i].down == s.peers[i].down + (if stops && !s.peers[i].gone then [Stop] else [])
  {
  }

  lemma ConsideredFrame(s: System, j: nat, i: nat)
    requires j < |s.peers| && |s.peers[j].up| > 0 && s.peers[j].up[0] != KDone && i < |s.peers|
    ensures var s' := Considered(s, j);
            && |s'.peers| == |s.peers| && s'.broadcasts == s.broadcasts && s'.idle == s.idle
            && s'.peers[i].volunteered == s.peers[i].volunteered && s'.peers[i].gone == s.peers[i].gone
            && (s'.closing == 0 ==> s'.peers[i].down == s.peers[i].down)
  {
    hide Taken, BroadcastRequest;
    TakenFrame(s, j, i);
    AskFrame(Taken(s, j), i);
  }

  lemma TakenFrame(s: System, j: nat, i: nat)
    requires j < |s.peers| && |s.peers[j].up| > 0 && s.peers[j].up[0] != KDone && i < |s.peers|
    ensures var s' := Taken(s, j);
            && |s'.peers| == |s.peers| && s'.broadcasts == s.broadcasts && s'.idle == s.idle
            && s'.peers[i].volunteered == s.peers[i].volunteered && s'.peers[i].gone == s.peers[i].gone
            && s'.peers[i].down == s.peers[i].down
  {
  }

  lemma AskFrame(s: System, i: nat)
    requires i < |s.peers|
    ensures var s' := BroadcastRequest(s);
            && |s'.peers| == |s.peers| && s'.broadcasts == s.broadcasts && s'.idle == s.idle
            && s'.peers[i].volunteered == s.peers[i].volunteered && s'.peers[i].gone == s.peers[i].gone
            && (s'.closing == 0 ==> s'.peers[i].down == s.peers[i].down)
  {
    if CountUnasked(s.peers) == 0 {
      NoneUnasked(s.peers, i);
    }
    hide CountUnasked;
  }

  lemma {:induction false} NoneUnasked(ps: seq<Peer>, i: nat)
    requires CountUnasked(ps) == 0 && i < |ps|
    ensures ps[i].mark != Unasked
  {
    if i < |ps| - 1 {
      NoneUnasked(ps[..|ps| - 1], i);
    }
  }

  lemma ZeroKeepsVolunteered(s: System, i: nat, j: nat)
    requires Inv(s) && j < |s.peers| && |s.peers[j].up| > 0 && i < |s.peers|
    ensures |ZeroReceive(s, j).peers| == |s.peers|
    ensures ZeroReceive(s, j).peers[i].volunteered == s.peers[i].volunteered
  {
    if s.peers[j].up[0] != KDone {
      hide ZeroReceive, Inv, Considered, StopIfReady;
      ZeroReceiveIs(s, j);
      ConsideredFrame(s, j, i);
      StopFrame(Considered(s, j), i);
    }
  }

  /** A peer that has replied does not volunteer any more. */
  lemma {:induction false} NoRequestAfterReply(s0: System, es: seq<Event>, e: Event, i: nat)
    requires Initial(s0) && Possible(s0, es) && Enabled(After(s0, es), e)
    requires i < |After(s0, es).peers| && After(s0, es).peers[i].replied > 0
    ensures |Next(After(s0, es), e).peers| == |After(s0, es).peers|
    ensures Next(After(s0, es), e).peers[i].volunteered == After(s0, es).peers[i].volunteered
  {
    hide ZeroReceive, After;
    InitialInv(s0);
    AfterInv(s0, es);
    var s := After(s0, es);
    PeerOf(s, i);
    if e.ToZero? {
      ZeroKeepsVolunteered(s, i, e.i);
    }
  }

  /** No shutdown message is on its way to a kernel that runs. */
  predicate Still(s: System) {
    forall i :: 0 <= i < |s.peers| ==> s.peers[i].up == [] && (s.peers[i].down == [] || s.peers[i].stopped)
  }

  /**
   When all kernels are idle and all messages have been taken, the shutdown has been
   decided, provided that anyone started it: SHUTDOWN was broadcast, or kernel 0 found
   everyone ready when its last VPE exited and terminated at once.
   */
  lemma {:induction false} StillMeansDecided(s0: System, es: seq<Event>)
    requires Initial(s0) && Possible(s0, es)
    requires var s := After(s0, es);
             && Still(s) && s.idle && (forall i :: 0 <= i < |s.peers| ==> s.peers[i].idle)
             && (s.closing >= 0 || exists i :: 0 <= i < |s.peers| && s.peers[i].volunteered > 0)
    ensures After(s0, es).closing == 0
    ensures After(s0, es).broadcasts > 0 || After(s0, es).terminated
  {
    hide After, Possible;
    var s := After(s0, es);
    InitialInv(s0);
    AfterInv(s0, es);
    if s.broadcasts == 0 {
      forall i | 0 <= i < |s.peers|
        ensures !Open(s.peers[i]) && (s.peers[i].volunteered > 0 ==> s.peers[i].mark == Ready)
      {
        PeerOf(s, i);
        QuietPeer(s.peers[i]);
      }
      NoneOpen(s.peers);
    }
  }

  lemma QuietPeer(p: Peer)
    requires PeerInv(p) && p.up == [] && p.idle && (p.down == [] || p.stopped)
    ensures Told(p) || !Open(p)
    ensures p.volunteered > 0 ==> p.mark == Ready
  {
  }

  lemma {:induction false} NoneOpen(ps: seq<Peer>)
    requires forall i :: 0 <= i < |ps| ==> !Open(ps[i])
    ensures CountOpen(ps) == 0
  {
    if |ps| > 0 {
      NoneOpen(ps[..|ps| - 1]);
    }
  }

  // --------------------------------------------------------- how it starts and ends

  /** When its last VPE exits, kernel 0 asks every peer that is not known to be ready; before, it does nothing. */
  lemma {:induction false} ExitStarts(s0: System, es: seq<Event>, i: nat)
    requires Initial(s0) && Possible(s0, es) && !After(s0, es).idle && i < |After(s0, es).peers|
    ensures var s := After(s0, es);
            var s' := Next(s, ExitZero(true));
            && s'.idle && s'.closing == CountOpen(s'.peers) && |s'.peers| == |s.peers|
            && s'.peers[i].down == s.peers[i].down + (if s.peers[i].heardRequest == 0 then [Ask] else [])
            && (s'.peers[i].mark == Ready <==> s.peers[i].heardRequest == 1) && s'.peers[i].mark != Unasked
            && Next(s, ExitZero(false)) == s
  {
    hide After, Possible;
    InitialInv(s0);
    AfterInv(s0, es);
    var s := After(s0, es);
    NextInv(s, ExitZero(true));
    PeerOf(s, i);
    PeerOf(Next(s, ExitZero(true)), i);
  }

  /** What a peer says when something happens on it, by what it has said and heard before. */
  function Says(p: Peer, e: Event): seq<Stage> {
    match e
    case ExitPeer(_, lastOne, lastDaemon) =>
      if !p.idle && !lastOne then []
      else if p.volunteered + p.replied == 0 then [KRequest]
      else if p.issued && (lastDaemon || !p.daemons) then if p.waiting then [] else [KDone]
      else if p.replied < p.reached then [KReply] else []
    case WakePeer(_, last) => if p.issued && p.idle && !p.daemons && last then [KDone] else []
    case ToPeer(_) =>
      if p.down == [] then []
      else if p.down[0] == Ask then if p.idle then [KReply] else []
      else if p.idle && !p.daemons && !p.waiting then [KDone] else []
    case _ => []
  }

  /** How many VPEs and sleeping threads a peer has left changes only where they exit, sleep or wake. */
  predicate Becomes(p: Peer, e: Event, q: Peer) {
    && (q.idle <==> p.idle || (e.ExitPeer? && e.lastOne))
    && (q.daemons <==> p.daemons && !(e.ExitPeer? && e.lastDaemon))
    && (q.waiting <==> e.SleepPeer? || (p.waiting && !(e.WakePeer? && e.last)))
  }

  lemma PeerSays(p: Peer, e: Event)
    requires PeerInv(p) && !e.ExitZero? && !e.ToZero? && (e.ToPeer? ==> |p.down| > 0)
    requires e.WakePeer? ==> p.waiting
    ensures PeerNext(p, e).up == p.up + Says(p, e) && Becomes(p, e, PeerNext(p, e))
  {
    assert p.up + [] == p.up;
    hide Unheard, Asks;
  }

  /**
   In every run a peer says just that: a request when it gets idle unannounced, a reply to
   every question, at once if it is idle and else with a later exit, and that it is done as
   soon as it was told to stop and has emptied.
   */
  lemma {:induction false} PeersSay(s0: System, es: seq<Event>, e: Event)
    requires Initial(s0) && Possible(s0, es) && Enabled(After(s0, es), e) && !e.ExitZero? && !e.ToZero?
    ensures var s := After(s0, es);
            && |Next(s, e).peers| == |s.peers|
            && Next(s, e).peers[e.i].up == s.peers[e.i].up + Says(s.peers[e.i], e)
            && Becomes(s.peers[e.i], e, Next(s, e).peers[e.i])
  {
    hide After, Possible;
    InitialInv(s0);
    AfterInv(s0, es);
    var s := After(s0, es);
    PeerOf(s, e.i);
    hide PeerInv, PeerNext, Says, Becomes;
    PeerSays(s.peers[e.i], e);
  }

  lemma ReceiveStops(s: System, j: nat, i: nat)
    requires Inv(s) && j < |s.peers| && |s.peers[j].up| > 0 && i < |s.peers|
    requires ZeroReceive(s, j).broadcasts > s.broadcasts
    ensures |ZeroReceive(s, j).peers| == |s.peers|
    ensures ZeroReceive(s, j).peers[i].down == s.peers[i].down + if s.peers[i].gone then [] else [Stop]
  {
    assert s.peers[j].up[0] != KDone;
    hide ZeroReceive, Inv, Considered, StopIfReady;
    ZeroReceiveIs(s, j);
    ConsideredFrame(s, j, i);
    StopFrame(Considered(s, j), i);
  }

  /** An event that broadcasts SHUTDOWN sends it to every peer that kernel 0 has a record of. */
  lemma {:induction false} BroadcastReachesAll(s0: System, es: seq<Event>, e: Event, i: nat)
    requires Initial(s0) && Possible(s0, es) && Enabled(After(s0, es), e) && i < |After(s0, es).peers|
    requires Next(After(s0, es), e).broadcasts > After(s0, es).broadcasts
    ensures var s, s' := After(s0, es), Next(After(s0, es), e);
            && |s'.peers| == |s.peers|
            && s'.peers[i].down == s.peers[i].down + if s.peers[i].gone then [] else [Stop]
  {
    hide After, Possible, ZeroReceive;
    InitialInv(s0);
    AfterInv(s0, es);
    assert e.ToZero?;
    ReceiveStops(After(s0, es), e.i, i);
  }

  /**
   A peer has been told to stop exactly when SHUTDOWN was broadcast. It has stopped exactly
   when that has reached it and it has emptied, and then its last message says so.
   */
  lemma {:induction false} StoppedIff(s0: System, es: seq<Event>, i: nat)
    requires Initial(s0) && Possible(s0, es) && i < |After(s0, es).peers|
    ensures var s, p := After(s0, es), After(s0, es).peers[i];
            && (p.issued || Stop in p.down <==> s.broadcasts > 0)
            && (p.stopped <==> p.issued && p.idle && !p.daemons && !p.waiting)
            && (p.stopped && !p.gone ==> p.up != [] && p.up[|p.up| - 1] == KDone)
  {
    hide After, Possible;
    InitialInv(s0);
    AfterInv(s0, es);
    PeerOf(After(s0, es), i);
  }

  /** After a broadcast, when all peers have emptied and all messages are taken, kernel 0 has terminated. */
  lemma {:induction false} EndsWhenStill(s0: System, es: seq<Event>)
    requires Initial(s0) && Possible(s0, es)
    requires var s := After(s0, es);
             && s.broadcasts > 0 && Still(s)
             && forall i :: 0 <= i < |s.peers| ==> s.peers[i].idle && !s.peers[i].daemons && !s.peers[i].waiting
    ensures var s := After(s0, es);
            s.terminated && forall i :: 0 <= i < |s.peers| ==> s.peers[i].stopped && s.peers[i].gone
  {
    hide After, Possible;
    InitialInv(s0);
    AfterInv(s0, es);
    var s := After(s0, es);
    forall i | 0 <= i < |s.peers| ensures s.peers[i].stopped && s.peers[i].gone {
      PeerOf(s, i);
      GoneIff(s, i);
    }
  }

  /** A peer stops only after SHUTDOWN was broadcast, and then every kernel is idle. */
  lemma {:induction false} StopsOnlyWhenIdle(s0: System, es: seq<Event>, i: nat)
    requires Initial(s0) && Possible(s0, es) && i < |After(s0, es).peers| && After(s0, es).peers[i].stopped
    ensures var s := After(s0, es);
            && s.broadcasts > 0 && s.idle
            && forall j :: 0 <= j < |s.peers| ==> Heard(s.peers[j]) && Announced(s.peers[j]) && s.peers[j].idle
  {
    InitialInv(s0);
    AfterInv(s0, es);
    var s := After(s0, es);
    assert PeerInv(s.peers[i]) && Told(s.peers[i]);
    NothingOpen(s);
  }

  /**
   A message makes kernel 0 terminate only when every peer has stopped; and when every peer
   has stopped and been heard, kernel 0 has terminated.
   */
  lemma {:induction false} ZeroStopsLast(s0: System, es: seq<Event>, i: nat)
    requires Initial(s0) && Possible(s0, es) && i < |After(s0, es).peers| && |After(s0, es).peers[i].up| > 0
    requires !After(s0, es).terminated
    ensures var s := Next(After(s0, es), ToZero(i));
            s.terminated <==> forall j :: 0 <= j < |s.peers| ==> s.peers[j].stopped && s.peers[j].up == []
  {
    hide After;
    InitialInv(s0);
    AfterInv(s0, es);
    var s := Next(After(s0, es), ToZero(i));
    ZeroReceiveInv(After(s0, es), i);
    TerminatesOnDone(After(s0, es), i);
    hide ZeroReceive;
    forall j | 0 <= j < |s.peers| ensures s.peers[j].gone <==> s.peers[j].stopped && s.peers[j].up == [] {
      GoneIff(s, j);
    }
  }

  lemma TerminatesOnDone(s: System, i: nat)
    requires Inv(s) && i < |s.peers| && |s.peers[i].up| > 0 && !s.terminated
    ensures var s' := ZeroReceive(s, i); |s'.peers| == |s.peers| && (s'.terminated ==> AllGone(s'.peers))
  {
  }

  lemma GoneIff(s: System, j: nat)
    requires Inv(s) && j < |s.peers|
    ensures s.peers[j].gone <==> s.peers[j].stopped && s.peers[j].up == []
  {
    assert PeerInv(s.peers[j]);
    if s.peers[j].stopped {
      assert Told(s.peers[j]);
    }
  }

  /** A peer without a record sends nothing any more, so no request comes late. */
  lemma {:induction false} NeverLate(s0: System, es: seq<Event>, i: nat)
    requires Initial(s0) && Possible(s0, es) && i < |After(s0, es).peers| && After(s0, es).peers[i].gone
    ensures After(s0, es).peers[i].up == []
  {
    InitialInv(s0);
    AfterInv(s0, es);
    assert PeerInv(After(s0, es).peers[i]);
  }

  /** After SHUTDOWN was broadcast, every further request or reply broadcasts it once more. */
  lemma {:induction false} BroadcastAgainIff(s0: System, es: seq<Event>, i: nat)
    requires Initial(s0) && Possible(s0, es) && i < |After(s0, es).peers| && |After(s0, es).peers[i].up| > 0
    requires After(s0, es).broadcasts > 0
    ensures var s := After(s0, es);
            Next(s, ToZero(i)).broadcasts == s.broadcasts + if s.peers[i].up[0] == KDone then 0 else 1
  {
    hide After, Possible;
    InitialInv(s0);
    AfterInv(s0, es);
    var s := After(s0, es);
    PeerOf(s, i);
    HeadUpInv(s.peers[i]);
    CountOpenZero(s.peers, i);
    hide PeerInv, HeadUp, StopAll, AskAll;
  }

  // ------------------------------------------------- why the channels must keep their order

  const BUSY: System := System(-1, false, false, 0, [NewPeer(false, false, false), NewPeer(false, false, false)])

  /** Kernel 0 gets idle and asks; peer 0 volunteers before the question reaches it, and replies. */
  const CROSSING: seq<Event> := [ExitZero(true), ExitPeer(0, true, true), ToPeer(0)]

  lemma CrossingRun()
    ensures Initial(BUSY) && Possible(BUSY, CROSSING)
    ensures var s := After(BUSY, CROSSING);
            && s.closing == 2 && s.idle && s.broadcasts == 0 && |s.peers| == 2
            && s.peers[0].up == [KRequest, KReply] && s.peers[0].mark == Inflight && !s.peers[0].gone
            && s.peers[1].mark == Inflight && !s.peers[1].idle && !s.peers[1].gone
  {
    var s1 := Next(BUSY, CROSSING[0]);
    var p := NewPeer(false, false, false);
    assert [p, p][..1] == [p];
    assert CountUnasked([p]) == 1;
    assert s1.closing == 2;
    var s2 := Next(s1, CROSSING[1]);
    var s3 := Next(s2, CROSSING[2]);
    assert CROSSING[1..][0] == CROSSING[1] && CROSSING[1..][1..][0] == CROSSING[2];
    assert CROSSING[1..][1..][1..] == [];
    assert After(s3, []) == s3;
    assert After(s2, CROSSING[1..][1..]) == s3;
    assert After(s1, CROSSING[1..]) == s3;
  }

  /**
   In this run, if the reply of peer 0 overtook its request, kernel 0 would count the peer
   off twice and tell peer 1 to stop, which is still busy.
   */
  lemma OrderMatters()
    ensures Initial(BUSY) && Possible(BUSY, CROSSING)
    ensures var s := After(BUSY, CROSSING);
            && |s.peers| == 2 && s.peers[0].up == [KRequest, KReply]
            && var swapped := s.(peers := s.peers[0 := s.peers[0].(up := [KReply, KRequest])]);
               var s' := ZeroReceive(ZeroReceive(swapped, 0), 0);
               s'.broadcasts == 1 && Told(s'.peers[1]) && !s'.peers[1].idle
  {
    CrossingRun();
    hide After;
    var s := After(BUSY, CROSSING);
    var swapped := s.(peers := s.peers[0 := s.peers[0].(up := [KReply, KRequest])]);
    var s1 := ZeroReceive(swapped, 0);
    assert s1.closing == 1 && s1.peers[0].up == [KRequest] && s1.peers[1] == s.peers[1];
    var s2 := ZeroReceive(s1, 0);
    assert s2.peers[1].down == s.peers[1].down + [Stop];
  }
}

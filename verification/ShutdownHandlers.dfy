/** The shutdown handlers of kernel 0 as they update the counters, the peer records and the channels. */
module ShutdownHandlers {
  import opened Shutdown
  import opened ShutdownSafety

  /** Kernel 0's own fields, and its peers. */
  class Coordinator {
    var closing: int
    var idle: bool
    var terminated: bool
    var broadcasts: nat
    var peers: seq<Peer>

    ghost function Value(): System
      reads this
    {
      System(closing, idle, terminated, broadcasts, peers)
    }

    constructor (idle: bool, peers: seq<Peer>)
      requires forall i :: 0 <= i < |peers| ==> Fresh(peers[i])
      ensures Initial(Value()) && this.idle == idle && this.peers == peers
    {
      closing, terminated, broadcasts := -1, false, 0;
      this.idle, this.peers := idle, peers;
    }

    /** Coordinator::broadcastShutdownRequest. */
    method BroadcastShutdownRequest() returns (requests: nat)
      modifies this`peers
      ensures peers == AskAll(old(peers)) && requests == CountUnasked(old(peers))
    {
      requests := 0;
      for i := 0 to |peers|
        invariant |peers| == |old(peers)|
        invariant forall j :: 0 <= j < i ==> peers[j] == AskPeer(old(peers)[j])
        invariant forall j :: i <= j < |peers| ==> peers[j] == old(peers)[j]
        invariant requests == CountUnasked(old(peers)[..i])
      {
        assert old(peers)[..i + 1][..i] == old(peers)[..i];
        var p := peers[i];
        if p.mark == Unasked {
          peers := peers[i := p.(mark := Inflight, down := p.down + [Ask], asked := p.asked + 1)];
          requests := requests + 1;
        }
      }
      assert old(peers)[..|peers|] == old(peers);
    }

    /** Coordinator::broadcastShutdown. */
    method BroadcastShutdown()
      modifies this`peers, this`broadcasts
      ensures peers == StopAll(old(peers)) && broadcasts == old(broadcasts) + 1
    {
      for i := 0 to |peers|
        invariant |peers| == |old(peers)| && broadcasts == old(broadcasts)
        invariant forall j :: 0 <= j < i ==> peers[j] == StopPeer(old(peers)[j])
        invariant forall j :: i <= j < |peers| ==> peers[j] == old(peers)[j]
      {
        if !peers[i].gone {
          peers := peers[i := peers[i].(down := peers[i].down + [Stop])];
        }
      }
      broadcasts := broadcasts + 1;
    }

    /** KernelcallHandler::requestShutdown and ::shutdown on kernel 0, for the next message of peer `i`. */
    method RequestShutdown(i: nat)
      requires Inv(Value()) && i < |peers| && |peers[i].up| > 0
      modifies this
      ensures Value() == ZeroReceive(old(Value()), i) && Inv(Value())
    {
      hide Inv, AskAll, StopAll, CountUnasked, HeadUp, AllGone;
      ZeroReceiveInv(Value(), i);
      var p := peers[i];
      var stage := p.up[0];
      if stage != KDone && p.gone {
        peers := peers[i := p.(up := p.up[1..])];
        return;
      }
      peers := peers[i := HeadUp(p)];
      if stage == KDone {
        if AllGone(peers) {
          terminated := true;
        }
        return;
      }
      if (stage == KRequest && p.mark == Inflight) || (stage == KReply && p.mark != Ready) {
        closing := closing - 1;
      }
      if stage == KRequest && closing < 0 && idle {
        closing := BroadcastShutdownRequest();
      }
      if closing == 0 && idle {
        BroadcastShutdown();
      }
    }

    /** SyscallHandler::tryTerminate on kernel 0, after the exit of a VPE. */
    method ExitOnZero(lastOne: bool)
      requires Inv(Value()) && !idle
      modifies this
      ensures Value() == ZeroExit(old(Value()), lastOne) && Inv(Value())
    {
      NextInv(Value(), ExitZero(lastOne));
      if lastOne {
        idle := true;
        closing := BroadcastShutdownRequest();
        if closing == 0 {
          terminated := true;
        }
      }
    }
  }
}

/** The handlers of one kernel in the connect handshake. */
module HandshakeHandlers {
  import opened Endpoints
  import opened Handshake

  /** The kernel after it has asked `peers` in turn; it stops when it has no slot left. */
  function AskingAll(l: Layout, k: Kernel, peers: seq<nat>): Kernel
    requires Proper(l)
  {
    if |peers| == 0 then k
    else
      var before := AskingAll(l, k, peers[..|peers| - 1]);
      if before.status == Running then Asking(l, before, peers[|peers| - 1]) else before
  }

  /** What it sends on the way, as long as it has slots. */
  function AskingMessages(l: Layout, k: Kernel, me: nat, peers: seq<nat>): seq<Message>
    requires Proper(l)
  {
    if |peers| == 0 then []
    else
      var before := peers[..|peers| - 1];
      var ep := NextEp(l, AskingAll(l, k, before));
      AskingMessages(l, k, me, before)
      + if AskingAll(l, k, before).status == Running && ep != -1 then [KRequest(me, peers[|peers| - 1], ep)] else []
  }

  /** The announcements of `peers` at kernel `me`, one after the other. */
  function Announcements(me: nat, peers: seq<nat>): seq<Step> {
    seq(|peers|, i requires 0 <= i < |peers| => Announce(me, peers[i]))
  }

  /** A kernel that has run out of slots has none. */
  lemma {:induction false} NoSlotLeft(l: Layout, k: Kernel, peers: seq<nat>)
    requires Proper(l) && k.status == Running && AskingAll(l, k, peers).status != Running
    ensures AskingAll(l, k, peers).status == OutOfSlots && NextEp(l, AskingAll(l, k, peers)) == -1
  {
    var before := AskingAll(l, k, peers[..|peers| - 1]);
    if before.status != Running {
      NoSlotLeft(l, k, peers[..|peers| - 1]);
    }
  }

  /** The message with which a kernel asks `peer`, if it has a slot. */
  function Ask(l: Layout, k: Kernel, me: nat, peer: nat): seq<Message>
    requires Proper(l)
  {
    if NextEp(l, k) == -1 then [] else [KRequest(me, peer, NextEp(l, k))]
  }

  lemma {:induction false} AskingNext(l: Layout, k: Kernel, me: nat, peers: seq<nat>)
    requires Proper(l) && k.status == Running && |peers| > 0
    ensures var before, last := AskingAll(l, k, peers[..|peers| - 1]), peers[|peers| - 1];
            && AskingAll(l, k, peers) == Asking(l, before, last)
            && AskingMessages(l, k, me, peers)
               == AskingMessages(l, k, me, peers[..|peers| - 1]) + Ask(l, before, me, last)
  {
    var before := AskingAll(l, k, peers[..|peers| - 1]);
    if before.status != Running {
      NoSlotLeft(l, k, peers[..|peers| - 1]);
    }
    hide NextEp, Reserve;
  }

  lemma AnnounceIs(s: System, me: nat, peer: nat)
    requires Proper(s.layout) && me < |s.kernels|
    ensures var s' := AfterAnnounce(s, me, peer);
            && s'.kernels == s.kernels[me := Asking(s.layout, s.kernels[me], peer)]
            && s'.net == s.net + multiset(Ask(s.layout, s.kernels[me], me, peer))
  {
    hide NextEp, Asking;
  }

  /** What one more announcement adds. */
  lemma {:induction false} AnnounceNext(s: System, s1: System, me: nat, peers: seq<nat>)
    requires Proper(s.layout) && me < |s.kernels| && s.kernels[me].status == Running && |peers| > 0
    requires var before := peers[..|peers| - 1];
             && s1.layout == s.layout && s1.kernels == s.kernels[me := AskingAll(s.layout, s.kernels[me], before)]
             && s1.net == s.net + multiset(AskingMessages(s.layout, s.kernels[me], me, before))
    ensures var s' := AfterAnnounce(s1, me, peers[|peers| - 1]);
            && s'.kernels == s.kernels[me := AskingAll(s.layout, s.kernels[me], peers)]
            && s'.net == s.net + multiset(AskingMessages(s.layout, s.kernels[me], me, peers))
  {
    hide AfterAnnounce, AskingAll, AskingMessages, Asking, Ask;
    AskingNext(s.layout, s.kernels[me], me, peers);
    AnnounceIs(s1, me, peers[|peers| - 1]);
  }

  /**
   The loop does to the kernel what the announcements do one by one, and its messages are
   the ones that they put on the net.
   */
  lemma {:induction false} LoopAnnounces(s: System, me: nat, peers: seq<nat>)
    requires Proper(s.layout) && me < |s.kernels| && s.kernels[me].status == Running
    ensures var s' := Run(s, Announcements(me, peers));
            && s'.kernels == s.kernels[me := AskingAll(s.layout, s.kernels[me], peers)]
            && s'.net == s.net + multiset(AskingMessages(s.layout, s.kernels[me], me, peers))
  {
    hide AfterAnnounce;
    var steps := Announcements(me, peers);
    if |peers| > 0 {
      var before := peers[..|peers| - 1];
      LoopAnnounces(s, me, before);
      assert steps[..|steps| - 1] == Announcements(me, before);
      hide AskingAll, AskingMessages;
      AnnounceNext(s, Run(s, Announcements(me, before)), me, peers);
    }
  }

  class Node {
    const me: nat
    const table: EndpointTable
    var requests: seq<Request>
    var links: map<nat, Link>
    var status: Status

    ghost predicate Ready()
      reads this, table, table.occ
    {
      table.Valid() && status == Running
    }

    ghost function Value(): Kernel
      reads this, table, table.occ
    {
      Kernel(table.occ[..], requests, links, status)
    }

    constructor (me: nat, layout: Layout)
      requires Proper(layout)
      ensures Ready() && this.me == me && table.layout == layout && fresh(table) && fresh(table.occ)
      ensures Value() == Kernel(Reserved(Room(layout), []), [], map[], Running)
    {
      this.me := me;
      table := new EndpointTable(layout);
      requests, links, status := [], map[], Running;
    }

    /** announceKrnls: ask every announced kernel for a connection. */
    method AnnounceKrnls(peers: seq<nat>) returns (messages: seq<Message>)
      requires Ready()
      modifies this, table.occ
      ensures Value() == AskingAll(table.layout, old(Value()), peers)
      ensures messages == AskingMessages(table.layout, old(Value()), me, peers)
    {
      messages := [];
      ghost var was := Value();
      for i := 0 to |peers|
        invariant Ready() && Value() == AskingAll(table.layout, was, peers[..i])
        invariant messages == AskingMessages(table.layout, was, me, peers[..i])
      {
        assert peers[..i + 1][..i] == peers[..i];
        var ep := table.ReserveEp(peers[i]);
        if ep == -1 {
          status := OutOfSlots;
          assert Value() == AskingAll(table.layout, was, peers[..i + 1]);
          assert messages == AskingMessages(table.layout, was, me, peers[..i + 1]);
          StopsThere(table.layout, was, me, peers, i + 1);
          return;
        }
        requests := requests + [Request(peers[i], ep)];
        messages := messages + [KRequest(me, peers[i], ep)];
      }
      assert peers[..|peers|] == peers;
    }

    /** connect with stage KREQUEST. */
    method ConnectRequest(peer: nat, ep: int) returns (reply: Message)
      requires Ready()
      modifies this, table.occ
      ensures Ready() && Value() == Asked(table.layout, old(Value()), peer, ep)
      ensures reply == KReply(me, peer, NextEp(table.layout, old(Value())))
    {
      var local := table.ReserveEp(peer);
      if local == -1 {
        requests := requests + [Request(peer, -1)];
      } else {
        links := links[peer := Link(local, ep)];
      }
      reply := KReply(me, peer, local);
    }

    /** connect with stage KREPLY. */
    method ConnectReply(peer: nat, ep: int)
      requires Ready()
      modifies this
      ensures Value() == Answered(old(Value()), peer, ep)
    {
      if ep != -1 {
        var local := -1;
        var rest := [];
        for i := 0 to |requests|
          invariant Value() == old(Value())
          invariant local == LastEp(requests[..i], peer) && rest == WithoutKid(requests[..i], peer)
        {
          assert requests[..i + 1][..i] == requests[..i];
          if requests[i].kid == peer {
            local := requests[i].ep;
          } else {
            rest := rest + [requests[i]];
          }
        }
        assert requests[..|requests|] == requests;
        requests := rest;
        if local == -1 {
          status := Unexpected;
        } else {
          links := links[peer := Link(local, ep)];
        }
      }
    }
  }

  lemma {:induction false} StopsThere(l: Layout, k: Kernel, me: nat, peers: seq<nat>, i: nat)
    requires Proper(l) && i <= |peers| && AskingAll(l, k, peers[..i]).status != Running
    ensures AskingAll(l, k, peers) == AskingAll(l, k, peers[..i])
    ensures AskingMessages(l, k, me, peers) == AskingMessages(l, k, me, peers[..i])
  {
    if i == |peers| {
      assert peers[..i] == peers;
    } else {
      var before := peers[..|peers| - 1];
      assert before[..i] == peers[..i];
      StopsThere(l, k, me, before, i);
    }
  }
}

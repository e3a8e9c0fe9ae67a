/** What every run of connect handshakes keeps. */
module HandshakeSafety {
  import opened Endpoints
  import opened Handshake

  // ------------------------------------------- a kernel's view of other peers

  /** Two states of a kernel agree on everything that concerns `peer`. */
  ghost predicate Alike(l: Layout, a: Kernel, b: Kernel, peer: nat)
    requires Proper(l)
  {
    && EpFor(l, a.occ, peer) == EpFor(l, b.occ, peer)
    && (peer in a.occ <==> peer in b.occ)
    && LastEp(a.requests, peer) == LastEp(b.requests, peer)
    && (peer in a.links <==> peer in b.links)
    && (peer in a.links ==> a.links[peer] == b.links[peer])
  }

  lemma {:induction false} ReserveOther(occ: seq<int>, id: nat, other: nat)
    requires other != id
    ensures |Reserve(occ, id)| == |occ|
    ensures IndexOf(Reserve(occ, id), other) == IndexOf(occ, other)
    ensures other in Reserve(occ, id) <==> other in occ
  {
    var i := IndexOf(occ, FREE);
    if i < |occ| {
      var p := IndexOf(occ, other);
      IndexIs(occ[i := id], other, p);
      Contains(occ, other);
      Contains(occ[i := id], other);
    }
  }

  lemma {:induction false} Contains(occ: seq<int>, id: int)
    ensures id in occ <==> IndexOf(occ, id) < |occ|
  {
  }

  lemma ReserveNew(l: Layout, occ: seq<int>, id: nat)
    requires Proper(l) && id !in occ && EpFor(l, occ, FREE) != -1
    ensures EpFor(l, Reserve(occ, id), id) == EpFor(l, occ, FREE)
  {
    var i := IndexOf(occ, FREE);
    IndexIs(occ[i := id], id, i);
  }

  lemma {:induction false} AppendLast(requests: seq<Request>, r: Request, kid: nat)
    ensures LastEp(requests + [r], kid) == if r.kid == kid then r.ep else LastEp(requests, kid)
  {
    assert (requests + [r])[..|requests|] == requests;
  }

  lemma {:induction false} WithoutLast(requests: seq<Request>, kid: nat, other: nat)
    requires kid != other
    ensures LastEp(WithoutKid(requests, kid), other) == LastEp(requests, other)
  {
    if |requests| > 0 {
      var before, r := requests[..|requests| - 1], requests[|requests| - 1];
      WithoutLast(before, kid, other);
      if r.kid != kid {
        AppendLast(WithoutKid(before, kid), r, other);
      } else {
        assert WithoutKid(requests, kid) == WithoutKid(before, kid);
      }
    }
  }

  lemma AskingAlike(l: Layout, k: Kernel, peer: nat, other: nat)
    requires Proper(l) && peer != other
    ensures Alike(l, k, Asking(l, k, peer), other)
  {
    ReserveOther(k.occ, peer, other);
    AppendLast(k.requests, Request(peer, NextEp(l, k)), other);
  }

  lemma AskedAlike(l: Layout, k: Kernel, peer: nat, ep: int, other: nat)
    requires Proper(l) && peer != other
    ensures Alike(l, k, Asked(l, k, peer, ep), other)
  {
    ReserveOther(k.occ, peer, other);
    AppendLast(k.requests, Request(peer, -1), other);
  }

  lemma AnsweredAlike(l: Layout, k: Kernel, peer: nat, ep: int, other: nat)
    requires Proper(l) && peer != other
    ensures Alike(l, k, Answered(k, peer, ep), other)
  {
    WithoutLast(k.requests, peer, other);
  }

  // ----------------------------------------------------------- other handshakes

  /** The two networks agree on the messages of the handshake that `k` began with `j`. */
  ghost predicate SameNet(a: multiset<Message>, b: multiset<Message>, k: nat, j: nat) {
    forall e :: a[KRequest(k, j, e)] == b[KRequest(k, j, e)] && a[KReply(j, k, e)] == b[KReply(j, k, e)]
  }

  lemma QuietSame(a: multiset<Message>, b: multiset<Message>, k: nat, j: nat)
    requires SameNet(a, b, k, j) && Quiet(a, k, j)
    ensures Quiet(b, k, j)
  {
    forall e ensures KRequest(k, j, e) !in b && KReply(j, k, e) !in b {
      assert KRequest(k, j, e) !in a && KReply(j, k, e) !in a;
      assert a[KRequest(k, j, e)] == b[KRequest(k, j, e)] && a[KReply(j, k, e)] == b[KReply(j, k, e)];
    }
  }

  lemma OnlySame(a: multiset<Message>, b: multiset<Message>, k: nat, j: nat, m: Message)
    requires SameNet(a, b, k, j) && Only(a, k, j, m)
    requires (m.KRequest? && m.src == k && m.dst == j) || (m.KReply? && m.src == j && m.dst == k)
    ensures Only(b, k, j, m)
  {
    var a', b' := a - multiset{m}, b - multiset{m};
    assert a[m] == b[m] by {
      assert a[KRequest(k, j, m.ep)] == b[KRequest(k, j, m.ep)] && a[KReply(j, k, m.ep)] == b[KReply(j, k, m.ep)];
    }
    forall e ensures a'[KRequest(k, j, e)] == b'[KRequest(k, j, e)] && a'[KReply(j, k, e)] == b'[KReply(j, k, e)] {
      assert a[KRequest(k, j, e)] == b[KRequest(k, j, e)] && a[KReply(j, k, e)] == b[KReply(j, k, e)];
    }
    QuietSame(a', b', k, j);
  }

  /** A handshake that nothing touches stays as it is. */
  lemma PairFrame(s: System, s': System, k: nat, j: nat)
    requires Proper(s.layout) && s'.layout == s.layout && |s'.kernels| == |s.kernels| && Pair(s, k, j)
    requires Alike(s.layout, s.kernels[k], s'.kernels[k], j) && Alike(s.layout, s.kernels[j], s'.kernels[j], k)
    requires SameNet(s.net, s'.net, k, j)
    ensures Pair(s', k, j)
  {
    var kk, jj := s.kernels[k], s.kernels[j];
    var ek, ej := EpFor(s.layout, kk.occ, j), EpFor(s.layout, jj.occ, k);
    hide EpFor, LastEp, Only, Quiet, SameNet;
    if Only(s.net, k, j, KRequest(k, j, ek)) {
      OnlySame(s.net, s'.net, k, j, KRequest(k, j, ek));
    }
    if Only(s.net, k, j, KReply(j, k, ej)) {
      OnlySame(s.net, s'.net, k, j, KReply(j, k, ej));
    }
    if Only(s.net, k, j, KReply(j, k, -1)) {
      OnlySame(s.net, s'.net, k, j, KReply(j, k, -1));
    }
    if Quiet(s.net, k, j) {
      QuietSame(s.net, s'.net, k, j);
    }
  }

  /** Only kernel `c` changed, and only in what concerns `peer`; only their messages changed. */
  ghost predicate Touches(s: System, s': System, c: nat, peer: nat)
    requires Proper(s.layout)
  {
    && s'.layout == s.layout && |s'.kernels| == |s.kernels| && c < |s.kernels|
    && (forall i :: 0 <= i < |s.kernels| && i != c ==> s'.kernels[i] == s.kernels[i])
    && (forall other: nat :: other != peer ==> Alike(s.layout, s.kernels[c], s'.kernels[c], other))
    && (forall k: nat, j: nat :: !(k == c && j == peer) && !(k == peer && j == c) ==> SameNet(s.net, s'.net, k, j))
  }

  lemma OthersKept(s: System, s': System, c: nat, peer: nat, k: nat, j: nat)
    requires Proper(s.layout) && Touches(s, s', c, peer) && Pair(s, k, j)
    requires !(k == c && j == peer) && !(k == peer && j == c)
    ensures Pair(s', k, j)
  {
    assert Alike(s.layout, s.kernels[k], s'.kernels[k], j);
    assert Alike(s.layout, s.kernels[j], s'.kernels[j], k);
    PairFrame(s, s', k, j);
  }

  // ------------------------------------------------------------------ announce

  lemma AnnounceTouches(s: System, k: nat, j: nat)
    requires Proper(s.layout) && k < |s.kernels|
    ensures Touches(s, AfterAnnounce(s, k, j), k, j)
  {
    forall other: nat | other != j
      ensures Alike(s.layout, s.kernels[k], AfterAnnounce(s, k, j).kernels[k], other)
    {
      AskingAlike(s.layout, s.kernels[k], j, other);
    }
  }

  lemma AnnouncePair(s: System, k: nat, j: nat)
    requires Inv(s) && k < |s.kernels| && j < |s.kernels| && Strangers(s, k, j)
    requires NextEp(s.layout, s.kernels[k]) != -1
    ensures Pair(AfterAnnounce(s, k, j), k, j)
  {
    var s' := AfterAnnounce(s, k, j);
    var ep := NextEp(s.layout, s.kernels[k]);
    ReserveNew(s.layout, s.kernels[k].occ, j);
    AppendLast(s.kernels[k].requests, Request(j, ep), j);
    hide EpFor, LastEp, Reserve;
    assert Only(s'.net, k, j, KRequest(k, j, ep)) by {
      assert s'.net - multiset{KRequest(k, j, ep)} == s.net;
      forall e ensures KRequest(k, j, e) !in s.net && KReply(j, k, e) !in s.net {
        assert KRequest(k, j, e) in s.net ==> Known(s, KRequest(k, j, e));
        assert KReply(j, k, e) in s.net ==> Known(s, KReply(j, k, e));
      }
    }
  }

  lemma AnnounceInv(s: System, k: nat, j: nat)
    requires Inv(s) && k < |s.kernels| && j < |s.kernels| && Strangers(s, k, j)
    ensures Inv(AfterAnnounce(s, k, j))
  {
    var s' := AfterAnnounce(s, k, j);
    AnnounceTouches(s, k, j);
    if NextEp(s.layout, s.kernels[k]) != -1 {
      AnnouncePair(s, k, j);
    }
    hide Pair, Touches, NextEp, Asking;
    assert (j, k) !in s'.shaken;
    forall a, b | (a, b) in s'.shaken ensures Pair(s', a, b) && (b, a) !in s'.shaken {
      if (a, b) != (k, j) {
        assert Pair(s, a, b);
        OthersKept(s, s', k, j, a, b);
      }
    }
    forall m | m in s'.net ensures Known(s', m) {
      assert m in s.net ==> Known(s, m);
    }
  }

  // ------------------------------------------------------------------- request

  lemma RequestTouches(s: System, m: Message)
    requires Proper(s.layout) && m.KRequest? && m in s.net && m.dst < |s.kernels|
    ensures Touches(s, AfterRequest(s, m), m.dst, m.src)
  {
    forall other: nat | other != m.src
      ensures Alike(s.layout, s.kernels[m.dst], AfterRequest(s, m).kernels[m.dst], other)
    {
      AskedAlike(s.layout, s.kernels[m.dst], m.src, m.ep, other);
    }
  }

  /** A message of the pair tells which stage the handshake is in. */
  lemma {:induction false} Stage(s: System, k: nat, j: nat, m: Message)
    requires Proper(s.layout) && Pair(s, k, j) && m in s.net
    requires (m.KRequest? && m.src == k && m.dst == j) || (m.KReply? && m.src == j && m.dst == k)
    ensures var ek, ej := EpFor(s.layout, s.kernels[k].occ, j), EpFor(s.layout, s.kernels[j].occ, k);
            && Only(s.net, k, j, m)
            && (m.KRequest? ==> m.ep == ek && LastEp(s.kernels[k].requests, j) == ek
                                && j !in s.kernels[k].links && k !in s.kernels[j].links && k !in s.kernels[j].occ)
            && (m.KReply? && m.ep == -1 ==> j !in s.kernels[k].links && k !in s.kernels[j].links)
            && (m.KReply? && m.ep != -1 ==>
                  && m.ep == ej && LastEp(s.kernels[k].requests, j) == ek && j !in s.kernels[k].links
                  && k in s.kernels[j].links && s.kernels[j].links[k] == Link(ej, ek))
  {
    var ek, ej := EpFor(s.layout, s.kernels[k].occ, j), EpFor(s.layout, s.kernels[j].occ, k);
    hide EpFor, LastEp;
    assert !Quiet(s.net, k, j) by {
      assert m == if m.KRequest? then KRequest(k, j, m.ep) else KReply(j, k, m.ep);
    }
    OnlyOne(s.net, k, j, KRequest(k, j, ek), m);
    OnlyOne(s.net, k, j, KReply(j, k, ej), m);
    OnlyOne(s.net, k, j, KReply(j, k, -1), m);
  }

  lemma OnlyOne(net: multiset<Message>, k: nat, j: nat, m: Message, m': Message)
    requires m' in net
    requires (m'.KRequest? && m'.src == k && m'.dst == j) || (m'.KReply? && m'.src == j && m'.dst == k)
    ensures Only(net, k, j, m) ==> m == m'
  {
    assert m' == KRequest(k, j, m'.ep) || m' == KReply(j, k, m'.ep);
  }

  lemma RequestPair(s: System, m: Message)
    requires Inv(s) && m.KRequest? && m in s.net && m.dst < |s.kernels| && Pair(s, m.src, m.dst)
    ensures Pair(AfterRequest(s, m), m.src, m.dst)
  {
    var k, j := m.src, m.dst;
    Stage(s, k, j, m);
    var s' := AfterRequest(s, m);
    var ej := NextEp(s.layout, s.kernels[j]);
    if ej != -1 {
      ReserveNew(s.layout, s.kernels[j].occ, k);
    }
    hide EpFor, LastEp, Reserve;
    assert Only(s'.net, k, j, KReply(j, k, ej)) by {
      assert s'.net - multiset{KReply(j, k, ej)} == s.net - multiset{m};
    }
  }

  lemma RequestInv(s: System, m: Message)
    requires Inv(s) && m.KRequest? && m in s.net && m.dst < |s.kernels|
    ensures Inv(AfterRequest(s, m))
  {
    var s' := AfterRequest(s, m);
    assert Known(s, m);
    RequestTouches(s, m);
    assert Pair(s, m.src, m.dst);
    RequestPair(s, m);
    hide Pair, Touches, NextEp;
    forall a, b | (a, b) in s'.shaken ensures Pair(s', a, b) && (b, a) !in s'.shaken {
      assert Pair(s, a, b);
      if (a, b) != (m.src, m.dst) {
        OthersKept(s, s', m.dst, m.src, a, b);
      }
    }
    forall x | x in s'.net ensures Known(s', x) {
      assert x in s.net ==> Known(s, x);
    }
  }

  // --------------------------------------------------------------------- reply

  lemma ReplyTouches(s: System, m: Message)
    requires Proper(s.layout) && m.KReply? && m in s.net && m.dst < |s.kernels|
    ensures Touches(s, AfterReply(s, m), m.dst, m.src)
  {
    forall other: nat | other != m.src
      ensures Alike(s.layout, s.kernels[m.dst], AfterReply(s, m).kernels[m.dst], other)
    {
      AnsweredAlike(s.layout, s.kernels[m.dst], m.src, m.ep, other);
    }
  }

  /** An answer is always expected, and completes or closes the handshake. */
  lemma ReplyPair(s: System, m: Message)
    requires Inv(s) && m.KReply? && m in s.net && m.dst < |s.kernels| && Pair(s, m.dst, m.src)
    ensures Pair(AfterReply(s, m), m.dst, m.src)
    ensures AfterReply(s, m).kernels[m.dst].status == s.kernels[m.dst].status
  {
    var k, j := m.dst, m.src;
    Stage(s, k, j, m);
    var s' := AfterReply(s, m);
    hide EpFor, LastEp, WithoutKid;
    assert Quiet(s'.net, k, j);
  }

  lemma ReplyInv(s: System, m: Message)
    requires Inv(s) && m.KReply? && m in s.net && m.dst < |s.kernels|
    ensures Inv(AfterReply(s, m))
  {
    var s' := AfterReply(s, m);
    assert Known(s, m);
    ReplyTouches(s, m);
    assert Pair(s, m.dst, m.src);
    ReplyPair(s, m);
    hide Pair, Touches, Answered;
    forall a, b | (a, b) in s'.shaken ensures Pair(s', a, b) && (b, a) !in s'.shaken {
      assert Pair(s, a, b);
      if (a, b) != (m.dst, m.src) {
        OthersKept(s, s', m.dst, m.src, a, b);
      }
    }
    forall x | x in s'.net ensures Known(s', x) {
      assert x in s.net ==> Known(s, x);
    }
  }

  // -------------------------------------------------------------- one handshake

  lemma {:induction false} OthersRemain(requests: seq<Request>, kid: nat)
    ensures forall r :: r in WithoutKid(requests, kid) <==> r in requests && r.kid != kid
  {
    if |requests| > 0 {
      var before := requests[..|requests| - 1];
      OthersRemain(before, kid);
      assert requests == before + [requests[|requests| - 1]];
    }
  }

  /**
   What a handshake that nothing interferes with comes to. If both kernels have a free
   entry, each lists the other with the endpoints of these entries, and the request is
   forgotten; if the one that is asked has none, neither does, and both remember the
   request. No message is left.
   */
  lemma HandshakeConnects(s: System, k: nat, j: nat)
    requires Proper(s.layout) && k < |s.kernels| && j < |s.kernels| && k != j && FREE in s.kernels[k].occ
    ensures var kk, jj := s.kernels[k], s.kernels[j];
            var ek, ej := EpFor(s.layout, kk.occ, FREE), EpFor(s.layout, jj.occ, FREE);
            var s' := Next(Next(Next(s, Announce(k, j)), Deliver(KRequest(k, j, ek))), Deliver(KReply(j, k, ej)));
            && ek != -1 && s'.net == s.net && (ej != -1 <==> FREE in jj.occ)
            && s'.kernels[k].links == (if FREE in jj.occ then kk.links[j := Link(ek, ej)] else kk.links)
            && s'.kernels[j].links == (if FREE in jj.occ then jj.links[k := Link(ej, ek)] else jj.links)
            && s'.kernels[j].requests == jj.requests + (if FREE in jj.occ then [] else [Request(k, -1)])
            && (FREE in jj.occ ==>
                  forall r :: r in s'.kernels[k].requests <==> r in kk.requests && r.kid != j)
            && (FREE !in jj.occ ==> s'.kernels[k].requests == kk.requests + [Request(j, ek)])
  {
    var kk, jj := s.kernels[k], s.kernels[j];
    var ek, ej := EpFor(s.layout, kk.occ, FREE), EpFor(s.layout, jj.occ, FREE);
    Contains(kk.occ, FREE);
    Contains(jj.occ, FREE);
    var s1 := Next(s, Announce(k, j));
    AppendLast(kk.requests, Request(j, ek), j);
    assert s1.kernels[j] == jj && LastEp(s1.kernels[k].requests, j) == ek;
    assert s1.net == s.net + multiset{KRequest(k, j, ek)};
    var s2 := Next(s1, Deliver(KRequest(k, j, ek)));
    assert s2.kernels[k] == s1.kernels[k] && s2.net == s.net + multiset{KReply(j, k, ej)};
    assert jj.requests + [] == jj.requests;
    OthersRemain(kk.requests + [Request(j, ek)], j);
    hide EpFor, Reserve, LastEp, WithoutKid;
  }

  /** Without a free entry the kernel that is to ask stops, and sends nothing. */
  lemma NoSlotToAsk(s: System, k: nat, j: nat)
    requires Proper(s.layout) && k < |s.kernels| && FREE !in s.kernels[k].occ
    ensures Next(s, Announce(k, j)) == s.(kernels := s.kernels[k := s.kernels[k].(status := OutOfSlots)])
  {
    Contains(s.kernels[k].occ, FREE);
  }

  // ---------------------------------------------------------------- whole runs

  lemma {:induction false} RunInv(s: System, steps: seq<Step>)
    requires Initial(s) && EnabledRun(s, steps)
    ensures Inv(Run(s, steps))
  {
    if |steps| > 0 {
      RunInv(s, steps[..|steps| - 1]);
      var before := Run(s, steps[..|steps| - 1]);
      hide Inv, AfterAnnounce, AfterRequest, AfterReply, Strangers;
      match steps[|steps| - 1] {
        case Announce(k, j) => AnnounceInv(before, k, j);
        case Deliver(m) => if m.KRequest? { RequestInv(before, m); } else { ReplyInv(before, m); }
      }
    }
  }

  /**
   After every run, for every pair with a handshake: when both kernels list each other, the
   local endpoint of each is the remote endpoint of the other and the one ep_for returns;
   and the kernel that began never lists a peer that does not list it. When no message of
   the pair is on its way, either both list each other or neither does.
   */
  lemma {:induction false} EndpointsMatch(s: System, steps: seq<Step>, k: nat, j: nat)
    requires Initial(s) && EnabledRun(s, steps) && (k, j) in Run(s, steps).shaken
    ensures var s' := Run(s, steps);
            && k < |s'.kernels| && j < |s'.kernels|
            && var kk, jj := s'.kernels[k], s'.kernels[j];
            && (j in kk.links ==>
                  && k in jj.links
                  && kk.links[j].local == jj.links[k].remote == EpFor(s'.layout, kk.occ, j)
                  && jj.links[k].local == kk.links[j].remote == EpFor(s'.layout, jj.occ, k))
            && (Quiet(s'.net, k, j) ==> (j in kk.links <==> k in jj.links))
  {
    RunInv(s, steps);
    var s' := Run(s, steps);
    assert Pair(s', k, j);
    var ek, ej := EpFor(s'.layout, s'.kernels[k].occ, j), EpFor(s'.layout, s'.kernels[j].occ, k);
    hide Run, EpFor;
    if Quiet(s'.net, k, j) {
      assert KRequest(k, j, ek) !in s'.net && KReply(j, k, ej) !in s'.net && KReply(j, k, -1) !in s'.net;
    }
  }

  /** No answer is ever unexpected. */
  lemma {:induction false} NeverUnexpected(s: System, steps: seq<Step>, k: nat)
    requires Initial(s) && EnabledRun(s, steps) && k < |s.kernels|
    ensures Run(s, steps).kernels[k].status != Unexpected
  {
    RunInv(s, steps);
  }
}

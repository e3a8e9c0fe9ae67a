/**
 The connect handshake: a kernel reserves an endpoint for a peer and tells the peer, which
 reserves one in turn and answers. Messages arrive in any order.
 */
module Handshake {
  import opened Endpoints

  /** A peer as the coordinator lists it. */
  datatype Link = Link(local: int, remote: int)

  datatype Request = Request(kid: nat, ep: int)

  datatype Status = Running | OutOfSlots | Unexpected

  datatype Kernel = Kernel(occ: seq<int>, requests: seq<Request>, links: map<nat, Link>, status: Status)

  datatype Message = KRequest(src: nat, dst: nat, ep: int) | KReply(src: nat, dst: nat, ep: int)

  /** All kernels, the messages on their way, and the pairs that have begun a handshake. */
  datatype System = System(layout: Layout, kernels: seq<Kernel>, net: multiset<Message>, shaken: set<(nat, nat)>)

  // ---------------------------------------------------------------- one kernel

  /** The endpoint of the last request for `kid`, or -1. */
  function LastEp(requests: seq<Request>, kid: nat): int {
    if |requests| == 0 then -1
    else if requests[|requests| - 1].kid == kid then requests[|requests| - 1].ep
    else LastEp(requests[..|requests| - 1], kid)
  }

  function WithoutKid(requests: seq<Request>, kid: nat): seq<Request> {
    if |requests| == 0 then []
    else WithoutKid(requests[..|requests| - 1], kid)
         + if requests[|requests| - 1].kid == kid then [] else [requests[|requests| - 1]]
  }

  /** The endpoint a reservation would give, or -1. */
  function NextEp(l: Layout, k: Kernel): int
    requires Proper(l)
  {
    EpFor(l, k.occ, FREE)
  }

  /** The loop body of announceKrnls: reserve, remember and ask. */
  function Asking(l: Layout, k: Kernel, peer: nat): Kernel
    requires Proper(l)
  {
    if NextEp(l, k) == -1 then k.(status := OutOfSlots)
    else k.(occ := Reserve(k.occ, peer), requests := k.requests + [Request(peer, NextEp(l, k))])
  }

  /** connect, at the kernel that is asked; the answer carries NextEp. */
  function Asked(l: Layout, k: Kernel, peer: nat, ep: int): Kernel
    requires Proper(l)
  {
    if NextEp(l, k) == -1 then k.(requests := k.requests + [Request(peer, -1)])
    else k.(occ := Reserve(k.occ, peer), links := k.links[peer := Link(NextEp(l, k), ep)])
  }

  /** connect, at the kernel that asked. */
  function Answered(k: Kernel, peer: nat, ep: int): Kernel {
    if ep == -1 then k
    else
      var local := LastEp(k.requests, peer);
      var k' := k.(requests := WithoutKid(k.requests, peer));
      if local == -1 then k'.(status := Unexpected) else k'.(links := k.links[peer := Link(local, ep)])
  }

  // ---------------------------------------------------------------- all kernels

  datatype Step = Announce(k: nat, peer: nat) | Deliver(m: Message)

  /** The pair has no entry, no link and no handshake yet. */
  ghost predicate Strangers(s: System, k: nat, j: nat)
    requires k < |s.kernels| && j < |s.kernels|
  {
    && k != j && (k, j) !in s.shaken && (j, k) !in s.shaken
    && j !in s.kernels[k].occ && k !in s.kernels[j].occ
    && j !in s.kernels[k].links && k !in s.kernels[j].links
  }

  ghost predicate Enabled(s: System, step: Step) {
    match step
    case Announce(k, j) =>
      k < |s.kernels| && j < |s.kernels| && s.kernels[k].status == Running && Strangers(s, k, j)
    case Deliver(m) =>
      m in s.net && m.dst < |s.kernels| && s.kernels[m.dst].status == Running
  }

  function Next(s: System, step: Step): (s': System)
    requires Proper(s.layout)
    ensures s'.layout == s.layout && |s'.kernels| == |s.kernels|
  {
    match step
    case Announce(k, j) => if k < |s.kernels| then AfterAnnounce(s, k, j) else s
    case Deliver(m) =>
      if m.dst >= |s.kernels| then s else if m.KRequest? then AfterRequest(s, m) else AfterReply(s, m)
  }

  function AfterAnnounce(s: System, k: nat, j: nat): (s': System)
    requires Proper(s.layout) && k < |s.kernels|
    ensures s'.layout == s.layout && |s'.kernels| == |s.kernels|
  {
    var ep := NextEp(s.layout, s.kernels[k]);
    var s1 := s.(kernels := s.kernels[k := Asking(s.layout, s.kernels[k], j)]);
    if ep == -1 then s1 else s1.(net := s.net + multiset{KRequest(k, j, ep)}, shaken := s.shaken + {(k, j)})
  }

  function AfterRequest(s: System, m: Message): (s': System)
    requires Proper(s.layout) && m.dst < |s.kernels|
    ensures s'.layout == s.layout && |s'.kernels| == |s.kernels|
  {
    var j := s.kernels[m.dst];
    s.(kernels := s.kernels[m.dst := Asked(s.layout, j, m.src, m.ep)],
       net := s.net - multiset{m} + multiset{KReply(m.dst, m.src, NextEp(s.layout, j))})
  }

  function AfterReply(s: System, m: Message): (s': System)
    requires m.dst < |s.kernels|
    ensures s'.layout == s.layout && |s'.kernels| == |s.kernels|
  {
    s.(kernels := s.kernels[m.dst := Answered(s.kernels[m.dst], m.src, m.ep)], net := s.net - multiset{m})
  }

  ghost predicate Initial(s: System) {
    && Proper(s.layout) && s.net == multiset{} && s.shaken == {}
    && forall k :: 0 <= k < |s.kernels| ==> s.kernels[k].requests == [] && s.kernels[k].status != Unexpected
  }

  function Run(s: System, steps: seq<Step>): (s': System)
    requires Proper(s.layout)
    ensures s'.layout == s.layout && |s'.kernels| == |s.kernels|
  {
    if |steps| == 0 then s else Next(Run(s, steps[..|steps| - 1]), steps[|steps| - 1])
  }

  ghost predicate EnabledRun(s: System, steps: seq<Step>)
    requires Proper(s.layout)
  {
    |steps| == 0
    || (EnabledRun(s, steps[..|steps| - 1]) && Enabled(Run(s, steps[..|steps| - 1]), steps[|steps| - 1]))
  }

  // ---------------------------------------------------------------- the invariant

  /** No message of the handshake that `k` began with `j` is on its way. */
  ghost predicate Quiet(net: multiset<Message>, k: nat, j: nat) {
    forall e :: KRequest(k, j, e) !in net && KReply(j, k, e) !in net
  }

  /** Just `m` is, and that once. */
  ghost predicate Only(net: multiset<Message>, k: nat, j: nat, m: Message) {
    m in net && Quiet(net - multiset{m}, k, j)
  }

  /** What holds of a handshake that kernel `k` began with kernel `j`. */
  ghost predicate Pair(s: System, k: nat, j: nat)
    requires Proper(s.layout)
  {
    && k < |s.kernels| && j < |s.kernels| && k != j
    && var kk, jj := s.kernels[k], s.kernels[j];
    && var ek, ej := EpFor(s.layout, kk.occ, j), EpFor(s.layout, jj.occ, k);
    && ek != -1
    && (|| (Only(s.net, k, j, KRequest(k, j, ek)) && LastEp(kk.requests, j) == ek
            && j !in kk.links && k !in jj.links && k !in jj.occ)
        || (Only(s.net, k, j, KReply(j, k, ej)) && LastEp(kk.requests, j) == ek && ej != -1
            && j !in kk.links && k in jj.links && jj.links[k] == Link(ej, ek))
        || (Only(s.net, k, j, KReply(j, k, -1)) && j !in kk.links && k !in jj.links)
        || (Quiet(s.net, k, j) && ej != -1
            && j in kk.links && kk.links[j] == Link(ek, ej) && k in jj.links && jj.links[k] == Link(ej, ek))
        || (Quiet(s.net, k, j) && j !in kk.links && k !in jj.links))
  }

  ghost predicate Known(s: System, m: Message) {
    if m.KRequest? then (m.src, m.dst) in s.shaken else (m.dst, m.src) in s.shaken
  }

  ghost predicate Inv(s: System) {
    && Proper(s.layout)
    && (forall k, j {:trigger Pair(s, k, j)} :: (k, j) in s.shaken ==> Pair(s, k, j) && (j, k) !in s.shaken)
    && (forall m {:trigger Known(s, m)} :: m in s.net ==> Known(s, m))
    && (forall k :: 0 <= k < |s.kernels| ==> s.kernels[k].status != Unexpected)
  }
}

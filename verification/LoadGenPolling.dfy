/** The round-robin polling of the load generator's receive endpoints. */
module LoadGenPolling {
  import opened LoadGen

  /** The endpoint to look at first, and the messages that wait at each endpoint. */
  datatype Poller = Poller(selected: nat, queues: seq<seq<Message>>)

  /** The first endpoint from `i` on with a message, or their number. */
  function Scan(queues: seq<seq<Message>>, i: nat): (f: nat)
    requires i <= |queues|
    ensures i <= f <= |queues|
    ensures f < |queues| ==> queues[f] != []
    ensures forall k :: i <= k < f ==> queues[k] == []
    decreases |queues| - i
  {
    if i == |queues| || queues[i] != [] then i else Scan(queues, i + 1)
  }

  /** Where the scan begins. */
  function First(selected: nat, n: nat): (i: nat)
    requires n > 0
    ensures i < n
  {
    selected % n
  }

  lemma FirstIs(selected: nat, n: nat)
    requires selected <= n && n > 0
    ensures First(selected, n) == if selected == n then 0 else selected
  {
    if selected < n {
      assert selected % n == selected;
    } else {
      assert n == 1 * n + 0;
    }
  }

  /** One pass of the polling loop, and the endpoint it took a message from, if any. */
  function Poll(p: Poller): (Poller, nat)
    requires |p.queues| > 0
  {
    var f := Scan(p.queues, First(p.selected, |p.queues|));
    if f == |p.queues| then (p.(selected := f), f)
    else (Poller(f + 1, p.queues[f := p.queues[f][1..]]), f)
  }

  /** Messages only join the queues; `arrived[e]` are the new ones at endpoint `e`. */
  function Arrive(queues: seq<seq<Message>>, arrived: seq<seq<Message>>): (r: seq<seq<Message>>)
    requires |arrived| == |queues|
    ensures |r| == |queues|
  {
    seq(|queues|, e requires 0 <= e < |queues| => queues[e] + arrived[e])
  }

  /** How many endpoints the scan passes before it comes to `e`. */
  function Distance(p: Poller, e: nat): nat
    requires e < |p.queues|
  {
    var first := First(p.selected, |p.queues|);
    if first <= e then e - first else e + |p.queues| - first
  }

  /** How many passes there can be before that; one of them may find nothing on the way round. */
  function Passes(p: Poller, e: nat): nat
    requires e < |p.queues|
  {
    Distance(p, e) + if First(p.selected, |p.queues|) > e then 1 else 0
  }

  /** A pass that serves another endpoint, or none, brings the scan closer to a waiting one. */
  lemma PollCloser(p: Poller, e: nat)
    requires e < |p.queues| && p.queues[e] != []
    ensures var (p', f) := Poll(p);
            && |p'.queues| == |p.queues|
            && (f != e ==> p'.queues[e] == p.queues[e])
            && (f != e && f < |p.queues| ==> Distance(p', e) < Distance(p, e))
            && (f == |p.queues| ==> Distance(p', e) == e <= Distance(p, e) && First(p.selected, |p.queues|) > e)
            && (First(p.selected, |p.queues|) <= e ==> f <= e)
  {
    var n := |p.queues|;
    var f := Scan(p.queues, First(p.selected, n));
    hide First, Scan;
    FirstIs(if f == n then f else f + 1, n);
  }

  /** Who is served in each pass, when messages arrive before the passes as `arrivals` says. */
  function Served(p: Poller, arrivals: seq<seq<seq<Message>>>): (r: seq<nat>)
    requires |p.queues| > 0 && forall i :: 0 <= i < |arrivals| ==> |arrivals[i]| == |p.queues|
    ensures |r| == |arrivals|
    decreases |arrivals|
  {
    if |arrivals| == 0 then []
    else
      var (p', f) := Poll(p.(queues := Arrive(p.queues, arrivals[0])));
      [f] + Served(p', arrivals[1..])
  }

  /** The number of passes before endpoint `e` is served that took a message, and all of them. */
  function Others(served: seq<nat>, e: nat, n: nat): nat {
    if |served| == 0 || served[0] == e then 0 else (if served[0] < n then 1 else 0) + Others(served[1..], e, n)
  }

  function Wait(served: seq<nat>, e: nat): (w: nat)
    ensures w <= |served|
    ensures w < |served| ==> served[w] == e
  {
    if |served| == 0 || served[0] == e then 0 else 1 + Wait(served[1..], e)
  }

  /** With a message waiting at `e`, the distance bounds the messages of others that go first. */
  lemma {:induction false} WaitBound(p: Poller, arrivals: seq<seq<seq<Message>>>, e: nat)
    requires e < |p.queues| && p.queues[e] != []
    requires forall i :: 0 <= i < |arrivals| ==> |arrivals[i]| == |p.queues|
    ensures var served := Served(p, arrivals);
            && Others(served, e, |p.queues|) <= Distance(p, e)
            && (Wait(served, e) < |served| || |served| <= Passes(p, e))
    decreases |arrivals|
  {
    if |arrivals| > 0 {
      var n := |p.queues|;
      var p1 := p.(queues := Arrive(p.queues, arrivals[0]));
      assert p1.queues[e] != [];
      assert Distance(p1, e) == Distance(p, e);
      PollCloser(p1, e);
      var (p', f) := Poll(p1);
      hide Poll, Arrive;
      if f != e {
        WaitBound(p', arrivals[1..], e);
        PassBound(p1, e);
      }
    }
  }

  /** The extra pass without a message can only happen on the way round to the front. */
  lemma PassBound(p: Poller, e: nat)
    requires e < |p.queues| && p.queues[e] != []
    ensures var (p', f) := Poll(p);
            f != e && |p'.queues| == |p.queues| ==>
              Passes(p', e) + 1 <= Passes(p, e)
  {
    PollCloser(p, e);
    var n := |p.queues|;
    var f := Scan(p.queues, First(p.selected, n));
    hide First, Scan;
    FirstIs(if f == n then f else f + 1, n);
  }

  /**
   A message waiting at endpoint `e` is taken after at most `n` - 1 messages from other
   endpoints, and within `n` + 1 passes, whatever arrives in the meantime.
   */
  lemma {:induction false} ServedSoon(p: Poller, arrivals: seq<seq<seq<Message>>>, e: nat)
    requires e < |p.queues| && p.queues[e] != []
    requires forall i :: 0 <= i < |arrivals| ==> |arrivals[i]| == |p.queues|
    ensures var served, n := Served(p, arrivals), |p.queues|;
            && Others(served, e, n) <= n - 1
            && (|arrivals| > n ==> Wait(served, e) < |served| && served[Wait(served, e)] == e)
  {
    WaitBound(p, arrivals, e);
  }

  // ------------------------------------------------------- order at an endpoint

  /** The poller after the passes. */
  function PollAll(p: Poller, arrivals: seq<seq<seq<Message>>>): (p': Poller)
    requires |p.queues| > 0 && forall i :: 0 <= i < |arrivals| ==> |arrivals[i]| == |p.queues|
    ensures |p'.queues| == |p.queues|
    decreases |arrivals|
  {
    if |arrivals| == 0 then p else PollAll(Poll(p.(queues := Arrive(p.queues, arrivals[0]))).0, arrivals[1..])
  }

  /** The message that a pass takes, if it comes from endpoint `e`. */
  function Head(p: Poller, e: nat): seq<Message>
    requires e < |p.queues|
  {
    var f := Scan(p.queues, First(p.selected, |p.queues|));
    if f == e then [p.queues[e][0]] else []
  }

  /** The messages that the passes take from endpoint `e`. */
  function TakenFrom(p: Poller, arrivals: seq<seq<seq<Message>>>, e: nat): seq<Message>
    requires e < |p.queues| && forall i :: 0 <= i < |arrivals| ==> |arrivals[i]| == |p.queues|
    decreases |arrivals|
  {
    if |arrivals| == 0 then []
    else
      var p1 := p.(queues := Arrive(p.queues, arrivals[0]));
      Head(p1, e) + TakenFrom(Poll(p1).0, arrivals[1..], e)
  }

  function ArrivedAt(arrivals: seq<seq<seq<Message>>>, e: nat): seq<Message>
    requires forall i :: 0 <= i < |arrivals| ==> e < |arrivals[i]|
  {
    if |arrivals| == 0 then [] else arrivals[0][e] + ArrivedAt(arrivals[1..], e)
  }

  lemma PollTakes(p: Poller, e: nat)
    requires e < |p.queues|
    ensures |Poll(p).0.queues| == |p.queues|
    ensures Head(p, e) + Poll(p).0.queues[e] == p.queues[e]
  {
  }

  lemma Regroup(h: seq<Message>, rest: seq<Message>, left: seq<Message>, q': seq<Message>, later: seq<Message>,
                q: seq<Message>, a: seq<Message>)
    requires rest + left == q' + later && h + q' == q + a
    ensures (h + rest) + left == q + (a + later)
  {
    assert (h + rest) + left == h + (rest + left);
    assert h + (q' + later) == (h + q') + later;
    assert (q + a) + later == q + (a + later);
  }

  /** No message is lost or taken twice, and those of one endpoint are taken in the order they came. */
  lemma {:induction false} InOrder(p: Poller, arrivals: seq<seq<seq<Message>>>, e: nat)
    requires e < |p.queues| && forall i :: 0 <= i < |arrivals| ==> |arrivals[i]| == |p.queues|
    ensures TakenFrom(p, arrivals, e) + PollAll(p, arrivals).queues[e] == p.queues[e] + ArrivedAt(arrivals, e)
    decreases |arrivals|
  {
    if |arrivals| == 0 {
      assert p.queues[e] + [] == p.queues[e];
    } else {
      var p1 := p.(queues := Arrive(p.queues, arrivals[0]));
      var p' := Poll(p1).0;
      PollTakes(p1, e);
      InOrder(p', arrivals[1..], e);
      hide Poll, Head;
      Regroup(Head(p1, e), TakenFrom(p', arrivals[1..], e), PollAll(p', arrivals[1..]).queues[e],
              p'.queues[e], ArrivedAt(arrivals[1..], e), p.queues[e], arrivals[0][e]);
    }
  }
}

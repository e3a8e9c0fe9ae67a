/**
 Revocation over channels that keep their order: one from each kernel to each other. The
 log lists all messages in the order they were sent; only the first message of a channel
 that is still under way can be delivered.
 */
module RevocationOrder {
  import opened Common
  import opened CapTree
  import opened RevocationWave
  import opened RevocationInvariant
  import opened RevocationTheorems

  // ------------------------------------------------------- the order of sending

  function Home(t: Tree, n: Id): Kernel {
    if n in t.home then t.home[n] else 0
  }

  function Parent(t: Tree, n: Id): Id {
    if n in t.parent then t.parent[n] else n
  }

  /** The sending and the receiving kernel. */
  function Channel(t: Tree, m: Msg): (Kernel, Kernel) {
    match m
    case Revoke(k) => (Home(t, Parent(t, k)), Home(t, k))
    case Finish(k, _) => (Home(t, k), Home(t, Parent(t, k)))
    case Ack(of) => (Channel(t, of).1, Channel(t, of).0)
  }

  /** The remote edges below `c` in the order in which revoke_rec comes to them. */
  function Order(t: Tree, c: Id): seq<Id>
    requires c in t.kids
    decreases t.height[c], |t.kids[c]| + 1
  {
    OrderUpTo(t, c, |t.kids[c]|)
  }

  function OrderUpTo(t: Tree, c: Id, i: nat): seq<Id>
    requires c in t.kids && i <= |t.kids[c]|
    decreases t.height[c], i
  {
    if i == 0 then [] else
      var k := t.kids[c][i - 1];
      OrderUpTo(t, c, i - 1) + if Remote(t, k) then [k] else Order(t, k)
  }

  ghost predicate Distinct<T>(s: seq<T>) {
    forall i, j :: 0 <= i < j < |s| ==> s[i] != s[j]
  }

  lemma {:induction false} OrderMembers(t: Tree, c: Id)
    requires c in t.kids
    ensures Distinct(Order(t, c)) && forall k :: k in Order(t, c) <==> k in RemoteEdges(t, c)
    decreases t.height[c], |t.kids[c]| + 1
  {
    OrderUpToMembers(t, c, |t.kids[c]|);
    RemoteEdgesByKids(t, c);
  }

  lemma {:induction false} OrderUpToMembers(t: Tree, c: Id, i: nat)
    requires c in t.kids && i <= |t.kids[c]|
    ensures Distinct(OrderUpTo(t, c, i)) && forall k :: k in OrderUpTo(t, c, i) <==> k in RemoteUpTo(t, c, i)
    decreases t.height[c], i
  {
    hide RemoteEdges;
    if i > 0 {
      OrderUpToMembers(t, c, i - 1);
      KidsDisjoint(t, c, i - 1);
      var k := t.kids[c][i - 1];
      assert Remote(t, k) || Local(t, k);
      if Local(t, k) {
        OrderMembers(t, k);
        DistinctAppend(OrderUpTo(t, c, i - 1), Order(t, k));
      } else {
        DistinctAppend(OrderUpTo(t, c, i - 1), [k]);
      }
    }
  }

  lemma DistinctAppend<T>(a: seq<T>, b: seq<T>)
    requires Distinct(a) && Distinct(b) && forall x :: x in a ==> x !in b
    ensures Distinct(a + b)
  {
    forall i, j | 0 <= i < j < |a + b| ensures (a + b)[i] != (a + b)[j] {
      assert i < |a| ==> (a + b)[i] in a;
      assert j >= |a| ==> (a + b)[j] in b;
    }
  }

  function Asks(ids: seq<Id>): (r: seq<Msg>)
    ensures |r| == |ids| && forall i :: 0 <= i < |ids| ==> r[i] == Revoke(ids[i])
  {
    seq(|ids|, i requires 0 <= i < |ids| => Revoke(ids[i]))
  }

  /** What subtracting the answer of `x` sends: at most one report, to a remote parent. */
  function Reports(t: Tree, s: Wave, x: Id): seq<Msg>
    requires x in t.parent
    decreases t.height[t.root] - t.height[x]
  {
    var p := t.parent[x];
    if p !in s.entries || s.entries[p].awaited - 1 != 0 || p == t.root then []
    else if Remote(t, p) then [Finish(p, false)]
    else Reports(t, Settle(s, p), p)
  }

  /** What the handler of `m` sends, in this order. */
  function Emitted(t: Tree, s: Wave, m: Msg): seq<Msg> {
    match m
    case Revoke(c) =>
      if c !in t.kids then [] else
        Asks(Order(t, c)) + [if Await(t, c) == 0 then Finish(c, true) else Ack(m)]
    case Finish(x, _) => if x !in t.parent then [] else Reports(t, TakeFinish(s, m), x) + [Ack(m)]
    case Ack(_) => []
  }

  // ------------------------------------------------------------------- the runs

  datatype Logged = Logged(wave: Wave, log: seq<Msg>)

  ghost predicate Before<T>(s: seq<T>, a: T, b: T) {
    exists i, j :: 0 <= i < j < |s| && s[i] == a && s[j] == b
  }

  /** The message is the next of its channel. */
  ghost predicate First(t: Tree, l: Logged, m: Msg) {
    && m in l.wave.net
    && forall m' :: m' in l.wave.net && Channel(t, m') == Channel(t, m) ==> !Before(l.log, m', m)
  }

  ghost predicate Delivers(t: Tree, l: Logged, m: Msg, l': Logged) {
    && First(t, l, m) && Deliver(t, l.wave, m, l'.wave)
    && l'.log == l.log + Emitted(t, l.wave, m)
  }

  ghost predicate OrderedStep(t: Tree, l: Logged, l': Logged) {
    || (l.wave.thread.Runnable? && l' == l.(wave := Resume(t, l.wave)))
    || exists m :: Delivers(t, l, m, l')
  }

  function OrderedStart(t: Tree): Logged {
    Logged(Start(t), Asks(Order(t, t.root)))
  }

  ghost predicate OrderedAt(t: Tree, run: seq<Logged>, i: nat)
    requires i < |run|
  {
    if i == 0 then run[0] == OrderedStart(t) else OrderedStep(t, run[i - 1], run[i])
  }

  ghost predicate OrderedRun(t: Tree, run: seq<Logged>) {
    |run| > 0 && forall i {:trigger OrderedAt(t, run, i)} :: 0 <= i < |run| ==> OrderedAt(t, run, i)
  }

  function Waves(run: seq<Logged>): (r: seq<Wave>)
    ensures |r| == |run| && forall i :: 0 <= i < |run| ==> r[i] == run[i].wave
  {
    seq(|run|, i requires 0 <= i < |run| => run[i].wave)
  }

  /** An ordered run is a run, so all that holds of every run holds of it. */
  lemma OrderedIsRun(t: Tree, run: seq<Logged>)
    requires OrderedRun(t, run)
    ensures Run(t, Waves(run))
  {
    forall i | 0 <= i < |run| ensures StateAt(t, Waves(run), i) {
      assert OrderedAt(t, run, i);
      if i > 0 {
        if !(run[i - 1].wave.thread.Runnable? && run[i] == run[i - 1].(wave := Resume(t, run[i - 1].wave))) {
          var m :| Delivers(t, run[i - 1], m, run[i]);
          assert Deliver(t, Waves(run)[i - 1], m, Waves(run)[i]);
        }
      }
    }
  }

  // ---------------------------------------------------------------- log and network

  /** A message that is under way blocks those of its channel that were sent later. */
  ghost predicate Fifo(t: Tree, log: seq<Msg>, net: set<Msg>) {
    forall i, j :: 0 <= i < j < |log| && Channel(t, log[i]) == Channel(t, log[j]) && log[i] in net ==> log[j] in net
  }

  ghost predicate Queues(t: Tree, log: seq<Msg>, net: set<Msg>) {
    Distinct(log) && (forall m :: m in net ==> m in log) && Fifo(t, log, net)
  }

  function Elements(s: seq<Msg>): set<Msg> {
    set m | m in s
  }

  lemma QueuesStep(t: Tree, l: Logged, m: Msg, em: seq<Msg>)
    requires Queues(t, l.log, l.wave.net) && First(t, l, m)
    requires Distinct(em) && forall x :: x in em ==> x !in l.log
    ensures Queues(t, l.log + em, l.wave.net - {m} + Elements(em))
  {
    var log, net := l.log + em, l.wave.net - {m} + Elements(em);
    assert Distinct(log) by {
      forall x | x in l.log ensures x !in em {
      }
      DistinctAppend(l.log, em);
    }
    forall x | x in net ensures x in log {
      if x in Elements(em) {
        assert x in em;
      }
    }
    forall i, j | 0 <= i < j < |log| && Channel(t, log[i]) == Channel(t, log[j]) && log[i] in net
      ensures log[j] in net
    {
      if j >= |l.log| {
        assert log[j] == em[j - |l.log|];
      } else {
        assert log[i] == l.log[i] && log[j] == l.log[j];
        assert log[i] !in Elements(em) by {
          assert log[i] in l.log;
        }
        assert Before(l.log, log[i], log[j]);
      }
    }
  }

  /** What the log says of `m` agrees with the state. */
  ghost predicate Stamped(t: Tree, l: Logged, m: Msg) {
    && MsgOk(t, m)
    && (m.Ack? ==> m.of in l.log && m.of !in l.wave.net)
    && (!m.Ack? ==> m in l.wave.sent)
    && (m.Finish? ==> m.includeReply == (Await(t, m.cap) == 0))
  }

  ghost predicate Logging(t: Tree, l: Logged) {
    && (forall m {:trigger Stamped(t, l, m)} :: m in l.log ==> Stamped(t, l, m))
    && (forall m :: m in l.wave.sent ==> m in l.log)
  }

  /** Requests of one traversal are in the log in the order of the traversal. */
  ghost predicate InTurn(t: Tree, log: seq<Msg>, j: Id, k: Id)
    requires Remote(t, j)
  {
    Before(Order(t, Top(t, t.parent[j])), j, k) && Revoke(j) in log ==> Before(log, Revoke(j), Revoke(k))
  }

  ghost predicate LogInv(t: Tree, l: Logged) {
    && Inv(t, l.wave) && Queues(t, l.log, l.wave.net) && Logging(t, l)
    && forall j, k {:trigger InTurn(t, l.log, j, k)} :: Remote(t, j) ==> InTurn(t, l.log, j, k)
  }

  // ------------------------------------------------------- what a delivery sends

  /** The effect of a delivery on the network and on what was sent. */
  ghost predicate Sends(s: Wave, m: Msg, em: seq<Msg>, s': Wave) {
    && s'.net == s.net - {m} + Elements(em)
    && forall x :: x in s'.sent <==> x in s.sent || (x in em && !x.Ack?)
  }

  lemma AsksElements(ids: seq<Id>, k: Id)
    ensures Revoke(k) in Asks(ids) <==> k in ids
    ensures forall m :: m in Asks(ids) ==> m.Revoke?
  {
    if k in ids {
      var i :| 0 <= i < |ids| && ids[i] == k;
      assert Asks(ids)[i] == Revoke(k);
    }
  }

  lemma {:induction false} AsksAre(t: Tree, c: Id)
    requires c in t.kids
    ensures Distinct(Asks(Order(t, c)))
    ensures forall m :: m in Asks(Order(t, c)) <==> m in Requests(t, c)
  {
    OrderMembers(t, c);
    var ids := Order(t, c);
    hide Order;
    forall m ensures m in Asks(ids) <==> m in Requests(t, c) {
      AsksElements(ids, if m.Revoke? then m.cap else 0);
      if m.Revoke? {
        assert m == Revoke(m.cap);
        assert m in Requests(t, c) <==> m.cap in RemoteEdges(t, c);
      }
    }
  }

  /** The last message that the handler of REVOKE sends. */
  function LastOf(t: Tree, c: Id): Msg
    requires c in t.kids
  {
    if Await(t, c) == 0 then Finish(c, true) else Ack(Revoke(c))
  }

  lemma RevokeNetSent(t: Tree, s: Wave, c: Id)
    requires c in t.kids
    ensures var s' := HandleRevoke(t, s, Revoke(c));
            && s'.net == s.net - {Revoke(c)} + Requests(t, c) + {LastOf(t, c)}
            && s'.sent == s.sent + multiset(Requests(t, c))
                          + if LastOf(t, c).Ack? then multiset{} else multiset{LastOf(t, c)}
  {
    hide NewEntries, LocalPart, RevocationWave.Answered, Requests, Await;
  }

  lemma RevokeSends(t: Tree, s: Wave, c: Id)
    requires c in t.kids
    ensures var m := Revoke(c); Sends(s, m, Emitted(t, s, m), HandleRevoke(t, s, m))
  {
    AsksAre(t, c);
    RevokeNetSent(t, s, c);
    assert Emitted(t, s, Revoke(c)) == Asks(Order(t, c)) + [LastOf(t, c)];
    hide Order, HandleRevoke, Requests, Await, Emitted, LastOf, Asks;
    AllRevokes(t, c);
    SendsFrom(s, Revoke(c), Asks(Order(t, c)), Requests(t, c), LastOf(t, c), HandleRevoke(t, s, Revoke(c)));
  }

  lemma AllRevokes(t: Tree, c: Id)
    ensures forall x :: x in Requests(t, c) ==> x.Revoke?
  {
  }

  lemma SendsFrom(s: Wave, m: Msg, asks: seq<Msg>, reqs: set<Msg>, last: Msg, s': Wave)
    requires forall x :: x in asks <==> x in reqs
    requires forall x :: x in reqs ==> x.Revoke?
    requires s'.net == s.net - {m} + reqs + {last}
    requires s'.sent == s.sent + multiset(reqs) + if last.Ack? then multiset{} else multiset{last}
    ensures Sends(s, m, asks + [last], s')
  {
    assert Elements(asks + [last]) == reqs + {last};
    forall x ensures x in s'.sent <==> x in s.sent || (x in asks + [last] && !x.Ack?) {
      assert x in asks + [last] <==> x in asks || x == last;
    }
  }

  /** The report, if any, is of a revocation that completes with it. */
  ghost predicate Reported(t: Tree, s: Wave, em: seq<Msg>) {
    em == [] || (|em| == 1 && em[0].Finish? && !em[0].includeReply
                 && Remote(t, em[0].cap) && em[0].cap !in s.completed && Await(t, em[0].cap) > 0)
  }

  lemma {:induction false} ReportSent(t: Tree, s: Wave, p: Id)
    requires Remote(t, p) && p !in s.completed && Await(t, p) > 0
    ensures var em, s' := [Finish(p, false)], Send(Settle(s, p), Finish(p, false));
            s'.net == s.net + Elements(em) && s'.sent == s.sent + multiset(em) && Reported(t, s, em)
  {
    assert Elements([Finish(p, false)]) == {Finish(p, false)};
  }

  lemma {:induction false} ReportsAre(t: Tree, s: Wave, x: Id)
    requires Shape(t, s) && Traffic(t, s) && Sleep(t, s) && Counters(t, s, Some(x))
    requires x in t.parent && t.parent[x] in s.entries
    ensures var em, s' := Reports(t, s, x), Credit(t, s, x);
            s'.net == s.net + Elements(em) && s'.sent == s.sent + multiset(em) && Reported(t, s, em)
    decreases t.height[t.root] - t.height[x]
  {
    var p := t.parent[x];
    assert Counted(t, s, Some(x), p);
    ReportsStep(t, s, x);
    if s.entries[p].awaited == 1 && p != t.root {
      if Local(t, p) {
        CompleteLocal(t, s, x);
        SettleLocal(t, s, p);
        hide Shape, Traffic, Counters, Sleep, Reports, Credit, Await;
        ReportsAre(t, Settle(s, p), p);
      } else {
        hide Reports, Credit;
        ReportSent(t, s, p);
      }
    }
  }

  lemma {:induction false} ReportsStep(t: Tree, s: Wave, x: Id)
    requires x in t.parent && t.parent[x] in s.entries
    ensures var p, em, s' := t.parent[x], Reports(t, s, x), Credit(t, s, x);
            if s.entries[p].awaited != 1 || p == t.root then em == [] && s'.net == s.net && s'.sent == s.sent
            else if Local(t, p) then
              && em == Reports(t, Settle(s, p), p)
              && s'.net == Credit(t, Settle(s, p), p).net && s'.sent == Credit(t, Settle(s, p), p).sent
            else
              var s1 := Send(Settle(s, p), Finish(p, false));
              em == [Finish(p, false)] && s'.net == s1.net && s'.sent == s1.sent
  {
  }

  lemma FinishSends(t: Tree, s: Wave, m: Msg)
    requires Inv(t, s) && m.Finish? && m in s.net
    ensures m.cap in t.parent && Sends(s, m, Emitted(t, s, m), HandleFinish(t, s, m))
  {
    TakeFinishShape(t, s, m);
    TakeFinishTraffic(t, s, m);
    TakeFinishCounters(t, s, m);
    var s1 := TakeFinish(s, m);
    ReportsAre(t, s1, m.cap);
    var em := Reports(t, s1, m.cap);
    hide Inv, Reports, Credit;
    assert Elements(em + [Ack(m)]) == Elements(em) + {Ack(m)};
  }

  /** What is sent has not been sent before. */
  ghost predicate New(t: Tree, l: Logged, m: Msg, x: Msg) {
    && x !in l.log && MsgOk(t, x) && (x.Ack? ==> x.of == m)
    && (x.Finish? ==> x.includeReply == (Await(t, x.cap) == 0))
  }

  lemma RevokeNew(t: Tree, l: Logged, c: Id, k: Id)
    requires LogInv(t, l) && Revoke(c) in l.wave.net && k in RemoteEdges(t, c)
    ensures Remote(t, c) && New(t, l, Revoke(c), Revoke(k))
  {
    assert MsgOk(t, Revoke(c)) && Placed(t, l.wave, c);
    StillLive(t, l.wave, c, t.parent[k]);
    assert Booked(t, l.wave, k);
    assert Revoke(k) in l.log ==> Stamped(t, l, Revoke(k));
  }

  lemma {:induction false} FinishNew(t: Tree, l: Logged, m: Msg, k: Id)
    requires LogInv(t, l) && Remote(t, k) && k !in l.wave.completed
    ensures New(t, l, m, Finish(k, Await(t, k) == 0))
  {
    var x := Finish(k, Await(t, k) == 0);
    assert Booked(t, l.wave, k);
    assert x in l.log ==> Stamped(t, l, x);
  }

  lemma AckNew(t: Tree, l: Logged, m: Msg)
    requires LogInv(t, l) && m in l.wave.net && !m.Ack?
    ensures New(t, l, m, Ack(m))
  {
    assert MsgOk(t, m);
    assert Ack(m) in l.log ==> Stamped(t, l, Ack(m));
  }

  lemma RevokeEmitsNew(t: Tree, l: Logged, c: Id)
    requires LogInv(t, l) && Revoke(c) in l.wave.net
    ensures Remote(t, c) && Distinct(Emitted(t, l.wave, Revoke(c)))
    ensures forall x :: x in Emitted(t, l.wave, Revoke(c)) ==> New(t, l, Revoke(c), x)
  {
    var m := Revoke(c);
    assert MsgOk(t, m) && Placed(t, l.wave, c);
    AsksAre(t, c);
    AllRevokes(t, c);
    var asks, last := Asks(Order(t, c)), LastOf(t, c);
    assert Emitted(t, l.wave, m) == asks + [last];
    if last.Ack? {
      AckNew(t, l, m);
    } else {
      FinishNew(t, l, m, c);
    }
    hide LogInv, New, Order, Asks, Emitted;
    DistinctAppend(asks, [last]);
    forall x | x in asks + [last] ensures New(t, l, m, x) {
      if x in asks {
        var k :| k in RemoteEdges(t, c) && x == Revoke(k);
        RevokeNew(t, l, c, k);
      }
    }
  }

  lemma FinishEmitsNew(t: Tree, l: Logged, m: Msg)
    requires LogInv(t, l) && m in l.wave.net && m.Finish?
    ensures m.cap in t.parent && Distinct(Emitted(t, l.wave, m))
    ensures forall x :: x in Emitted(t, l.wave, m) ==> New(t, l, m, x)
  {
    var s := l.wave;
    TakeFinishShape(t, s, m);
    TakeFinishTraffic(t, s, m);
    TakeFinishCounters(t, s, m);
    ReportsAre(t, TakeFinish(s, m), m.cap);
    AckNew(t, l, m);
    var em := Reports(t, TakeFinish(s, m), m.cap);
    assert Emitted(t, s, m) == em + [Ack(m)];
    if em != [] {
      FinishNew(t, l, m, em[0].cap);
      assert em[0] == Finish(em[0].cap, false);
    }
    hide LogInv, New, Reports, Emitted;
  }

  lemma BeforeIn<T>(a: seq<T>, b: seq<T>, x: T, y: T)
    requires Before(a, x, y) || Before(b, x, y)
    ensures Before(a + b, x, y)
  {
    if Before(a, x, y) {
      var i, j :| 0 <= i < j < |a| && a[i] == x && a[j] == y;
      assert (a + b)[i] == x && (a + b)[j] == y;
    } else {
      var i, j :| 0 <= i < j < |b| && b[i] == x && b[j] == y;
      assert (a + b)[|a| + i] == x && (a + b)[|a| + j] == y;
    }
  }

  lemma AsksBefore(ids: seq<Id>, j: Id, k: Id)
    requires Before(ids, j, k)
    ensures Before(Asks(ids), Revoke(j), Revoke(k))
  {
    var a, b :| 0 <= a < b < |ids| && ids[a] == j && ids[b] == k;
    assert Asks(ids)[a] == Revoke(j) && Asks(ids)[b] == Revoke(k);
  }

  /** The requests of a traversal are sent in its order. */
  lemma RevokeInTurn(t: Tree, l: Logged, c: Id, j: Id, k: Id)
    requires LogInv(t, l) && Revoke(c) in l.wave.net && Remote(t, j)
    ensures InTurn(t, l.log + Emitted(t, l.wave, Revoke(c)), j, k)
  {
    var em := Emitted(t, l.wave, Revoke(c));
    assert MsgOk(t, Revoke(c));
    if Before(Order(t, Top(t, t.parent[j])), j, k) && Revoke(j) in l.log + em {
      if Revoke(j) in l.log {
        assert InTurn(t, l.log, j, k);
        BeforeIn(l.log, em, Revoke(j), Revoke(k));
      } else {
        AsksAre(t, c);
        assert Revoke(j) in Requests(t, c);
        TopUnique(t, t.parent[j], c);
        AsksBefore(Order(t, c), j, k);
        BeforeIn(Asks(Order(t, c)), [LastOf(t, c)], Revoke(j), Revoke(k));
        BeforeIn(l.log, em, Revoke(j), Revoke(k));
      }
    }
  }

  lemma OtherInTurn(t: Tree, log: seq<Msg>, em: seq<Msg>, j: Id, k: Id)
    requires Remote(t, j) && InTurn(t, log, j, k) && forall x :: x in em ==> !x.Revoke?
    ensures InTurn(t, log + em, j, k)
  {
    if Before(Order(t, Top(t, t.parent[j])), j, k) && Revoke(j) in log + em {
      BeforeIn(log, em, Revoke(j), Revoke(k));
    }
  }

  lemma LoggingStep(t: Tree, l: Logged, m: Msg, em: seq<Msg>, l': Logged)
    requires Queues(t, l.log, l.wave.net) && Logging(t, l) && m in l.wave.net
    requires Sends(l.wave, m, em, l'.wave) && l'.log == l.log + em
    requires forall x :: x in em ==> New(t, l, m, x)
    ensures Logging(t, l')
  {
    forall x | x in l'.log ensures Stamped(t, l', x) {
      if x in l.log {
        assert Stamped(t, l, x);
        assert x.Ack? && x.of in em ==> New(t, l, m, x.of);
      } else {
        assert New(t, l, m, x);
        assert m in em ==> New(t, l, m, m);
      }
    }
  }
}

/** The invariant of ordered runs, and when requests and reports are sent and taken. */
module RevocationEvents {
  import opened Common
  import opened CapTree
  import opened RevocationWave
  import opened RevocationInvariant
  import opened RevocationTheorems
  import opened RevocationSettled
  import opened RevocationOrder

  // ------------------------------------------------------------ every step keeps it

  /** What a delivery in an ordered run does. */
  ghost predicate Effect(t: Tree, l: Logged, m: Msg, l': Logged) {
    var em := Emitted(t, l.wave, m);
    && Sends(l.wave, m, em, l'.wave) && l'.log == l.log + em
    && Distinct(em) && forall x :: x in em ==> New(t, l, m, x)
  }

  lemma DeliveryEffect(t: Tree, l: Logged, m: Msg, l': Logged)
    requires LogInv(t, l) && Delivers(t, l, m, l')
    ensures Effect(t, l, m, l') && Inv(t, l'.wave)
  {
    match m {
      case Revoke(c) =>
        RevokeEmitsNew(t, l, c);
        RevokeSends(t, l.wave, c);
        RevokeKeepsInv(t, l.wave, m);
      case Finish(_, _) =>
        FinishEmitsNew(t, l, m);
        FinishSends(t, l.wave, m);
        FinishKeepsInv(t, l.wave, m);
      case Ack(_) =>
        AckKeepsInv(t, l.wave, m);
        assert Elements([]) == {};
    }
  }

  lemma EmittedInTurn(t: Tree, l: Logged, m: Msg, j: Id, k: Id)
    requires LogInv(t, l) && m in l.wave.net && Remote(t, j)
    ensures InTurn(t, l.log + Emitted(t, l.wave, m), j, k)
  {
    assert InTurn(t, l.log, j, k);
    match m {
      case Revoke(c) => RevokeInTurn(t, l, c, j, k);
      case Finish(_, _) =>
        FinishReportsOnly(t, l, m);
        OtherInTurn(t, l.log, Emitted(t, l.wave, m), j, k);
      case Ack(_) => OtherInTurn(t, l.log, [], j, k);
    }
  }

  lemma FinishReportsOnly(t: Tree, l: Logged, m: Msg)
    requires LogInv(t, l) && m in l.wave.net && m.Finish?
    ensures forall x :: x in Emitted(t, l.wave, m) ==> !x.Revoke?
  {
    TakeFinishShape(t, l.wave, m);
    TakeFinishTraffic(t, l.wave, m);
    TakeFinishCounters(t, l.wave, m);
    ReportsAre(t, TakeFinish(l.wave, m), m.cap);
    hide Reports;
  }

  /**
   A handler answers last: after its requests the handler of REVOKE, with REVOKEFINISH if
   it has nobody to wait for and else with a reply; after its report, if any, the handler
   of REVOKEFINISH.
   */
  lemma {:induction false} AnswersLast(t: Tree, l: Logged, m: Msg)
    requires LogInv(t, l) && m in l.wave.net && !m.Ack?
    ensures var em := Emitted(t, l.wave, m);
            && m.cap in t.parent && |em| > 0
            && em[|em| - 1] == (if m.Revoke? && Await(t, m.cap) == 0 then Finish(m.cap, true) else Ack(m))
            && forall i :: 0 <= i < |em| - 1 ==> if m.Revoke? then em[i].Revoke? else em[i].Finish?
  {
    assert MsgOk(t, m);
    if m.Finish? {
      TakeFinishShape(t, l.wave, m);
      TakeFinishTraffic(t, l.wave, m);
      TakeFinishCounters(t, l.wave, m);
      ReportsAre(t, TakeFinish(l.wave, m), m.cap);
      hide Reports;
    }
  }

  lemma DeliveryKeeps(t: Tree, l: Logged, m: Msg, l': Logged)
    requires LogInv(t, l) && Delivers(t, l, m, l')
    ensures LogInv(t, l')
  {
    DeliveryEffect(t, l, m, l');
    var em := Emitted(t, l.wave, m);
    forall j, k | Remote(t, j) ensures InTurn(t, l'.log, j, k) {
      EmittedInTurn(t, l, m, j, k);
    }
    hide Inv, Emitted, Deliver, InTurn;
    QueuesStep(t, l, m, em);
    LoggingStep(t, l, m, em, l');
  }

  lemma OrderedStepKeeps(t: Tree, l: Logged, l': Logged)
    requires LogInv(t, l) && OrderedStep(t, l, l')
    ensures LogInv(t, l')
  {
    if l.wave.thread.Runnable? && l' == l.(wave := Resume(t, l.wave)) {
      ResumeKeepsInv(t, l.wave);
      hide Inv;
      forall m | m in l'.log ensures Stamped(t, l', m) {
        assert Stamped(t, l, m);
      }
    } else {
      var m :| Delivers(t, l, m, l');
      DeliveryKeeps(t, l, m, l');
    }
  }

  lemma OrderedStartInv(t: Tree)
    ensures LogInv(t, OrderedStart(t))
  {
    var l := OrderedStart(t);
    StartInv(t);
    StartLog(t);
    hide Inv, Start, Order, InTurn;
    forall j, k | Remote(t, j) ensures InTurn(t, l.log, j, k) {
      StartInTurn(t, j, k);
    }
  }

  lemma StartLog(t: Tree)
    ensures var l := OrderedStart(t); Queues(t, l.log, l.wave.net) && Logging(t, l)
  {
    AsksAre(t, t.root);
    StartNet(t);
    RequestsOk(t, t.root);
    hide Start, Order, Requests, Asks;
    FreshLog(t, OrderedStart(t), Requests(t, t.root));
  }

  lemma RequestsOk(t: Tree, c: Id)
    ensures forall m :: m in Requests(t, c) ==> m.Revoke? && Remote(t, m.cap)
  {
  }

  lemma FreshLog(t: Tree, l: Logged, reqs: set<Msg>)
    requires Distinct(l.log) && (forall m :: m in l.log <==> m in reqs)
    requires l.wave.net == reqs && l.wave.sent == multiset(reqs)
    requires forall m :: m in reqs ==> m.Revoke? && Remote(t, m.cap)
    ensures Queues(t, l.log, l.wave.net) && Logging(t, l)
  {
    forall m | m in l.log ensures Stamped(t, l, m) {
      assert m in reqs;
    }
  }

  lemma StartNet(t: Tree)
    ensures Start(t).net == Requests(t, t.root) && Start(t).sent == multiset(Requests(t, t.root))
  {
    hide NewEntries, LocalPart, RevocationWave.Answered, Requests, Await;
  }

  lemma StartInTurn(t: Tree, j: Id, k: Id)
    requires Remote(t, j)
    ensures InTurn(t, OrderedStart(t).log, j, k)
  {
    if Before(Order(t, Top(t, t.parent[j])), j, k) && Revoke(j) in Asks(Order(t, t.root)) {
      AsksAre(t, t.root);
      assert Revoke(j) in Requests(t, t.root);
      TopUnique(t, t.parent[j], t.root);
      AsksBefore(Order(t, t.root), j, k);
    }
  }

  /** The invariant in every state of every ordered run. */
  lemma {:induction false} OrderedInv(t: Tree, run: seq<Logged>, i: nat)
    requires OrderedRun(t, run) && i < |run|
    ensures LogInv(t, run[i])
  {
    assert OrderedAt(t, run, i);
    if i == 0 {
      OrderedStartInv(t);
    } else {
      OrderedInv(t, run, i - 1);
      OrderedStepKeeps(t, run[i - 1], run[i]);
    }
  }

  // --------------------------------------------------------------------- events

  /** The report of `k`. */
  function Report(t: Tree, k: Id): Msg
    requires k in t.kids
  {
    Finish(k, Await(t, k) == 0)
  }

  /** A request or a report. */
  predicate Event(t: Tree, e: Msg) {
    !e.Ack? && Remote(t, e.cap) && (e.Finish? ==> e == Report(t, e.cap))
  }

  predicate Sent(t: Tree, s: Wave, e: Msg)
    requires Event(t, e)
  {
    if e.Revoke? then t.parent[e.cap] !in s.live else e.cap in s.completed
  }

  /** The event has been delivered. */
  predicate Taken(t: Tree, s: Wave, e: Msg)
    requires Event(t, e)
  {
    if e.Revoke? then e.cap !in s.live else Credited(s, e.cap)
  }

  /** In the log are the events that were sent; the ones not under way were taken. */
  lemma EventState(t: Tree, l: Logged, e: Msg)
    requires LogInv(t, l) && Event(t, e)
    ensures e in l.log <==> Sent(t, l.wave, e)
    ensures Taken(t, l.wave, e) <==> Sent(t, l.wave, e) && e !in l.wave.net
  {
    var k := e.cap;
    assert Placed(t, l.wave, k) && Booked(t, l.wave, k);
    assert e in l.log ==> Stamped(t, l, e);
    var other := Finish(k, Await(t, k) != 0);
    assert other in l.log ==> Stamped(t, l, other);
  }
}

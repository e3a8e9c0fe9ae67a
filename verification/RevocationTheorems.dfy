/**
 What the revocation protocol guarantees, for every capability tree, every placement of
 capabilities on kernels and every order of message delivery.
 */
module RevocationTheorems {
  import opened Common
  import opened CapTree
  import opened RevocationWave
  import opened RevocationInvariant

  // ------------------------------------------------------------------ safety

  /** A completed revocation has heard from all of its children, and they are completed. */
  lemma {:induction false} CompletedKids(t: Tree, s: Wave, k: Id)
    requires Inv(t, s) && k in t.parent && t.parent[k] in s.completed
    ensures k in s.completed && (Remote(t, k) ==> Credited(s, k))
    ensures Local(t, k) ==> Await(t, k) <= 1
  {
    assert Counted(t, s, None, t.parent[k]) && Placed(t, s, t.parent[k]) && Placed(t, s, k);
    KidTerm(t, s, k);
  }

  lemma {:induction false} CompletedDown(t: Tree, s: Wave, n: Id)
    requires Inv(t, s) && t.root in s.completed && n in t.kids
    ensures n in s.completed
    decreases t.height[t.root] - t.height[n]
  {
    if n != t.root {
      CompletedDown(t, s, t.parent[n]);
      CompletedKids(t, s, n);
    }
  }

  /**
   The thread of the system call runs on only after every capability of the distributed
   subtree is gone, and no request or report is under way any more.
   */
  lemma WakeupOnlyWhenRevoked(t: Tree, run: seq<Wave>)
    requires Run(t, run) && !run[|run| - 1].thread.Sleeping?
    ensures var s := run[|run| - 1];
            && s.live == {} && s.completed == t.kids.Keys
            && forall m | m in s.net :: m.Ack?
  {
    var s := run[|run| - 1];
    RunInv(t, run);
    forall n | n in t.kids ensures n in s.completed && n !in s.live {
      CompletedDown(t, s, n);
      assert Placed(t, s, n);
    }
    forall m | m in s.net ensures m.Ack? {
      assert MsgOk(t, m);
      if !m.Ack? {
        assert Placed(t, s, m.cap);
        CompletedKids(t, s, m.cap);
      }
    }
  }

  /** The thread is woken once at most. */
  lemma WokenOnce(t: Tree, run: seq<Wave>)
    requires Run(t, run)
    ensures run[|run| - 1].wakeups <= 1
  {
    RunInv(t, run);
  }

  // -------------------------------------------------------------- accounting

  function Requested(t: Tree, s: Wave, n: Id): set<Id> {
    set k | k in t.parent && t.parent[k] == n && Remote(t, k) && Revoke(k) in s.net
  }

  function Waiting(t: Tree, s: Wave, n: Id): set<Id> {
    set k | k in t.parent && t.parent[k] == n && Remote(t, k) && k in s.entries && k !in s.completed
  }

  function Reporting(t: Tree, s: Wave, n: Id): set<Id> {
    set k | k in t.parent && t.parent[k] == n && Remote(t, k)
            && (Finish(k, true) in s.net || Finish(k, false) in s.net)
  }

  /** The remote children of `n`, among its first `i`, that have not been counted off. */
  function OpenUpTo(t: Tree, s: Wave, n: Id, i: nat): set<Id>
    requires n in t.kids && i <= |t.kids[n]|
  {
    if i == 0 then {} else
      var k := t.kids[n][i - 1];
      OpenUpTo(t, s, n, i - 1) + (if Remote(t, k) && !Credited(s, k) then {k} else {})
  }

  /** What the local children of `n`, among its first `i`, still add to its counter. */
  function LocalDebtUpTo(t: Tree, s: Wave, n: Id, i: nat): nat
    requires n in t.kids && i <= |t.kids[n]|
  {
    if i == 0 then 0 else
      var k := t.kids[n][i - 1];
      LocalDebtUpTo(t, s, n, i - 1) + (if Local(t, k) then Term(t, s, k) else 0)
  }

  lemma {:induction false} OpenIn(t: Tree, s: Wave, n: Id, i: nat, k: Id)
    requires n in t.kids && i <= |t.kids[n]|
    ensures k in OpenUpTo(t, s, n, i) <==>
            Remote(t, k) && !Credited(s, k) && exists j :: 0 <= j < i && t.kids[n][j] == k
  {
    if i > 0 {
      OpenIn(t, s, n, i - 1, k);
    }
  }

  lemma {:induction false} OwedSplits(t: Tree, s: Wave, n: Id, i: nat)
    requires n in t.kids && i <= |t.kids[n]|
    ensures OwedUpTo(t, s, n, i) == |OpenUpTo(t, s, n, i)| + LocalDebtUpTo(t, s, n, i)
  {
    if i > 0 {
      OwedSplits(t, s, n, i - 1);
      OpenIn(t, s, n, i - 1, t.kids[n][i - 1]);
    }
  }

  /**
   Every counter equals its REVOKEs on the way, plus the child entries still waiting, plus
   its REVOKEFINISHes on the way, plus what its local children have added to it.
   */
  lemma {:induction false} CounterAccounts(t: Tree, run: seq<Wave>, n: Id)
    requires Run(t, run) && n in run[|run| - 1].entries
    ensures var s := run[|run| - 1];
            && n in t.kids
            && s.entries[n].awaited
               == |Requested(t, s, n)| + |Waiting(t, s, n)| + |Reporting(t, s, n)|
                  + LocalDebtUpTo(t, s, n, |t.kids[n]|)
  {
    var s := run[|run| - 1];
    RunInv(t, run);
    assert Counted(t, s, None, n);
    OwedSplits(t, s, n, |t.kids[n]|);
    OpenIsThreeKinds(t, s, n);
  }

  lemma {:induction false} OpenIsThreeKinds(t: Tree, s: Wave, n: Id)
    requires Inv(t, s) && n in t.kids && n !in s.live
    ensures |OpenUpTo(t, s, n, |t.kids[n]|)|
            == |Requested(t, s, n)| + |Waiting(t, s, n)| + |Reporting(t, s, n)|
  {
    var open := OpenUpTo(t, s, n, |t.kids[n]|);
    var a, b, c := Requested(t, s, n), Waiting(t, s, n), Reporting(t, s, n);
    forall k ensures k in open <==> k in a || k in b || k in c {
      OpenMember(t, s, n, k);
      OpenKid(t, s, n, k);
    }
    KindsDisjoint(t, s, n);
    ThreeKinds(open, a, b, c);
  }

  lemma {:induction false} OpenMember(t: Tree, s: Wave, n: Id, k: Id)
    requires n in t.kids
    ensures k in OpenUpTo(t, s, n, |t.kids[n]|) <==> Remote(t, k) && !Credited(s, k) && k in t.kids[n]
  {
    OpenIn(t, s, n, |t.kids[n]|, k);
  }

  lemma ThreeKinds(open: set<Id>, a: set<Id>, b: set<Id>, c: set<Id>)
    requires forall k :: k in open <==> k in a || k in b || k in c
    requires a !! b && (a + b) !! c
    ensures |open| == |a| + |b| + |c|
  {
    assert open == a + b + c;
    assert |a + b| == |a| + |b|;
  }

  lemma KindsDisjoint(t: Tree, s: Wave, n: Id)
    requires Inv(t, s)
    ensures Requested(t, s, n) !! Waiting(t, s, n)
    ensures (Requested(t, s, n) + Waiting(t, s, n)) !! Reporting(t, s, n)
  {
    forall k | k in t.kids ensures Placed(t, s, k) && Counted(t, s, None, k) {
    }
  }

  lemma OpenKid(t: Tree, s: Wave, n: Id, k: Id)
    requires Inv(t, s) && n in t.kids && n !in s.live
    ensures Remote(t, k) && !Credited(s, k) && k in t.kids[n] <==>
            k in Requested(t, s, n) || k in Waiting(t, s, n) || k in Reporting(t, s, n)
  {
    if Remote(t, k) {
      assert Placed(t, s, k) && Counted(t, s, None, k);
    }
  }

  // ------------------------------------------------------------- termination

  function Acks(s: Wave): set<Msg> {
    set m | m in s.net && m.Ack?
  }

  function Uncredited(t: Tree, s: Wave): set<Id> {
    set k | k in AllRemote(t) && !Credited(s, k)
  }

  function Untouched(t: Tree, s: Wave): set<Id> {
    set k | k in AllRemote(t) && k in s.live
  }

  function Incomplete(t: Tree, s: Wave): set<Id> {
    set k | k in AllRemote(t) && k !in s.completed
  }

  /** Falls with every delivery, and when the thread runs on. */
  function Measure(t: Tree, s: Wave): nat {
    2 * |Untouched(t, s)| + |Incomplete(t, s)| + 3 * |Uncredited(t, s)| + |Acks(s)|
    + (if s.thread.Runnable? then 1 else 0)
  }

  /** Subtracting an answer only lets more revocations complete. */
  lemma {:induction false} CreditProgress(t: Tree, s: Wave, x: Id)
    requires Shape(t, s) && Traffic(t, s) && Sleep(t, s) && Counters(t, s, Some(x))
    requires x in t.parent && t.parent[x] in s.entries
    ensures var s' := Credit(t, s, x);
            && s'.live == s.live && s.completed <= s'.completed && Acks(s') == Acks(s)
            && (forall k | Remote(t, k) && Credited(s, k) :: Credited(s', k))
    decreases t.height[t.root] - t.height[x]
  {
    var p := t.parent[x];
    assert Counted(t, s, Some(x), p);
    if s.entries[p].awaited == 1 && Local(t, p) {
      CompleteLocal(t, s, x);
      SettleLocal(t, s, p);
      CreditProgress(t, Settle(s, p), p);
    }
  }

  lemma SmallerSets(a: set<Id>, a': set<Id>)
    requires a' <= a
    ensures |a'| <= |a|
    ensures forall x :: x in a && x !in a' ==> |a'| < |a|
  {
    if x :| x in a && x !in a' {
      assert a' <= a - {x};
      SmallerSets(a - {x}, a');
    } else {
      assert a == a';
    }
  }

  lemma FinishFalls(t: Tree, s: Wave, m: Msg)
    requires Inv(t, s) && m.Finish? && m in s.net
    ensures m.cap in t.parent && Measure(t, HandleFinish(t, s, m)) < Measure(t, s)
  {
    TakeFinishShape(t, s, m);
    TakeFinishTraffic(t, s, m);
    TakeFinishCounters(t, s, m);
    var s1 := TakeFinish(s, m);
    CreditProgress(t, s1, m.cap);
    var s' := HandleFinish(t, s, m);
    assert MsgOk(t, m) && Placed(t, s, m.cap);
    assert m.cap in Uncredited(t, s) && m.cap !in Uncredited(t, s');
    SmallerSets(Uncredited(t, s), Uncredited(t, s'));
    SmallerSets(Incomplete(t, s), Incomplete(t, s'));
    assert Acks(s') == Acks(s) + {Ack(m)};
  }

  lemma {:induction false} RevokeSets(t: Tree, s: Wave, c: Id, s': Wave)
    requires Shape(t, s) && AfterAll(t, s, c, s') && Remote(t, c) && c in s.live
    ensures Untouched(t, s') <= Untouched(t, s) && c !in s'.live
    ensures Incomplete(t, s') <= Incomplete(t, s)
    ensures Uncredited(t, s') <= Uncredited(t, s)
    ensures Await(t, c) == 0 ==> c in s'.completed && c !in s.completed
  {
    assert After(t, s, c, s', c) && Placed(t, s, c);
    forall k | Remote(t, k)
      ensures k in s'.live ==> k in s.live
      ensures k in s.completed ==> k in s'.completed
      ensures Credited(s, k) ==> Credited(s', k)
    {
      assert After(t, s, c, s', k) && Placed(t, s, k);
    }
  }

  lemma RevokeFalls(t: Tree, s: Wave, m: Msg)
    requires Inv(t, s) && m.Revoke? && m in s.net
    ensures m.cap in t.kids && Measure(t, HandleRevoke(t, s, m)) < Measure(t, s)
  {
    var c := m.cap;
    assert MsgOk(t, m) && Placed(t, s, c);
    var s' := HandleRevoke(t, s, m);
    RevokeView(t, s, c);
    RevokeSets(t, s, c, s');
    SmallerSets(Untouched(t, s), Untouched(t, s'));
    SmallerSets(Incomplete(t, s), Incomplete(t, s'));
    SmallerSets(Uncredited(t, s), Uncredited(t, s'));
    RevokeAcks(t, s, c);
    assert c in Untouched(t, s);
  }

  lemma RevokeAcks(t: Tree, s: Wave, c: Id)
    requires c in t.kids
    ensures |Acks(HandleRevoke(t, s, Revoke(c)))| <= |Acks(s)| + 1
  {
    var s' := HandleRevoke(t, s, Revoke(c));
    assert Acks(s') <= Acks(s) + {Ack(Revoke(c))};
    MoreAcks(Acks(s), Acks(s'), Ack(Revoke(c)));
  }

  lemma MoreAcks(a: set<Msg>, a': set<Msg>, m: Msg)
    requires a' <= a + {m}
    ensures |a'| <= |a| + 1
  {
    var b := a + {m};
    assert b == a' + (b - a');
  }

  lemma AckFalls(t: Tree, s: Wave, m: Msg)
    requires m.Ack? && m in s.net
    ensures Measure(t, HandleAck(s, m)) < Measure(t, s)
  {
    var s' := HandleAck(s, m);
    assert Untouched(t, s) == Untouched(t, s') && Incomplete(t, s) == Incomplete(t, s');
    assert Uncredited(t, s) == Uncredited(t, s');
    assert Acks(s) == Acks(s') + {m};
  }

  lemma ResumeFalls(t: Tree, s: Wave)
    requires s.thread.Runnable?
    ensures Measure(t, Resume(t, s)) < Measure(t, s)
  {
    var s' := Resume(t, s);
    assert Untouched(t, s) == Untouched(t, s') && Incomplete(t, s) == Incomplete(t, s');
    assert Uncredited(t, s) == Uncredited(t, s') && Acks(s) == Acks(s');
  }

  lemma StepFalls(t: Tree, s: Wave, s': Wave)
    requires Inv(t, s) && Step(t, s, s')
    ensures Measure(t, s') < Measure(t, s)
  {
    if s.thread.Runnable? && s' == Resume(t, s) {
      ResumeFalls(t, s);
    } else {
      var m :| m in s.net && Deliver(t, s, m, s');
      match m
      case Revoke(_) => RevokeFalls(t, s, m);
      case Finish(_, _) => FinishFalls(t, s, m);
      case Ack(_) => AckFalls(t, s, m);
    }
  }

  lemma LastFalls(t: Tree, run: seq<Wave>)
    requires Run(t, run) && |run| > 1
    ensures Run(t, run[..|run| - 1])
    ensures Measure(t, run[|run| - 1]) < Measure(t, run[..|run| - 1][|run| - 2])
  {
    Shorten(t, run);
    RunInv(t, run[..|run| - 1]);
    StepFalls(t, run[|run| - 2], run[|run| - 1]);
  }

  lemma {:induction false} RunFalls(t: Tree, run: seq<Wave>)
    requires Run(t, run)
    ensures |run| + Measure(t, run[|run| - 1]) <= 1 + Measure(t, run[0])
  {
    if |run| > 1 {
      LastFalls(t, run);
      RunFalls(t, run[..|run| - 1]);
    }
  }

  /** No wave goes on for ever: the number of remote edges bounds the length of every run. */
  lemma RunsEnd(t: Tree, run: seq<Wave>)
    requires Run(t, run)
    ensures |run| <= 6 * |AllRemote(t)| + 1
  {
    RunFalls(t, run);
    assert StateAt(t, run, 0);
    StartMeasure(t);
  }

  lemma StartMeasure(t: Tree)
    ensures Measure(t, Start(t)) <= 6 * |AllRemote(t)|
  {
    var s := Start(t);
    SmallerSets(AllRemote(t), Untouched(t, s));
    SmallerSets(AllRemote(t), Incomplete(t, s));
    SmallerSets(AllRemote(t), Uncredited(t, s));
    StartMsgs(t);
    assert Acks(s) == {};
  }

  // -------------------------------------------------------------- quiescence

  /** Nothing is on its way and the thread, if woken, has run on. */
  predicate Quiet(s: Wave) {
    s.net == {} && !s.thread.Runnable?
  }

  lemma {:induction false} AllRevoked(t: Tree, s: Wave, n: Id)
    requires Inv(t, s) && s.net == {} && n in t.kids
    ensures n !in s.live
    decreases t.height[t.root] - t.height[n]
  {
    assert Placed(t, s, n);
    if n != t.root {
      AllRevoked(t, s, t.parent[n]);
    }
  }

  /** In a responsive tree every revocation completes once the network is empty. */
  lemma {:induction false} AllCompleted(t: Tree, s: Wave, n: Id)
    requires Inv(t, s) && s.net == {} && Responsive(t) && n in t.kids
    ensures n in s.completed
    decreases t.height[n]
  {
    AllRevoked(t, s, n);
    forall j | 0 <= j < |t.kids[n]| ensures Term(t, s, t.kids[n][j]) == 0 {
      var k := t.kids[n][j];
      AllCompleted(t, s, k);
      assert Remote(t, k) || Local(t, k);
    }
    OwedAllZero(t, s, n, |t.kids[n]|);
    assert Counted(t, s, None, n);
  }

  /**
   The system call is answered if and only if below every local child at most one remote
   edge leaves the kernel. The capabilities are gone either way.
   */
  lemma {:induction false} AnsweredIffResponsive(t: Tree, run: seq<Wave>)
    requires Run(t, run) && Quiet(run[|run| - 1])
    ensures run[|run| - 1].live == {}
    ensures run[|run| - 1].thread.Returned? <==> Responsive(t)
    ensures run[|run| - 1].wakeups == if Responsive(t) && Await(t, t.root) > 0 then 1 else 0
  {
    var s := run[|run| - 1];
    RunInv(t, run);
    forall n | n in t.kids ensures n !in s.live {
      AllRevoked(t, s, n);
    }
    if Responsive(t) {
      AllCompleted(t, s, t.root);
    } else if t.root in s.completed {
      forall k | k in t.parent && Local(t, k) ensures Await(t, k) <= 1 {
        CompletedDown(t, s, t.parent[k]);
        CompletedKids(t, s, k);
      }
    }
  }

  lemma Extend(t: Tree, run: seq<Wave>, s: Wave)
    requires Run(t, run) && Step(t, run[|run| - 1], s)
    ensures Run(t, run + [s])
  {
    var longer := run + [s];
    forall i | 0 <= i < |longer| ensures StateAt(t, longer, i) {
      if i < |run| {
        assert StateAt(t, run, i);
      }
    }
  }

  /** The requests in `hold` have not been delivered between `s` and `s'`. */
  ghost predicate HeldBack(t: Tree, s: Wave, s': Wave, hold: set<Msg>) {
    forall k | Remote(t, k) && Revoke(k) in hold && k in s.live :: k in s'.live
  }

  lemma DrainOne(t: Tree, run: seq<Wave>, hold: set<Msg>) returns (s': Wave)
    requires Run(t, run)
    requires run[|run| - 1].thread.Runnable? || !(run[|run| - 1].net <= hold)
    ensures Run(t, run + [s']) && Measure(t, s') < Measure(t, run[|run| - 1])
    ensures HeldBack(t, run[|run| - 1], s', hold)
  {
    RunInv(t, run);
    s' := NextState(t, run[|run| - 1], hold);
    StepFalls(t, run[|run| - 1], s');
    Extend(t, run, s');
  }

  /** Any run can be driven on until only messages in `hold` are left. */
  lemma {:induction false} Drain(t: Tree, run: seq<Wave>, hold: set<Msg>) returns (longer: seq<Wave>)
    requires Run(t, run)
    ensures Run(t, longer) && run <= longer
    ensures longer[|longer| - 1].net <= hold && !longer[|longer| - 1].thread.Runnable?
    ensures HeldBack(t, run[|run| - 1], longer[|longer| - 1], hold)
    decreases Measure(t, run[|run| - 1])
  {
    longer := run;
    if run[|run| - 1].thread.Runnable? || !(run[|run| - 1].net <= hold) {
      var s' := DrainOne(t, run, hold);
      longer := Drain(t, run + [s'], hold);
    }
  }

  lemma NextState(t: Tree, s: Wave, hold: set<Msg>) returns (s': Wave)
    requires Inv(t, s) && (s.thread.Runnable? || !(s.net <= hold))
    ensures Step(t, s, s') && HeldBack(t, s, s', hold)
  {
    if s.thread.Runnable? {
      s' := Resume(t, s);
    } else {
      var m :| m in s.net && m !in hold;
      assert MsgOk(t, m);
      match m {
        case Revoke(_) => s' := HandleRevoke(t, s, m);
        case Finish(_, _) =>
          s' := HandleFinish(t, s, m);
          CreditLive(t, TakeFinish(s, m), m.cap);
        case Ack(_) => s' := HandleAck(s, m);
      }
      assert Deliver(t, s, m, s');
    }
  }

  lemma {:induction false} CreditLive(t: Tree, s: Wave, x: Id)
    requires x in t.parent
    ensures Credit(t, s, x).live == s.live
    decreases t.height[t.root] - t.height[x]
  {
    if Local(t, t.parent[x]) {
      CreditLive(t, Settle(s, t.parent[x]), t.parent[x]);
    }
  }

  // ----------------------------------------------------------------- traffic

  /** At no time is a message sent or acknowledged twice. */
  lemma NothingTwice(t: Tree, run: seq<Wave>, m: Msg)
    requires Run(t, run)
    ensures run[|run| - 1].acked[m] <= run[|run| - 1].sent[m] <= 1
  {
    var s := run[|run| - 1];
    RunInv(t, run);
    if m in s.sent || m in s.acked {
      assert CallOk(t, m);
      assert Booked(t, s, m.cap);
    }
  }

  function Image(a: set<Id>, f: Id -> Msg): set<Msg> {
    set k | k in a :: f(k)
  }

  lemma {:induction false} ImageSize(a: set<Id>, f: Id -> Msg)
    requires forall j, k | j in a && k in a :: f(j) == f(k) ==> j == k
    ensures |Image(a, f)| == |a|
  {
    if k :| k in a {
      ImageSize(a - {k}, f);
      assert Image(a, f) == Image(a - {k}, f) + {f(k)};
    }
  }

  /**
   When all is quiet, every message has been acknowledged exactly once: one REVOKE per
   remote edge, and one REVOKEFINISH per remote capability whose revocation completed.
   */
  lemma TrafficAtTheEnd(t: Tree, run: seq<Wave>)
    requires Run(t, run) && Quiet(run[|run| - 1])
    ensures var s := run[|run| - 1];
            && s.acked == s.sent
            && (forall k | k in AllRemote(t) ::
                  && s.sent[Revoke(k)] == 1
                  && s.sent[Finish(k, true)] + s.sent[Finish(k, false)] == One(k in s.completed))
            && |s.sent| == |AllRemote(t)| + |AllRemote(t) * s.completed|
            && (Responsive(t) ==> |s.sent| == 2 * |AllRemote(t)|)
  {
    var s := run[|run| - 1];
    RunInv(t, run);
    forall k | k in AllRemote(t) ensures Booked(t, s, k) && t.parent[k] !in s.live {
      AllRevoked(t, s, t.parent[k]);
    }
    AllAcked(t, s);
    CountSent(t, s);
    if Responsive(t) {
      forall k | k in AllRemote(t) ensures k in s.completed {
        AllCompleted(t, s, k);
      }
      assert AllRemote(t) * s.completed == AllRemote(t);
    }
  }

  lemma AllAcked(t: Tree, s: Wave)
    requires Traffic(t, s) && s.net == {}
    ensures s.acked == s.sent
  {
    forall m ensures s.acked[m] == s.sent[m] {
      if m in s.sent || m in s.acked {
        assert CallOk(t, m) && Booked(t, s, m.cap);
      }
    }
  }

  lemma CountSent(t: Tree, s: Wave)
    requires Traffic(t, s) && (forall k | k in AllRemote(t) :: t.parent[k] !in s.live)
    ensures |s.sent| == |AllRemote(t)| + |AllRemote(t) * s.completed|
  {
    var ask := (k: Id) => Revoke(k);
    var report := (k: Id) => Finish(k, s.sent[Finish(k, true)] == 1);
    var asks, reports := Image(AllRemote(t), ask), Image(AllRemote(t) * s.completed, report);
    ImageSize(AllRemote(t), ask);
    ImageSize(AllRemote(t) * s.completed, report);
    forall m ensures s.sent[m] == (multiset(asks) + multiset(reports))[m] {
      if CallOk(t, m) {
        SentOnce(t, s, m);
        assert m in asks <==> m == ask(m.cap);
        assert m in reports <==> m.cap in s.completed && m == report(m.cap);
      } else {
        assert m !in asks && m !in reports && m !in s.sent;
      }
    }
    assert s.sent == multiset(asks) + multiset(reports);
  }

  lemma SentOnce(t: Tree, s: Wave, m: Msg)
    requires Traffic(t, s) && CallOk(t, m) && t.parent[m.cap] !in s.live
    ensures s.sent[m] == One(m == Revoke(m.cap))
            + One(m.cap in s.completed && m == Finish(m.cap, s.sent[Finish(m.cap, true)] == 1))
  {
    assert Booked(t, s, m.cap);
  }
}

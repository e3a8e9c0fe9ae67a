/**
 Which revocation entries outlive their revocation. An entry that is completed by a
 REVOKEFINISH is taken off the list of its kernel; one that is completed by
 notifySubscribers is not.
 */
module RevocationLeftovers {
  import opened Common
  import opened CapTree
  import opened RevocationWave
  import opened RevocationInvariant
  import opened RevocationTheorems
  import opened RevocationSettled
  import opened RevocationOrder
  import opened RevocationEvents
  import opened RevocationRaces
  import opened RevocationOvertaking
  import opened RevocationSchedules

  /** Below the origin's own children, nothing that must wait hangs on a local edge. */
  ghost predicate Tidy(t: Tree) {
    forall k | k in t.parent && Local(t, k) && t.parent[k] != t.root :: Await(t, k) == 0
  }

  ghost predicate NoStale(t: Tree, s: Wave) {
    forall n | n in s.entries && n in s.completed :: n == t.root && s.thread.Runnable?
  }

  // ------------------------------------------- tidy trees leave nothing behind

  lemma StartNoStale(t: Tree)
    ensures NoStale(t, Start(t))
  {
  }

  lemma RevokeNoStale(t: Tree, s: Wave, m: Msg)
    requires Inv(t, s) && NoStale(t, s) && m.Revoke? && m in s.net
    ensures m.cap in t.kids && NoStale(t, HandleRevoke(t, s, m))
  {
    var c := m.cap;
    assert MsgOk(t, m) && Placed(t, s, c);
    var s' := HandleRevoke(t, s, m);
    RevokeView(t, s, c);
    RevokeKeepsInv(t, s, m);
    forall n | n in s'.entries && n in s'.completed ensures n == t.root && s'.thread.Runnable? {
      assert After(t, s, c, s', n) && Counted(t, s, None, n);
      if Under(t, n, c) {
        assert Placed(t, s, n);
        StillLive(t, s, c, n);
      }
    }
  }

  lemma {:induction false} CreditRoot(t: Tree, s: Wave, x: Id)
    requires x in t.parent && t.parent[x] == t.root
    ensures var s' := Credit(t, s, x);
            && s'.entries.Keys == s.entries.Keys
            && (forall n | n in s'.completed :: n in s.completed || (n == t.root && s'.thread.Runnable?))
            && (s.thread.Runnable? ==> s'.thread.Runnable?)
  {
  }

  lemma FinishNoStale(t: Tree, s: Wave, m: Msg)
    requires Inv(t, s) && Tidy(t) && NoStale(t, s) && m.Finish? && m in s.net
    ensures m.cap in t.parent && NoStale(t, HandleFinish(t, s, m))
  {
    assert MsgOk(t, m);
    TakeFinishCounters(t, s, m);
    var p := t.parent[m.cap];
    assert Counted(t, s, None, p);
    if Local(t, p) {
      assert t.parent[p] == t.root;
      CreditRoot(t, Settle(TakeFinish(s, m), p), p);
    }
  }

  lemma StepNoStale(t: Tree, s: Wave, s': Wave)
    requires Inv(t, s) && Tidy(t) && NoStale(t, s) && Step(t, s, s')
    ensures NoStale(t, s')
  {
    if !(s.thread.Runnable? && s' == Resume(t, s)) {
      var m :| m in s.net && Deliver(t, s, m, s');
      match m
      case Revoke(_) => RevokeNoStale(t, s, m);
      case Finish(_, _) => FinishNoStale(t, s, m);
      case Ack(_) =>
    }
  }

  lemma {:induction false} RunNoStale(t: Tree, run: seq<Wave>)
    requires Run(t, run) && Tidy(t)
    ensures NoStale(t, run[|run| - 1])
  {
    if |run| == 1 {
      assert StateAt(t, run, 0);
      StartNoStale(t);
    } else {
      Shorten(t, run);
      RunNoStale(t, run[..|run| - 1]);
      RunInv(t, run[..|run| - 1]);
      StepNoStale(t, run[|run| - 2], run[|run| - 1]);
    }
  }

  /** A tree that is responsive and tidy leaves no entry behind, in whatever order messages arrive. */
  lemma TidyLeavesNothing(t: Tree, run: seq<Wave>)
    requires Responsive(t) && Tidy(t) && Run(t, run) && Quiet(run[|run| - 1])
    ensures run[|run| - 1].entries == map[]
  {
    var s := run[|run| - 1];
    RunInv(t, run);
    RunNoStale(t, run);
    forall n | n in s.entries ensures false {
      AllCompleted(t, s, n);
    }
  }

  // ------------------------------------------- entries that only local children wake

  /** A delivery takes no entry off the list but the one the message is for. */
  lemma {:induction false} CreditKeepsEntries(t: Tree, s: Wave, x: Id)
    requires x in t.parent
    ensures s.entries.Keys - {t.parent[x]} <= Credit(t, s, x).entries.Keys
    ensures Local(t, x) ==> s.entries.Keys <= Credit(t, s, x).entries.Keys
    decreases t.height[t.root] - t.height[x]
  {
    var p := t.parent[x];
    if p in s.entries && s.entries[p].awaited == 1 && Local(t, p) {
      CreditKeepsEntries(t, Settle(s, p), p);
    }
  }

  /** All remote children of `p` have been counted off; what is missing is local. */
  ghost predicate LocalLast(t: Tree, s: Wave, p: Id) {
    && (forall k | k in t.parent && t.parent[k] == p && Remote(t, k) :: Credited(s, k))
    && p in s.entries
  }

  lemma RevokeLocalLast(t: Tree, s: Wave, m: Msg, p: Id)
    requires Inv(t, s) && LocalLast(t, s, p) && m.Revoke? && m in s.net && p in t.parent
    ensures m.cap in t.kids && LocalLast(t, HandleRevoke(t, s, m), p)
  {
    var c := m.cap;
    assert MsgOk(t, m) && Placed(t, s, c);
    var s' := HandleRevoke(t, s, m);
    RevokeView(t, s, c);
    assert After(t, s, c, s', p);
    forall k | k in t.parent && t.parent[k] == p && Remote(t, k) ensures Credited(s', k) {
      assert After(t, s, c, s', k) && Placed(t, s, k);
    }
  }

  lemma FinishLocalLast(t: Tree, s: Wave, m: Msg, p: Id)
    requires Inv(t, s) && LocalLast(t, s, p) && m.Finish? && m in s.net && p in t.parent
    ensures m.cap in t.parent && LocalLast(t, HandleFinish(t, s, m), p)
  {
    assert MsgOk(t, m);
    TakeFinishShape(t, s, m);
    TakeFinishTraffic(t, s, m);
    TakeFinishCounters(t, s, m);
    CreditProgress(t, TakeFinish(s, m), m.cap);
    CreditKeepsEntries(t, TakeFinish(s, m), m.cap);
  }

  lemma StepLocalLast(t: Tree, s: Wave, s': Wave, p: Id)
    requires Inv(t, s) && LocalLast(t, s, p) && Step(t, s, s') && p in t.parent
    ensures LocalLast(t, s', p)
  {
    if !(s.thread.Runnable? && s' == Resume(t, s)) {
      var m :| m in s.net && Deliver(t, s, m, s');
      match m
      case Revoke(_) => RevokeLocalLast(t, s, m, p);
      case Finish(_, _) => FinishLocalLast(t, s, m, p);
      case Ack(_) =>
    }
  }

  lemma {:induction false} RunLocalLast(t: Tree, run: seq<Wave>, i: nat, p: Id)
    requires Run(t, run) && i < |run| && LocalLast(t, run[i], p) && p in t.parent
    ensures LocalLast(t, run[|run| - 1], p)
  {
    if i < |run| - 1 {
      Shorten(t, run);
      RunLocalLast(t, run[..|run| - 1], i, p);
      RunInv(t, run[..|run| - 1]);
      StepLocalLast(t, run[|run| - 2], run[|run| - 1], p);
    }
  }

  /** Either `p` has not been revoked yet, or only a local child can complete it. */
  ghost predicate OnlyLocal(t: Tree, s: Wave, p: Id) {
    p in s.live || LocalLast(t, s, p)
  }

  ghost predicate NoRemoteKid(t: Tree, p: Id) {
    forall k | k in t.parent && t.parent[k] == p :: Local(t, k)
  }

  lemma {:induction false} StartOnlyLocal(t: Tree, p: Id)
    requires p in t.parent && Await(t, p) > 0 && NoRemoteKid(t, p)
    ensures OnlyLocal(t, Start(t), p)
  {
    StartView(t);
    StartInv(t);
    assert After(t, Initial(t), t.root, Start(t), p);
    assert Counted(t, Start(t), None, p);
  }

  lemma {:induction false} RevokeOnlyLocal(t: Tree, s: Wave, m: Msg, p: Id)
    requires Inv(t, s) && p in t.parent && Await(t, p) > 0 && NoRemoteKid(t, p) && p in s.live
    requires m.Revoke? && m in s.net
    ensures m.cap in t.kids && OnlyLocal(t, HandleRevoke(t, s, m), p)
  {
    var c := m.cap;
    assert MsgOk(t, m) && Placed(t, s, c) && Placed(t, s, p);
    var s' := HandleRevoke(t, s, m);
    RevokeView(t, s, c);
    RevokeKeepsInv(t, s, m);
    assert After(t, s, c, s', p) && Counted(t, s', None, p);
  }

  lemma {:induction false} StepOnlyLocal(t: Tree, s: Wave, s': Wave, p: Id)
    requires Inv(t, s) && p in t.parent && Await(t, p) > 0 && NoRemoteKid(t, p)
    requires OnlyLocal(t, s, p) && Step(t, s, s')
    ensures OnlyLocal(t, s', p)
  {
    if p !in s.live {
      StepLocalLast(t, s, s', p);
    } else if !(s.thread.Runnable? && s' == Resume(t, s)) {
      var m :| m in s.net && Deliver(t, s, m, s');
      match m
      case Revoke(_) => RevokeOnlyLocal(t, s, m, p);
      case Finish(_, _) => CreditLive(t, TakeFinish(s, m), m.cap);
      case Ack(_) =>
    }
  }

  lemma {:induction false} RunOnlyLocal(t: Tree, run: seq<Wave>, p: Id)
    requires Run(t, run) && p in t.parent && Await(t, p) > 0 && NoRemoteKid(t, p)
    ensures OnlyLocal(t, run[|run| - 1], p)
  {
    if |run| == 1 {
      assert StateAt(t, run, 0);
      StartOnlyLocal(t, p);
    } else {
      Shorten(t, run);
      RunOnlyLocal(t, run[..|run| - 1], p);
      RunInv(t, run[..|run| - 1]);
      StepOnlyLocal(t, run[|run| - 2], run[|run| - 1], p);
    }
  }

  /**
   A capability other than the origin that waits, and has no remote child, leaves its entry
   behind in every run.
   */
  lemma {:induction false} EveryRunLeaves(t: Tree, run: seq<Wave>, p: Id)
    requires Run(t, run) && Quiet(run[|run| - 1])
    requires p in t.parent && Await(t, p) > 0 && NoRemoteKid(t, p)
    ensures p in run[|run| - 1].entries
  {
    RunInv(t, run);
    RunOnlyLocal(t, run, p);
    AllRevoked(t, run[|run| - 1], p);
  }

  // --------------------------------------------------------- on ordered channels

  /** An ordered run can end with the entry of `p` on the list of its kernel. */
  ghost predicate CanStay(t: Tree, p: Id) {
    exists run :: OrderedRun(t, run) && Quiet(Last(run).wave) && p in Last(run).wave.entries
  }

  lemma QuietRun(t: Tree, run: seq<Logged>) returns (longer: seq<Logged>)
    requires OrderedRun(t, run)
    ensures OrderedRun(t, longer) && run <= longer && Quiet(Last(longer).wave)
  {
    longer := DriveOn(t, run, {});
    OrderedInv(t, longer, |longer| - 1);
    StuckQuiet(t, Last(longer));
  }

  lemma SomeQuietRun(t: Tree) returns (run: seq<Logged>)
    ensures OrderedRun(t, run) && Quiet(Last(run).wave)
  {
    var start := [OrderedStart(t)];
    assert OrderedAt(t, start, 0);
    run := QuietRun(t, start);
  }

  /** With nothing open beside `p`, only a local child can complete it. */
  lemma OpenNone(t: Tree, l: Logged, p: Id, r: Id)
    requires LogInv(t, l) && p in t.kids && r in RemoteEdges(t, p) && r in t.kids && Remote(t, r)
    requires Report(t, r) in l.wave.net && p !in l.wave.live && Open(t, l.wave, p) == {}
    ensures LocalLast(t, l.wave, p)
  {
    forall k | k in t.parent && t.parent[k] == p && Remote(t, k) ensures Credited(l.wave, k) {
      assert Above(t, k, k);
      InCalls(t, p, Report(t, k));
      assert Report(t, k) !in Open(t, l.wave, p);
    }
    EventState(t, l, Report(t, r));
    if p in l.wave.completed {
      NoOpenEdge(t, l.wave, p, r);
    }
    assert Counted(t, l.wave, None, p);
  }

  lemma OutlastedStays(t: Tree, p: Id)
    requires p in t.parent && Settles(t, p) && Outlasts(t, p)
    ensures CanStay(t, p)
  {
    hide Outlasts, Settles, LogInv, Open;
    var run, r := OutlastingRun(t, p);
    OrderedInv(t, run, |run| - 1);
    OpenNone(t, Last(run), p, r);
    var longer := QuietRun(t, run);
    OrderedIsRun(t, longer);
    assert Waves(longer)[|run| - 1] == Last(run).wave;
    RunLocalLast(t, Waves(longer), |run| - 1, p);
  }

  lemma {:induction false} UnsettledStays(t: Tree, run: seq<Logged>, p: Id)
    requires OrderedRun(t, run) && Quiet(Last(run).wave) && p in t.kids && Await(t, p) > 0 && !Settles(t, p)
    ensures p in Last(run).wave.entries
  {
    OrderedIsRun(t, run);
    TrafficByTree(t, Waves(run));
  }

  /**
   The entry of a waiting capability can stay behind if and only if it never completes, or
   what hangs below one of its local children can be held back past all that its remote
   children do.
   */
  lemma {:induction false} StaysIff(t: Tree, p: Id)
    requires p in t.parent && Await(t, p) > 0
    ensures CanStay(t, p) <==> !Settles(t, p) || Outlasts(t, p)
  {
    hide Settles, Outlasts, OrderedAt, Await;
    if !Settles(t, p) {
      var run := SomeQuietRun(t);
      UnsettledStays(t, run, p);
    } else if Outlasts(t, p) {
      OutlastedStays(t, p);
    } else if CanStay(t, p) {
      var run :| OrderedRun(t, run) && Quiet(Last(run).wave) && p in Last(run).wave.entries;
      StayedIsOutlasted(t, run, p);
    }
  }

  lemma {:induction false} StayedIsOutlasted(t: Tree, run: seq<Logged>, p: Id)
    requires OrderedRun(t, run) && Quiet(Last(run).wave) && p in Last(run).wave.entries
    requires p in t.parent && Await(t, p) > 0 && Settles(t, p)
    ensures Outlasts(t, p)
  {
    hide Settles, Outlasts, OrderedAt, Await;
    OrderedInv(t, run, |run| - 1);
    CompletedIffSettles(t, Last(run).wave, p);
    LeftIsOutlasted(t, run, p);
  }

  /** No ordered run leaves an entry behind. */
  ghost predicate NothingStays(t: Tree) {
    forall run :: OrderedRun(t, run) && Quiet(Last(run).wave) ==> Last(run).wave.entries == map[]
  }

  /**
   On ordered channels a revocation always cleans up after itself if and only if it is
   answered and no capability below the origin can be outlasted.
   */
  lemma {:induction false} NothingStaysIff(t: Tree)
    ensures NothingStays(t) <==>
            Responsive(t) && forall p | p in t.parent && Await(t, p) > 0 :: !Outlasts(t, p)
  {
    if NothingStays(t) {
      var run := SomeQuietRun(t);
      EmptyIsAnswered(t, run);
      forall p | p in t.parent && Await(t, p) > 0 ensures !Outlasts(t, p) {
        StaysIff(t, p);
      }
    } else {
      var run :| OrderedRun(t, run) && Quiet(Last(run).wave) && Last(run).wave.entries != map[];
      SomeoneStays(t, run);
    }
  }

  lemma EmptyIsAnswered(t: Tree, run: seq<Logged>)
    requires OrderedRun(t, run) && Quiet(Last(run).wave) && Last(run).wave.entries == map[]
    ensures Responsive(t)
  {
    OrderedIsRun(t, run);
    AnsweredIffResponsive(t, Waves(run));
    RunInv(t, Waves(run));
    assert Placed(t, Last(run).wave, t.root);
  }

  lemma {:induction false} SomeoneStays(t: Tree, run: seq<Logged>)
    requires OrderedRun(t, run) && Quiet(Last(run).wave) && Last(run).wave.entries != map[]
    ensures !(Responsive(t) && forall p | p in t.parent && Await(t, p) > 0 :: !Outlasts(t, p))
  {
    var s := Last(run).wave;
    OrderedIsRun(t, run);
    AnsweredIffResponsive(t, Waves(run));
    OrderedInv(t, run, |run| - 1);
    var p :| p in s.entries;
    assert Counted(t, s, None, p);
    if p != t.root && Responsive(t) {
      ResponsiveSettles(t);
      RootAbove(t, p);
      SettlesBelow(t, t.root, p);
      assert CanStay(t, p);
      StaysIff(t, p);
    }
  }
}

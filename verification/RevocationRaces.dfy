/**
 Which events of a revocation can be overtaken on ordered channels. A request or report
 that is held back holds back what was sent behind it on its channel, and all that needs
 it; as the held one moves on, so does what it holds back.
 */
module RevocationRaces {
  import opened Common
  import opened CapTree
  import opened RevocationWave
  import opened RevocationInvariant
  import opened RevocationTheorems
  import opened RevocationSettled
  import opened RevocationOrder
  import opened RevocationEvents

  // ----------------------------------------------------------------- dependency

  /** Event `e` is sent only after `a` has been taken, or is `a` itself. */
  predicate Needs(t: Tree, a: Msg, e: Msg)
    requires Event(t, a) && Event(t, e)
  {
    if a.Revoke? then Above(t, e.cap, a.cap) || (e.Finish? && Above(t, a.cap, e.cap))
    else e.Finish? && Above(t, a.cap, e.cap)
  }

  lemma {:induction false} LiveBelow(t: Tree, s: Wave, n: Id, a: Id)
    requires Inv(t, s) && n in t.kids && Above(t, n, a) && a in s.live
    ensures n in s.live
    decreases t.height[t.root] - t.height[n]
  {
    assert Placed(t, s, n);
    if n != a {
      LiveBelow(t, s, t.parent[n], a);
      assert Local(t, n) || Remote(t, n);
    }
  }

  lemma NeedsTaken(t: Tree, s: Wave, a: Msg, e: Msg)
    requires Inv(t, s) && Event(t, a) && Event(t, e) && Needs(t, a, e) && Sent(t, s, e) && a != e
    ensures Taken(t, s, a)
  {
    var y, z := a.cap, e.cap;
    assert Placed(t, s, z);
    if Above(t, z, y) && a.Revoke? {
      if y in s.live {
        if e.Revoke? {
          LiveBelow(t, s, t.parent[z], y);
        } else {
          LiveBelow(t, s, z, y);
        }
      }
    } else {
      CompletedBelow(t, s, y, z);
      assert Placed(t, s, y);
      if a.Finish? {
        CompletedBelow(t, s, t.parent[y], z);
        CompletedKids(t, s, y);
      }
    }
  }

  lemma TakenIsSent(t: Tree, s: Wave, e: Msg)
    requires Inv(t, s) && Event(t, e) && Taken(t, s, e)
    ensures Sent(t, s, e)
  {
    assert Placed(t, s, e.cap);
  }

  /** Everything that a taken event needs has been taken. */
  lemma TakenDown(t: Tree, s: Wave, a: Msg, e: Msg)
    requires Inv(t, s) && Event(t, a) && Event(t, e) && Needs(t, a, e) && Taken(t, s, e)
    ensures Taken(t, s, a)
  {
    TakenIsSent(t, s, e);
    if a != e {
      NeedsTaken(t, s, a, e);
    }
  }

  lemma NeedsTrans(t: Tree, a: Msg, b: Msg, e: Msg)
    requires Event(t, a) && Event(t, b) && Event(t, e) && Needs(t, a, b) && Needs(t, b, e)
    ensures Needs(t, a, e)
  {
    var x, y, z := a.cap, b.cap, e.cap;
    if Above(t, y, x) && Above(t, z, y) {
      AboveAbove(t, z, y, x);
    }
    if Above(t, y, x) && Above(t, y, z) {
      AboveLinear(t, y, x, z);
    }
    if Above(t, x, y) && Above(t, y, z) {
      AboveAbove(t, x, y, z);
    }
  }

  // ---------------------------------------------------------------- ordered runs

  /** A step takes the event that it delivers, and no other. */
  lemma StepTakes(t: Tree, l: Logged, l': Logged, e: Msg) returns (m: Option<Msg>)
    requires LogInv(t, l) && OrderedStep(t, l, l') && Event(t, e)
    ensures LogInv(t, l') && l.log <= l'.log
    ensures Taken(t, l.wave, e) ==> Taken(t, l'.wave, e)
    ensures Taken(t, l'.wave, e) && !Taken(t, l.wave, e) ==> m == Some(e)
    ensures m.Some? ==> forall x | x in l.log && x != m.value :: x in l.wave.net <==> x in l'.wave.net
    ensures m.None? ==> l'.wave.net == l.wave.net && l'.log == l.log
    ensures m.Some? ==> Delivers(t, l, m.value, l') && Effect(t, l, m.value, l')
  {
    OrderedStepKeeps(t, l, l');
    EventState(t, l, e);
    EventState(t, l', e);
    if l.wave.thread.Runnable? && l' == l.(wave := Resume(t, l.wave)) {
      m := None;
    } else {
      var x :| Delivers(t, l, x, l');
      DeliveryEffect(t, l, x, l');
      m := Some(x);
      hide LogInv, Taken, Sent, Emitted;
      forall y | y in l.log && y != x ensures y in l.wave.net <==> y in l'.wave.net {
        assert y in Emitted(t, l.wave, x) ==> New(t, l, x, y);
      }
      assert e in Emitted(t, l.wave, x) ==> New(t, l, x, e);
    }
  }

  lemma {:induction false} LogGrows(t: Tree, run: seq<Logged>, i: nat, j: nat)
    requires OrderedRun(t, run) && i <= j < |run|
    ensures run[i].log <= run[j].log
    decreases j
  {
    if i < j {
      LogGrows(t, run, i, j - 1);
      assert OrderedAt(t, run, j);
    }
  }

  lemma {:induction false} StaysTaken(t: Tree, run: seq<Logged>, i: nat, j: nat, e: Msg)
    requires OrderedRun(t, run) && i <= j < |run| && Event(t, e) && Taken(t, run[i].wave, e)
    ensures Taken(t, run[j].wave, e)
    decreases j
  {
    if i < j {
      StaysTaken(t, run, i, j - 1, e);
      OrderedInv(t, run, j - 1);
      assert OrderedAt(t, run, j);
      var m := StepTakes(t, run[j - 1], run[j], e);
    }
  }

  /** What was sent later on a channel is not taken before what was sent earlier. */
  lemma {:induction false} NoOvertaking(t: Tree, run: seq<Logged>, i: nat, j: nat, m: Msg, a: Msg)
    requires OrderedRun(t, run) && i <= j < |run| && Event(t, m) && Event(t, a)
    requires Channel(t, m) == Channel(t, a) && Sent(t, run[i].wave, m) && !Sent(t, run[i].wave, a)
    requires !Taken(t, run[j].wave, m)
    ensures !Taken(t, run[j].wave, a)
  {
    OrderedInv(t, run, i);
    OrderedInv(t, run, j);
    LogGrows(t, run, i, j);
    EventState(t, run[i], m);
    EventState(t, run[i], a);
    EventState(t, run[j], m);
    EventState(t, run[j], a);
  }

  // ------------------------------------------------------- what is held back

  /** The remote capabilities at or below the remote children of `p`. */
  function Beside(t: Tree, p: Id): set<Id> {
    set k | k in t.parent && Remote(t, k)
            && exists j | j in t.parent :: t.parent[j] == p && Remote(t, j) && Above(t, k, j)
  }

  /** Their events. */
  function Calls(t: Tree, p: Id): (r: set<Msg>)
    ensures forall e :: e in r ==> Event(t, e)
  {
    (set k | k in Beside(t, p) :: Revoke(k)) + (set k | k in Beside(t, p) && k in t.kids :: Report(t, k))
  }

  lemma InCalls(t: Tree, p: Id, e: Msg)
    ensures e in Calls(t, p) <==> Event(t, e) && e.cap in Beside(t, p)
  {
    if Event(t, e) {
      assert e == Revoke(e.cap) || e == Report(t, e.cap);
    }
  }

  /** What of `held` stays held back when only the messages on channel `ch` are. */
  function Rest(t: Tree, held: set<Msg>, ch: (Kernel, Kernel)): (r: set<Msg>)
    requires forall e :: e in held ==> Event(t, e)
    ensures r <= held
  {
    set e | e in held && exists a | a in held :: Channel(t, a) == ch && Needs(t, a, e)
  }

  /** All of `held` is on channel `ch`, or needs something of it. */
  ghost predicate HeldBy(t: Tree, held: set<Msg>, ch: (Kernel, Kernel)) {
    && (forall e :: e in held ==> Event(t, e))
    && forall e {:trigger e in held} :: e in held ==>
         Channel(t, e) == ch || exists a :: a in held && a != e && Needs(t, a, e)
  }

  lemma RestHeldBy(t: Tree, held: set<Msg>, ch: (Kernel, Kernel))
    requires forall e :: e in held ==> Event(t, e)
    ensures HeldBy(t, Rest(t, held, ch), ch)
  {
    var r := Rest(t, held, ch);
    forall e | e in r ensures Channel(t, e) == ch || exists a :: a in r && a != e && Needs(t, a, e) {
      var a :| a in held && Channel(t, a) == ch && Needs(t, a, e);
      assert Needs(t, a, a);
      assert a in r;
    }
  }

  /**
   `rest` can be what is still held back when the report of `x` is held back, if `held`
   was when the request for `x` was: one of its remote edges, the last to report, passes
   it on.
   */
  ghost predicate Reaches(t: Tree, held: set<Msg>, x: Id, rest: set<Msg>)
    requires x in t.kids && forall e :: e in held ==> Event(t, e)
    decreases t.height[x]
  {
    if Await(t, x) == 0 then rest == Rest(t, held, Channel(t, Report(t, x)))
    else exists y, mid: set<Msg> :: Through(t, held, x, y, mid) && rest == Rest(t, mid, Channel(t, Report(t, x)))
  }

  ghost predicate Through(t: Tree, held: set<Msg>, x: Id, y: Id, mid: set<Msg>)
    requires x in t.kids && forall e :: e in held ==> Event(t, e)
    decreases t.height[x], 0
  {
    && y in RemoteEdges(t, x) && Lower(t, x, y)
    && Reaches(t, Rest(t, held, Channel(t, Revoke(y))), y, mid)
    && forall e :: e in mid ==> Event(t, e)
  }

  predicate Lower(t: Tree, x: Id, y: Id)
    requires x in t.kids
  {
    y in t.kids && t.height[y] < t.height[x]
  }
}

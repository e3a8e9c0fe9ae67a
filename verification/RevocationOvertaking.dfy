/** What an ordered run can leave behind needs an event that can be held back long enough. */
module RevocationOvertaking {
  import opened Common
  import opened CapTree
  import opened RevocationWave
  import opened RevocationInvariant
  import opened RevocationTheorems
  import opened RevocationSettled
  import opened RevocationOrder
  import opened RevocationEvents
  import opened RevocationRaces

  // -------------------------------------------------------- holding back in a run

  ghost predicate HoldsAt(t: Tree, run: seq<Logged>, e: Msg, held: set<Msg>, i: nat)
    requires i < |run| && Event(t, e) && forall a :: a in held ==> Event(t, a)
  {
    !Taken(t, run[i].wave, e) ==> forall a | a in held :: !Taken(t, run[i].wave, a)
  }

  /** As long as `e` has not been taken, nothing of `held` has. */
  ghost predicate Holds(t: Tree, run: seq<Logged>, e: Msg, held: set<Msg>) {
    && Event(t, e) && (forall a :: a in held ==> Event(t, a))
    && forall i {:trigger HoldsAt(t, run, e, held, i)} :: 0 <= i < |run| ==> HoldsAt(t, run, e, held, i)
  }

  lemma NothingTakenAtStart(t: Tree, e: Msg)
    requires Event(t, e)
    ensures !Taken(t, Start(t), e)
  {
    StartView(t);
    assert RevocationInvariant.After(t, Initial(t), t.root, Start(t), e.cap);
  }

  /** The state in which an event was taken. */
  lemma {:induction false} WhenTaken(t: Tree, run: seq<Logged>, i: nat, e: Msg) returns (f: nat)
    requires OrderedRun(t, run) && i < |run| && Event(t, e) && Taken(t, run[i].wave, e)
    ensures 0 < f <= i && Taken(t, run[f].wave, e) && !Taken(t, run[f - 1].wave, e)
  {
    assert OrderedAt(t, run, i);
    if i == 0 {
      NothingTakenAtStart(t, e);
    } else if Taken(t, run[i - 1].wave, e) {
      f := WhenTaken(t, run, i - 1, e);
    } else {
      f := i;
    }
  }

  /** Two events are not taken in the same step. */
  lemma TakesOne(t: Tree, l: Logged, l': Logged, a: Msg, b: Msg)
    requires LogInv(t, l) && OrderedStep(t, l, l') && Event(t, a) && Event(t, b)
    requires Taken(t, l'.wave, a) && !Taken(t, l.wave, a) && Taken(t, l'.wave, b) && !Taken(t, l.wave, b)
    ensures a == b
  {
    hide LogInv, OrderedStep, Taken, Sent, Delivers, Emitted, New;
    var m := StepTakes(t, l, l', a);
    EventState(t, l, b);
    EventState(t, l', b);
  }

  lemma OneAtATime(t: Tree, run: seq<Logged>, f: nat, a: Msg, b: Msg)
    requires OrderedRun(t, run) && 0 < f < |run| && Event(t, a) && Event(t, b)
    requires Taken(t, run[f].wave, a) && !Taken(t, run[f - 1].wave, a)
    requires Taken(t, run[f].wave, b) && !Taken(t, run[f - 1].wave, b)
    ensures a == b
  {
    hide LogInv, OrderedStep, Taken, Event;
    OrderedInv(t, run, f - 1);
    assert OrderedAt(t, run, f);
    TakesOne(t, run[f - 1], run[f], a, b);
  }

  /**
   While `e` holds `held` back and `next` is sent as soon as `e` is taken, `next` holds
   back what of `held` goes over its channel, and all that needs it.
   */
  lemma {:induction false} HoldsOn(t: Tree, run: seq<Logged>, e: Msg, held: set<Msg>, next: Msg)
    requires OrderedRun(t, run) && Holds(t, run, e, held) && HeldBy(t, held, Channel(t, e)) && e !in held
    requires Event(t, next) && Channel(t, next) != Channel(t, e)
    requires forall i | 0 <= i < |run| && Taken(t, run[i].wave, e) :: Sent(t, run[i].wave, next)
    requires forall i | 0 <= i < |run| && Taken(t, run[i].wave, next) :: Taken(t, run[i].wave, e)
    ensures Holds(t, run, next, Rest(t, held, Channel(t, next)))
    ensures HeldBy(t, Rest(t, held, Channel(t, next)), Channel(t, next))
  {
    var rest := Rest(t, held, Channel(t, next));
    RestHeldBy(t, held, Channel(t, next));
    forall i | 0 <= i < |run| ensures HoldsAt(t, run, next, rest, i) {
      if !Taken(t, run[i].wave, next) {
        forall c | c in rest ensures !Taken(t, run[i].wave, c) {
          if !Taken(t, run[i].wave, e) {
            assert HoldsAt(t, run, e, held, i);
          } else {
            var a :| a in held && Channel(t, a) == Channel(t, next) && Needs(t, a, c);
            NotYetTaken(t, run, e, held, next, i, a);
            if Taken(t, run[i].wave, c) {
              OrderedInv(t, run, i);
              TakenDown(t, run[i].wave, a, c);
            }
          }
        }
      }
    }
  }

  lemma {:induction false} NotYetTaken(t: Tree, run: seq<Logged>, e: Msg, held: set<Msg>, next: Msg, i: nat, a: Msg)
    requires OrderedRun(t, run) && Holds(t, run, e, held) && HeldBy(t, held, Channel(t, e)) && e !in held
    requires Event(t, next) && Channel(t, next) != Channel(t, e)
    requires forall i | 0 <= i < |run| && Taken(t, run[i].wave, e) :: Sent(t, run[i].wave, next)
    requires i < |run| && Taken(t, run[i].wave, e) && !Taken(t, run[i].wave, next)
    requires a in held && Channel(t, a) == Channel(t, next)
    ensures !Taken(t, run[i].wave, a)
  {
    var f := WhenTaken(t, run, i, e);
    assert HoldsAt(t, run, e, held, f - 1);
    var b :| b in held && b != a && Needs(t, b, a);
    assert !Sent(t, run[f].wave, a) by {
      if Sent(t, run[f].wave, a) {
        OrderedInv(t, run, f);
        NeedsTaken(t, run[f].wave, b, a);
        OneAtATime(t, run, f, b, e);
      }
    }
    NoOvertaking(t, run, f, i, next, a);
  }

  // ------------------------------------------------------------- along the edges

  lemma {:induction false} SameHome(t: Tree, n: Id, c: Id)
    requires n in t.kids && Under(t, n, c)
    ensures Home(t, n) == Home(t, c)
  {
    UnderIsLower(t, n, c);
  }

  lemma {:induction false} EdgeLower(t: Tree, x: Id, y: Id)
    requires x in t.kids && y in RemoteEdges(t, x)
    ensures Lower(t, x, y) && Remote(t, y) && Above(t, y, x) && y != x
  {
    UnderIsLower(t, t.parent[y], x);
    UnderAbove(t, t.parent[y], x);
  }

  /** The channels of an edge and the next one are different. */
  lemma {:induction false} ChannelsDiffer(t: Tree, x: Id, y: Id)
    requires Remote(t, x) && (y == x || y in RemoteEdges(t, x))
    ensures Channel(t, Revoke(x)) != Channel(t, Report(t, x))
    ensures y != x ==> Channel(t, Revoke(x)) != Channel(t, Revoke(y))
    ensures y != x ==> y in t.kids && Channel(t, Report(t, y)) != Channel(t, Report(t, x))
  {
    if y != x {
      SameHome(t, t.parent[y], x);
    }
  }

  /** Nothing at or below `r` is beside a path over the local child that `r` hangs from. */
  lemma {:induction false} NotBeside(t: Tree, p: Id, r: Id, x: Id)
    requires p in t.kids && r in RemoteEdges(t, p) && t.parent[r] != p && x in t.kids && Above(t, x, r)
    ensures x !in Beside(t, p)
  {
    var i := UnderSomeKid(t, t.parent[r], p);
    var k := t.kids[p][i];
    UnderAbove(t, t.parent[r], k);
    AboveTrans(t, x, r);
    AboveAbove(t, x, t.parent[r], k);
    if x in Beside(t, p) {
      var j :| j in t.parent && t.parent[j] == p && Remote(t, j) && Above(t, x, j);
      OneKidAbove(t, x, j, k);
    }
  }

  lemma {:induction false} LocalLive(t: Tree, s: Wave, c: Id, n: Id)
    requires Inv(t, s) && n in t.kids && Under(t, n, c)
    ensures n in s.live <==> c in s.live
    decreases t.height[t.root] - t.height[n]
  {
    if n != c {
      LocalLive(t, s, c, t.parent[n]);
      assert Placed(t, s, n);
    }
  }

  /** The edges of `x` are asked for when the request for `x` is taken. */
  lemma AskedOnTaking(t: Tree, s: Wave, x: Id, y: Id)
    requires Inv(t, s) && Remote(t, x) && y in RemoteEdges(t, x)
    ensures Taken(t, s, Revoke(x)) <==> Sent(t, s, Revoke(y))
  {
    LocalLive(t, s, x, t.parent[y]);
  }

  lemma {:induction false} LeafReports(t: Tree, s: Wave, x: Id)
    requires Inv(t, s) && Remote(t, x) && Await(t, x) == 0
    ensures Taken(t, s, Revoke(x)) ==> Sent(t, s, Report(t, x))
  {
    assert Placed(t, s, x);
  }

  lemma {:induction false} WaitingAtStart(t: Tree, x: Id)
    requires x in t.kids && Await(t, x) > 0
    ensures x !in Start(t).completed
  {
    StartView(t);
    assert RevocationInvariant.After(t, Initial(t), t.root, Start(t), x);
  }

  lemma {:induction false} Completes(t: Tree, run: seq<Logged>, i: nat, x: Id) returns (f: nat)
    requires OrderedRun(t, run) && i < |run| && x in t.kids && Await(t, x) > 0 && x in run[i].wave.completed
    ensures 0 < f <= i && x in run[f].wave.completed && x !in run[f - 1].wave.completed
  {
    assert OrderedAt(t, run, i);
    if i == 0 {
      WaitingAtStart(t, x);
    } else if x in run[i - 1].wave.completed {
      f := Completes(t, run, i - 1, x);
    } else {
      f := i;
    }
  }

  lemma {:induction false} StaysCompleted(t: Tree, run: seq<Logged>, i: nat, j: nat, x: Id)
    requires OrderedRun(t, run) && i <= j < |run| && x in run[i].wave.completed
    ensures x in run[j].wave.completed
    decreases j
  {
    if i < j {
      StaysCompleted(t, run, i, j - 1, x);
      OrderedInv(t, run, j - 1);
      assert OrderedAt(t, run, j);
      StepCompleted(t, run[j - 1], run[j]);
    }
  }

  lemma StepCompleted(t: Tree, l: Logged, l': Logged)
    requires LogInv(t, l) && OrderedStep(t, l, l')
    ensures l.wave.completed <= l'.wave.completed
  {
    if !(l.wave.thread.Runnable? && l' == l.(wave := Resume(t, l.wave))) {
      var m :| Delivers(t, l, m, l');
      if m.Finish? {
        TakeFinishShape(t, l.wave, m);
        TakeFinishTraffic(t, l.wave, m);
        TakeFinishCounters(t, l.wave, m);
        CreditKeepsInv(t, TakeFinish(l.wave, m), m.cap);
      }
    }
  }

  /** An edge that has not reported in the state before `x` completes, or at all. */
  lemma LastEdge(t: Tree, run: seq<Logged>, x: Id) returns (y: Id)
    requires OrderedRun(t, run) && x in t.kids && Settles(t, x) && Await(t, x) > 0
    ensures y in RemoteEdges(t, x) && y in t.kids
    ensures forall i | 0 <= i < |run| && Credited(run[i].wave, y) :: x in run[i].wave.completed
  {
    var last := |run| - 1;
    if x in run[last].wave.completed {
      var f := Completes(t, run, last, x);
      y := OpenOrLive(t, run, f - 1, x);
      forall i | 0 <= i < |run| && Credited(run[i].wave, y) ensures x in run[i].wave.completed {
        if i < f {
          StaysTaken(t, run, i, f - 1, Report(t, y));
        } else {
          StaysCompleted(t, run, f, i, x);
        }
      }
    } else {
      y := OpenOrLive(t, run, last, x);
      forall i | 0 <= i < |run| ensures !Credited(run[i].wave, y) {
        if Credited(run[i].wave, y) {
          StaysTaken(t, run, i, last, Report(t, y));
        }
      }
    }
  }

  lemma OpenOrLive(t: Tree, run: seq<Logged>, i: nat, x: Id) returns (y: Id)
    requires OrderedRun(t, run) && i < |run| && x in t.kids && Settles(t, x) && Await(t, x) > 0
    requires x !in run[i].wave.completed
    ensures y in RemoteEdges(t, x) && y in t.kids && !Credited(run[i].wave, y)
  {
    OrderedInv(t, run, i);
    var s := run[i].wave;
    if x in s.live {
      AwaitCountsRemoteEdges(t, x);
      y :| y in RemoteEdges(t, x);
      EdgeLower(t, x, y);
      LiveBelow(t, s, y, x);
      assert Placed(t, s, y);
    } else {
      y := OpenEdge(t, s, x);
    }
  }

  /** Following the edges that report last, what is held back by a request reaches its report. */
  lemma {:induction false} Critical(t: Tree, run: seq<Logged>, p: Id, r: Id, x: Id, held: set<Msg>)
    returns (rest: set<Msg>)
    requires OrderedRun(t, run) && p in t.kids && r in RemoteEdges(t, p) && t.parent[r] != p
    requires Remote(t, x) && Above(t, x, r) && Settles(t, x)
    requires held <= Calls(t, p) && Holds(t, run, Revoke(x), held) && HeldBy(t, held, Channel(t, Revoke(x)))
    ensures Reaches(t, held, x, rest) && rest <= Calls(t, p)
    ensures Holds(t, run, Report(t, x), rest) && HeldBy(t, rest, Channel(t, Report(t, x)))
    decreases t.height[x]
  {
    NotBeside(t, p, r, x);
    InCalls(t, p, Revoke(x));
    ChannelsDiffer(t, x, x);
    if Await(t, x) == 0 {
      rest := Rest(t, held, Channel(t, Report(t, x)));
      forall i | 0 <= i < |run|
        ensures Taken(t, run[i].wave, Revoke(x)) ==> Sent(t, run[i].wave, Report(t, x))
        ensures Taken(t, run[i].wave, Report(t, x)) ==> Taken(t, run[i].wave, Revoke(x))
      {
        OrderedInv(t, run, i);
        LeafReports(t, run[i].wave, x);
        if Taken(t, run[i].wave, Report(t, x)) {
          TakenDown(t, run[i].wave, Revoke(x), Report(t, x));
        }
      }
      HoldsOn(t, run, Revoke(x), held, Report(t, x));
    } else {
      var y := LastEdge(t, run, x);
      EdgeLower(t, x, y);
      AboveAbove(t, y, x, r);
      SettlesBelow(t, x, y);
      HoldsDown(t, run, x, y, held);
      var mid := Critical(t, run, p, r, y, Rest(t, held, Channel(t, Revoke(y))));
      HoldsUp(t, run, p, r, x, y, mid);
      rest := Rest(t, mid, Channel(t, Report(t, x)));
      assert Through(t, held, x, y, mid);
    }
  }

  lemma {:induction false} HoldsDown(t: Tree, run: seq<Logged>, x: Id, y: Id, held: set<Msg>)
    requires OrderedRun(t, run) && Remote(t, x) && y in RemoteEdges(t, x) && Revoke(x) !in held
    requires Holds(t, run, Revoke(x), held) && HeldBy(t, held, Channel(t, Revoke(x)))
    ensures Remote(t, y) && Holds(t, run, Revoke(y), Rest(t, held, Channel(t, Revoke(y))))
    ensures HeldBy(t, Rest(t, held, Channel(t, Revoke(y))), Channel(t, Revoke(y)))
  {
    EdgeLower(t, x, y);
    ChannelsDiffer(t, x, y);
    forall i | 0 <= i < |run|
      ensures Taken(t, run[i].wave, Revoke(x)) ==> Sent(t, run[i].wave, Revoke(y))
      ensures Taken(t, run[i].wave, Revoke(y)) ==> Taken(t, run[i].wave, Revoke(x))
    {
      OrderedInv(t, run, i);
      AskedOnTaking(t, run[i].wave, x, y);
      if Taken(t, run[i].wave, Revoke(y)) {
        TakenIsSent(t, run[i].wave, Revoke(y));
      }
    }
    HoldsOn(t, run, Revoke(x), held, Revoke(y));
  }

  lemma {:induction false} HoldsUp(t: Tree, run: seq<Logged>, p: Id, r: Id, x: Id, y: Id, mid: set<Msg>)
    requires OrderedRun(t, run) && p in t.kids && r in RemoteEdges(t, p) && t.parent[r] != p
    requires Remote(t, x) && y in RemoteEdges(t, x) && y in t.kids && Above(t, y, r) && mid <= Calls(t, p)
    requires Remote(t, y) && Holds(t, run, Report(t, y), mid) && HeldBy(t, mid, Channel(t, Report(t, y)))
    requires forall i | 0 <= i < |run| && Credited(run[i].wave, y) :: x in run[i].wave.completed
    ensures Holds(t, run, Report(t, x), Rest(t, mid, Channel(t, Report(t, x))))
    ensures HeldBy(t, Rest(t, mid, Channel(t, Report(t, x))), Channel(t, Report(t, x)))
  {
    NotBeside(t, p, r, y);
    InCalls(t, p, Report(t, y));
    EdgeLower(t, x, y);
    ChannelsDiffer(t, x, y);
    forall i | 0 <= i < |run|
      ensures Taken(t, run[i].wave, Report(t, y)) ==> Sent(t, run[i].wave, Report(t, x))
      ensures Taken(t, run[i].wave, Report(t, x)) ==> Taken(t, run[i].wave, Report(t, y))
    {
      OrderedInv(t, run, i);
      if Taken(t, run[i].wave, Report(t, x)) {
        TakenDown(t, run[i].wave, Report(t, y), Report(t, x));
      }
    }
    HoldsOn(t, run, Report(t, y), mid, Report(t, x));
  }

  // ---------------------------------------------------------------- the beginning

  /** The request `a` goes out before the one for `r`, in the same traversal. */
  ghost predicate Ahead(t: Tree, p: Id, a: Msg, r: Id)
    requires p in t.kids
  {
    a.Revoke? && Before(Order(t, Top(t, p)), a.cap, r)
  }

  /** What is held back beside `p` when the request for `r` is. */
  ghost function Behind(t: Tree, p: Id, r: Id): (held: set<Msg>)
    requires p in t.kids
    ensures held <= Calls(t, p)
  {
    set e | e in Calls(t, p)
            && exists a | a in Calls(t, p) ::
                 Channel(t, a) == Channel(t, Revoke(r)) && !Ahead(t, p, a, r) && Needs(t, a, e)
  }

  lemma {:induction false} BehindHeldBy(t: Tree, p: Id, r: Id)
    requires p in t.kids
    ensures HeldBy(t, Behind(t, p, r), Channel(t, Revoke(r)))
  {
    var held, ch := Behind(t, p, r), Channel(t, Revoke(r));
    forall e | e in held ensures Channel(t, e) == ch || exists a :: a in held && a != e && Needs(t, a, e) {
      var a :| a in Calls(t, p) && Channel(t, a) == ch && !Ahead(t, p, a, r) && Needs(t, a, e);
      assert Needs(t, a, a);
      assert a in held;
    }
  }

  /** The remote child of `p` that an event beside `p` belongs to; its request comes first. */
  lemma BranchOf(t: Tree, p: Id, a: Msg) returns (j: Id)
    requires a in Calls(t, p)
    ensures j in t.parent && t.parent[j] == p && Remote(t, j) && Above(t, a.cap, j)
    ensures Needs(t, Revoke(j), a) && Revoke(j) in Calls(t, p)
  {
    InCalls(t, p, a);
    j :| j in t.parent && t.parent[j] == p && Remote(t, j) && Above(t, a.cap, j);
    assert Above(t, j, j);
    InCalls(t, p, Revoke(j));
  }

  /** Nothing beside `p` is sent before `p` is revoked. */
  lemma SentAfterParent(t: Tree, s: Wave, p: Id, a: Msg)
    requires Inv(t, s) && a in Calls(t, p) && Sent(t, s, a)
    ensures p !in s.live
  {
    var j := BranchOf(t, p, a);
    if a != Revoke(j) {
      NeedsTaken(t, s, Revoke(j), a);
      TakenIsSent(t, s, Revoke(j));
    }
  }

  /** The first state in which the request for `r` has been sent. */
  lemma {:induction false} WhenAsked(t: Tree, run: seq<Logged>, i: nat, r: Id) returns (f: nat)
    requires OrderedRun(t, run) && i < |run| && Remote(t, r) && Sent(t, run[i].wave, Revoke(r))
    ensures f <= i && Sent(t, run[f].wave, Revoke(r))
    ensures f > 0 ==> !Sent(t, run[f - 1].wave, Revoke(r))
  {
    if i > 0 && Sent(t, run[i - 1].wave, Revoke(r)) {
      f := WhenAsked(t, run, i - 1, r);
    } else {
      f := i;
    }
  }

  /** At that moment nothing beside `p` has been taken. */
  lemma NothingYet(t: Tree, run: seq<Logged>, f: nat, p: Id, r: Id, c: Msg)
    requires OrderedRun(t, run) && f < |run| && p in t.kids && r in RemoteEdges(t, p) && c in Calls(t, p)
    requires Remote(t, r) && (f > 0 ==> !Sent(t, run[f - 1].wave, Revoke(r)))
    ensures !Taken(t, run[f].wave, c)
  {
    hide LogInv, OrderedStep, Start, Calls, Taken, RemoteEdges;
    assert OrderedAt(t, run, f);
    if f == 0 {
      NothingTakenAtStart(t, c);
    } else {
      OrderedInv(t, run, f - 1);
      NoneSentBeside(t, run[f - 1], p, r, c);
      NotSentNotTaken(t, run[f - 1], run[f], c);
    }
  }

  lemma NoneSentBeside(t: Tree, l: Logged, p: Id, r: Id, c: Msg)
    requires LogInv(t, l) && p in t.kids && r in RemoteEdges(t, p) && c in Calls(t, p)
    requires Remote(t, r) && !Sent(t, l.wave, Revoke(r))
    ensures !Sent(t, l.wave, c)
  {
    LocalLive(t, l.wave, p, t.parent[r]);
    if Sent(t, l.wave, c) {
      SentAfterParent(t, l.wave, p, c);
    }
  }

  lemma NotSentNotTaken(t: Tree, l: Logged, l': Logged, c: Msg)
    requires LogInv(t, l) && OrderedStep(t, l, l') && Event(t, c) && !Sent(t, l.wave, c)
    ensures !Taken(t, l'.wave, c)
  {
    EventState(t, l, c);
    var m := StepTakes(t, l, l', c);
  }

  /** What is in the log before the request for `r` is ahead of it in the traversal. */
  lemma EarlierIsAhead(t: Tree, run: seq<Logged>, i: nat, p: Id, r: Id, a: Msg)
    requires OrderedRun(t, run) && i < |run| && p in t.kids && r in RemoteEdges(t, p) && Remote(t, r)
    requires a in Calls(t, p) && t.parent[r] != p && Before(run[i].log, a, Revoke(r))
    ensures Ahead(t, p, a, r)
  {
    OrderedInv(t, run, i);
    EventState(t, run[i], Revoke(r));
    var f := WhenAsked(t, run, i, r);
    OrderedInv(t, run, f);
    LogGrows(t, run, f, i);
    EventState(t, run[f], Revoke(r));
    assert a in run[f].log by {
      EarlierInPrefix(run[f].log, run[i].log, a, Revoke(r));
    }
    EventState(t, run[f], a);
    var j := BranchOf(t, p, a);
    NothingYet(t, run, f, p, r, Revoke(j));
    if a != Revoke(j) {
      NeedsTaken(t, run[f].wave, Revoke(j), a);
    }
    OrderOfTwo(t, run[i], p, r, j);
  }

  lemma EarlierInPrefix(short: seq<Msg>, long: seq<Msg>, a: Msg, b: Msg)
    requires short <= long && Distinct(long) && Before(long, a, b) && b in short
    ensures a in short
  {
    var x, y :| 0 <= x < y < |long| && long[x] == a && long[y] == b;
    var z :| 0 <= z < |short| && short[z] == b;
    assert long[z] == b;
    assert short[x] == a;
  }

  lemma {:induction false} OrderOfTwo(t: Tree, l: Logged, p: Id, r: Id, j: Id)
    requires LogInv(t, l) && p in t.kids && r in RemoteEdges(t, p) && Remote(t, r)
    requires Remote(t, j) && t.parent[j] == p && j != r
    requires Before(l.log, Revoke(j), Revoke(r))
    ensures Before(Order(t, Top(t, p)), j, r)
  {
    var c := Top(t, p);
    UnderTrans(t, t.parent[r], p, c);
    TopUnique(t, t.parent[r], c);
    OrderMembers(t, c);
    var ids := Order(t, c);
    assert j in ids && r in ids;
    var u :| 0 <= u < |ids| && ids[u] == j;
    var v :| 0 <= v < |ids| && ids[v] == r;
    assert InTurn(t, l.log, r, j);
    hide Order, Inv, Logging, Fifo;
    if v < u {
      assert Before(ids, r, j);
      NotBothWays(l.log, Revoke(j), Revoke(r));
    }
  }

  lemma NotBothWays(log: seq<Msg>, a: Msg, b: Msg)
    requires Distinct(log) && Before(log, a, b)
    ensures !Before(log, b, a)
  {
  }

  lemma BehindHolds(t: Tree, run: seq<Logged>, p: Id, r: Id)
    requires OrderedRun(t, run) && p in t.kids && r in RemoteEdges(t, p) && Remote(t, r) && t.parent[r] != p
    ensures Holds(t, run, Revoke(r), Behind(t, p, r))
  {
    var held := Behind(t, p, r);
    forall i | 0 <= i < |run| ensures HoldsAt(t, run, Revoke(r), held, i) {
      if !Taken(t, run[i].wave, Revoke(r)) {
        forall e | e in held ensures !Taken(t, run[i].wave, e) {
          var a :| a in Calls(t, p) && Channel(t, a) == Channel(t, Revoke(r)) && !Ahead(t, p, a, r) && Needs(t, a, e);
          GeneratorHeld(t, run, i, p, r, a);
          OrderedInv(t, run, i);
          if Taken(t, run[i].wave, e) {
            TakenDown(t, run[i].wave, a, e);
          }
        }
      }
    }
  }

  lemma {:induction false} GeneratorHeld(t: Tree, run: seq<Logged>, i: nat, p: Id, r: Id, a: Msg)
    requires OrderedRun(t, run) && p in t.kids && r in RemoteEdges(t, p) && Remote(t, r) && t.parent[r] != p
    requires i < |run| && a in Calls(t, p) && Channel(t, a) == Channel(t, Revoke(r)) && !Ahead(t, p, a, r)
    requires !Taken(t, run[i].wave, Revoke(r))
    ensures !Taken(t, run[i].wave, a)
  {
    OrderedInv(t, run, i);
    if Taken(t, run[i].wave, a) {
      TakenIsSent(t, run[i].wave, a);
      SentAfterParent(t, run[i].wave, p, a);
      LocalLive(t, run[i].wave, p, t.parent[r]);
      EventState(t, run[i], a);
      EventState(t, run[i], Revoke(r));
      TakenFirst(t, run[i], Revoke(r), a);
      EarlierIsAhead(t, run, i, p, r, a);
    }
  }

  /** Of two messages of a channel, the taken one was sent first. */
  lemma {:induction false} TakenFirst(t: Tree, l: Logged, m: Msg, a: Msg)
    requires LogInv(t, l) && m in l.log && a in l.log && Channel(t, m) == Channel(t, a)
    requires m in l.wave.net && a !in l.wave.net
    ensures Before(l.log, a, m)
  {
    var x :| 0 <= x < |l.log| && l.log[x] == m;
    var y :| 0 <= y < |l.log| && l.log[y] == a;
    hide Inv, Logging, InTurn;
    assert y < x;
  }

  // ------------------------------------------------------------------ the end

  /**
   A request below a local child of `p` can be held back, along with what follows from it,
   until everything beside it has been reported.
   */
  ghost predicate Outlasts(t: Tree, p: Id)
    requires p in t.kids
  {
    exists r :: r in RemoteEdges(t, p) && r in t.kids && t.parent[r] != p && Reaches(t, Behind(t, p, r), r, {})
  }

  /** An entry that is completed by the report of a remote child is removed, for good. */
  lemma RemovedByChild(t: Tree, l: Logged, l': Logged, r: Id)
    requires LogInv(t, l) && Remote(t, r) && t.parent[r] != t.root && Delivers(t, l, Report(t, r), l')
    requires t.parent[r] !in l.wave.completed && t.parent[r] in l'.wave.completed
    ensures t.parent[r] !in l'.wave.entries
  {
    var s, m, p := l.wave, Report(t, r), t.parent[r];
    TakeFinishCounters(t, s, m);
    assert Counted(t, s, None, p);
  }

  lemma {:induction false} CreditAdds(t: Tree, s: Wave, x: Id)
    requires x in t.parent
    ensures Credit(t, s, x).entries.Keys <= s.entries.Keys
    decreases t.height[t.root] - t.height[x]
  {
    var p := t.parent[x];
    if p in s.entries && s.entries[p].awaited == 1 && Local(t, p) {
      CreditAdds(t, Settle(s, p), p);
    }
  }

  lemma NotAddedAgain(t: Tree, l: Logged, l': Logged, p: Id)
    requires LogInv(t, l) && OrderedStep(t, l, l') && p in l.wave.completed && p !in l.wave.entries
    ensures p !in l'.wave.entries
  {
    assert Placed(t, l.wave, p);
    if !(l.wave.thread.Runnable? && l' == l.(wave := Resume(t, l.wave))) {
      var m :| Delivers(t, l, m, l');
      match m {
        case Revoke(c) =>
          assert MsgOk(t, m) && Placed(t, l.wave, c);
          RevokeView(t, l.wave, c);
          assert RevocationInvariant.After(t, l.wave, c, l'.wave, p);
          if Under(t, p, c) {
            StillLive(t, l.wave, c, p);
          }
        case Finish(x, _) =>
          CreditAdds(t, TakeFinish(l.wave, m), x);
        case Ack(_) =>
      }
    }
  }

  lemma {:induction false} NeverAddedAgain(t: Tree, run: seq<Logged>, i: nat, j: nat, p: Id)
    requires OrderedRun(t, run) && i <= j < |run| && p in run[i].wave.completed && p !in run[i].wave.entries
    ensures p !in run[j].wave.entries
    decreases j
  {
    if i < j {
      NeverAddedAgain(t, run, i, j - 1, p);
      StaysCompleted(t, run, i, j - 1, p);
      OrderedInv(t, run, j - 1);
      assert OrderedAt(t, run, j);
      NotAddedAgain(t, run[j - 1], run[j], p);
    }
  }

  /** The report of `r` is what completes `p`; all other edges have reported before. */
  lemma LastReport(t: Tree, run: seq<Logged>, p: Id, f: nat, r: Id, x: Id)
    requires OrderedRun(t, run) && p in t.kids && 0 < f < |run| && p in run[f].wave.completed
    requires r in RemoteEdges(t, p) && r in t.kids && !Credited(run[f - 1].wave, r) && x in RemoteEdges(t, p)
    ensures Credited(run[f].wave, r) && (x != r ==> Credited(run[f - 1].wave, x))
  {
    OrderedInv(t, run, f);
    NoOpenEdge(t, run[f].wave, p, r);
    NoOpenEdge(t, run[f].wave, p, x);
    hide LogInv, Credited;
    assert Event(t, Report(t, r)) && Event(t, Report(t, x));
    if !Credited(run[f - 1].wave, x) {
      OneAtATime(t, run, f, Report(t, r), Report(t, x));
    }
  }

  /** That edge hangs below a local child, if the entry is to stay. */
  lemma LastIsLocal(t: Tree, run: seq<Logged>, p: Id, f: nat, r: Id)
    requires OrderedRun(t, run) && p in t.parent && 0 < f < |run| && p in run[|run| - 1].wave.entries
    requires p in run[f].wave.completed && p !in run[f - 1].wave.completed
    requires r in RemoteEdges(t, p) && r in t.kids && !Credited(run[f - 1].wave, r)
    ensures t.parent[r] != p
  {
    LastReport(t, run, p, f, r, r);
    OrderedInv(t, run, f - 1);
    assert OrderedAt(t, run, f);
    if t.parent[r] == p {
      hide LogInv;
      var m := StepTakes(t, run[f - 1], run[f], Report(t, r));
      RemovedByChild(t, run[f - 1], run[f], r);
      NeverAddedAgain(t, run, f, |run| - 1, p);
    }
  }

  /** An ordered run that leaves the entry of a settling capability shows that it can be outlasted. */
  lemma {:induction false} LeftIsOutlasted(t: Tree, run: seq<Logged>, p: Id)
    requires OrderedRun(t, run) && p in t.parent && Settles(t, p) && Await(t, p) > 0
    requires p in run[|run| - 1].wave.completed && p in run[|run| - 1].wave.entries
    ensures Outlasts(t, p)
  {
    hide OrderedAt, Settles, HeldBy, Holds, Reaches, Behind, Await, RemoteEdges, Credited;
    var f := Completes(t, run, |run| - 1, p);
    var r := OpenOrLive(t, run, f - 1, p);
    LastIsLocal(t, run, p, f, r);
    EdgeLower(t, p, r);
    BehindHolds(t, run, p, r);
    BehindHeldBy(t, p, r);
    SettlesBelow(t, p, r);
    assert Above(t, r, r);
    var rest := Critical(t, run, p, r, r, Behind(t, p, r));
    AllLetGo(t, run, p, f, r, rest);
  }

  lemma AllLetGo(t: Tree, run: seq<Logged>, p: Id, f: nat, r: Id, rest: set<Msg>)
    requires OrderedRun(t, run) && p in t.kids && 0 < f < |run| && p in run[f].wave.completed
    requires r in RemoteEdges(t, p) && r in t.kids && t.parent[r] != p && !Credited(run[f - 1].wave, r)
    requires Remote(t, r) && rest <= Calls(t, p) && Holds(t, run, Report(t, r), rest)
    ensures rest == {}
  {
    hide OrderedRun, Credited, Calls, Await;
    if e :| e in rest {
      assert HoldsAt(t, run, Report(t, r), rest, f - 1);
      forall j | j in t.parent && t.parent[j] == p && Remote(t, j) ensures Credited(run[f - 1].wave, j) {
        LastReport(t, run, p, f, r, j);
      }
      AllBesideTaken(t, run, f - 1, p, e);
    }
  }

  lemma AllBesideTaken(t: Tree, run: seq<Logged>, i: nat, p: Id, e: Msg)
    requires OrderedRun(t, run) && i < |run| && p in t.kids && e in Calls(t, p)
    requires forall j | j in t.parent && t.parent[j] == p && Remote(t, j) :: Credited(run[i].wave, j)
    ensures Taken(t, run[i].wave, e)
  {
    OrderedInv(t, run, i);
    InCalls(t, p, e);
    var j := BranchOf(t, p, e);
    TakenDown(t, run[i].wave, e, Report(t, j));
  }
}

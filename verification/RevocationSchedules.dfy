/** Ordered runs in which one event after another is held back as long as the channels allow. */
module RevocationSchedules {
  import opened Common
  import opened CapTree
  import opened RevocationWave
  import opened RevocationInvariant
  import opened RevocationTheorems
  import opened RevocationSettled
  import opened RevocationOrder
  import opened RevocationEvents
  import opened RevocationRaces
  import opened RevocationOvertaking

  // ------------------------------------------------------------ driving a run on

  function Last(run: seq<Logged>): Logged
    requires |run| > 0
  {
    run[|run| - 1]
  }

  lemma OrderedExtend(t: Tree, run: seq<Logged>, l: Logged)
    requires OrderedRun(t, run) && OrderedStep(t, Last(run), l)
    ensures OrderedRun(t, run + [l])
  {
    var longer := run + [l];
    forall i | 0 <= i < |longer| ensures OrderedAt(t, longer, i) {
      if i < |run| {
        assert OrderedAt(t, run, i);
      }
    }
  }

  /** Every message under way has a first one on its channel, sent no later. */
  lemma HeadExists(t: Tree, l: Logged, m: Msg) returns (h: Msg)
    requires LogInv(t, l) && m in l.wave.net
    ensures First(t, l, h) && Channel(t, h) == Channel(t, m) && (h == m || Before(l.log, h, m))
  {
    hide Inv, Logging, InTurn;
    var i :| 0 <= i < |l.log| && l.log[i] == m;
    h := HeadFrom(t, l, i);
  }

  lemma {:induction false} HeadFrom(t: Tree, l: Logged, i: nat) returns (h: Msg)
    requires Queues(t, l.log, l.wave.net) && i < |l.log| && l.log[i] in l.wave.net
    ensures First(t, l, h) && Channel(t, h) == Channel(t, l.log[i])
    ensures h == l.log[i] || Before(l.log, h, l.log[i])
  {
    h := l.log[i];
    if m :| m in l.wave.net && Channel(t, m) == Channel(t, h) && Before(l.log, m, h) {
      var a, b :| 0 <= a < b < |l.log| && l.log[a] == m && l.log[b] == h;
      hide Fifo, Channel;
      h := HeadFrom(t, l, a);
    }
  }

  lemma DeliverFirst(t: Tree, l: Logged, m: Msg) returns (l': Logged)
    requires LogInv(t, l) && First(t, l, m)
    ensures Delivers(t, l, m, l')
  {
    assert MsgOk(t, m);
    var s := match m
      case Revoke(_) => HandleRevoke(t, l.wave, m)
      case Finish(_, _) => HandleFinish(t, l.wave, m)
      case Ack(_) => HandleAck(l.wave, m);
    l' := Logged(s, l.log + Emitted(t, l.wave, m));
  }

  lemma OrderedFalls(t: Tree, l: Logged, l': Logged)
    requires LogInv(t, l) && OrderedStep(t, l, l')
    ensures Measure(t, l'.wave) < Measure(t, l.wave)
  {
    if !(l.wave.thread.Runnable? && l' == l.(wave := Resume(t, l.wave))) {
      var m :| Delivers(t, l, m, l');
      assert Deliver(t, l.wave, m, l'.wave);
    }
    StepFalls(t, l.wave, l'.wave);
  }

  /** A delivery takes no other event than its own. */
  lemma OthersStay(t: Tree, l: Logged, m: Msg, l': Logged, e: Msg)
    requires LogInv(t, l) && Delivers(t, l, m, l') && Event(t, e) && e != m && !Taken(t, l.wave, e)
    ensures !Taken(t, l'.wave, e)
  {
    EventState(t, l, e);
    DeliveryEffect(t, l, m, l');
    DeliveryKeeps(t, l, m, l');
    EventState(t, l', e);
    hide LogInv, Taken, Sent, Delivers, Emitted;
  }

  /** No step is left but the delivery of something in `hold`. */
  ghost predicate Stuck(t: Tree, l: Logged, hold: set<Msg>) {
    !l.wave.thread.Runnable? && forall m :: First(t, l, m) ==> m in hold
  }

  /** What of `hold` has not been taken in `l` has not been taken in `l'`. */
  ghost predicate StillHeld(t: Tree, l: Logged, l': Logged, hold: set<Msg>) {
    forall m | m in hold && Event(t, m) && !Taken(t, l.wave, m) :: !Taken(t, l'.wave, m)
  }

  lemma NextLogged(t: Tree, l: Logged, hold: set<Msg>) returns (l': Logged)
    requires LogInv(t, l) && !Stuck(t, l, hold)
    ensures OrderedStep(t, l, l') && StillHeld(t, l, l', hold)
  {
    if l.wave.thread.Runnable? {
      l' := l.(wave := Resume(t, l.wave));
    } else {
      var m :| First(t, l, m) && m !in hold;
      hide LogInv, First;
      l' := DeliverFirst(t, l, m);
      forall e | e in hold && Event(t, e) && !Taken(t, l.wave, e) ensures !Taken(t, l'.wave, e) {
        OthersStay(t, l, m, l', e);
      }
    }
  }

  /** Any ordered run can be driven on until it is stuck but for the messages in `hold`. */
  lemma {:induction false} DriveOn(t: Tree, run: seq<Logged>, hold: set<Msg>) returns (longer: seq<Logged>)
    requires OrderedRun(t, run)
    ensures OrderedRun(t, longer) && run <= longer
    ensures Stuck(t, Last(longer), hold) && StillHeld(t, Last(run), Last(longer), hold)
    decreases Measure(t, Last(run).wave)
  {
    longer := run;
    if !Stuck(t, Last(run), hold) {
      OrderedInv(t, run, |run| - 1);
      hide LogInv, Stuck, Measure;
      var l' := NextLogged(t, Last(run), hold);
      OrderedFalls(t, Last(run), l');
      OrderedExtend(t, run, l');
      longer := DriveOn(t, run + [l'], hold);
    }
  }

  // ---------------------------------------------------------------- being stuck

  /** With nothing held back, the wave is quiet. */
  lemma StuckQuiet(t: Tree, l: Logged)
    requires LogInv(t, l) && Stuck(t, l, {})
    ensures Quiet(l.wave)
  {
    if m :| m in l.wave.net {
      var h := HeadExists(t, l, m);
    }
  }

  /** The event that is held back is the next on its channel. */
  lemma StuckHead(t: Tree, l: Logged, m: Msg)
    requires LogInv(t, l) && Stuck(t, l, {m}) && Event(t, m) && !Taken(t, l.wave, m)
    requires m.Finish? ==> Settles(t, m.cap)
    ensures First(t, l, m)
  {
    if l.wave.net == {} {
      AllRevoked(t, l.wave, m.cap);
      CompletedIffSettles(t, l.wave, m.cap);
    } else {
      var x :| x in l.wave.net;
      var h := HeadExists(t, l, x);
    }
  }

  /** All other messages under way are behind it. */
  lemma {:induction false} StuckBehind(t: Tree, l: Logged, m: Msg, a: Msg)
    requires LogInv(t, l) && Stuck(t, l, {m}) && a in l.wave.net && a != m
    ensures Channel(t, a) == Channel(t, m) && Before(l.log, m, a)
  {
    var h := HeadExists(t, l, a);
  }

  /** What was not taken yet beside `p`. */
  function Open(t: Tree, s: Wave, p: Id): set<Msg> {
    set e | e in Calls(t, p) && !Taken(t, s, e)
  }

  /** Whatever was not taken beside `p` needs something that is under way there. */
  lemma {:induction false} UnderWay(t: Tree, l: Logged, p: Id, e: Msg) returns (a: Msg)
    requires LogInv(t, l) && p in t.kids && Settles(t, p) && p !in l.wave.live && e in Open(t, l.wave, p)
    ensures a in Open(t, l.wave, p) && a in l.wave.net && Needs(t, a, e)
    decreases e.Finish?, if e.Finish? then t.height[e.cap] else t.height[t.root] - t.height[e.cap]
  {
    var z := e.cap;
    EventState(t, l, e);
    assert Above(t, z, z);
    if Sent(t, l.wave, e) {
      a := e;
    } else {
      var b := UnsentNeeds(t, l, p, e);
      a := UnderWay(t, l, p, b);
      NeedsTrans(t, a, b, e);
    }
  }

  /** What was not even sent needs something else that was not taken. */
  lemma UnsentNeeds(t: Tree, l: Logged, p: Id, e: Msg) returns (b: Msg)
    requires LogInv(t, l) && p in t.kids && Settles(t, p) && p !in l.wave.live && e in Open(t, l.wave, p)
    requires Event(t, e) && !Sent(t, l.wave, e)
    ensures b in Open(t, l.wave, p) && Event(t, b) && Needs(t, b, e)
    ensures e.Revoke? ==> b.Revoke? && t.height[e.cap] < t.height[b.cap]
    ensures e.Finish? && b.Finish? ==> t.height[b.cap] < t.height[e.cap]
  {
    var z := e.cap;
    InCalls(t, p, e);
    if e.Revoke? {
      b := UnaskedNeeds(t, l, p, z);
    } else if z in l.wave.live {
      b := Revoke(z);
      assert Above(t, z, z);
      InCalls(t, p, b);
    } else {
      b := UnreportedNeeds(t, l, p, z);
    }
  }

  lemma UnaskedNeeds(t: Tree, l: Logged, p: Id, z: Id) returns (b: Msg)
    requires LogInv(t, l) && p in t.kids && p !in l.wave.live
    requires z in Beside(t, p) && Remote(t, z) && t.parent[z] in l.wave.live
    ensures Event(t, b) && b in Open(t, l.wave, p) && b.Revoke? && Needs(t, b, Revoke(z))
    ensures t.height[z] < t.height[b.cap]
  {
    var c := Top(t, t.parent[z]);
    b := Revoke(c);
    LocalLive(t, l.wave, c, t.parent[z]);
    assert Placed(t, l.wave, c);
    UnderAbove(t, t.parent[z], c);
    AboveIsHigher(t, t.parent[z], c);
    var j :| j in t.parent && t.parent[j] == p && Remote(t, j) && Above(t, z, j);
    AboveLinear(t, z, c, j);
    if !Above(t, c, j) {
      LiveBelow(t, l.wave, p, c);
    }
    assert c in Beside(t, p);
    InCalls(t, p, b);
  }

  lemma UnreportedNeeds(t: Tree, l: Logged, p: Id, z: Id) returns (b: Msg)
    requires LogInv(t, l) && p in t.kids && Settles(t, p) && z in Beside(t, p) && Remote(t, z)
    requires z !in l.wave.live && z !in l.wave.completed
    ensures Event(t, b) && b in Open(t, l.wave, p) && b.Finish? && Needs(t, b, Report(t, z))
    ensures t.height[b.cap] < t.height[z]
  {
    var j :| j in t.parent && t.parent[j] == p && Remote(t, j) && Above(t, z, j);
    AboveTrans(t, z, j);
    SettlesBelow(t, p, z);
    var x := OpenEdge(t, l.wave, z);
    EdgeLower(t, z, x);
    AboveAbove(t, x, z, j);
    b := Report(t, x);
    InCalls(t, p, b);
  }

  lemma {:induction false} StuckRest(t: Tree, l: Logged, p: Id, m: Msg, held: set<Msg>)
    requires LogInv(t, l) && p in t.kids && Settles(t, p) && p !in l.wave.live
    requires Stuck(t, l, {m}) && m !in Calls(t, p)
    requires Open(t, l.wave, p) <= held && forall e :: e in held ==> Event(t, e)
    ensures Open(t, l.wave, p) <= Rest(t, held, Channel(t, m))
  {
    hide LogInv, Settles, Stuck;
    forall e | e in Open(t, l.wave, p) ensures e in Rest(t, held, Channel(t, m)) {
      var a := UnderWay(t, l, p, e);
      StuckBehind(t, l, m, a);
    }
  }

  // --------------------------------------------------------- passing the baton

  /** The setting: `r` is a remote edge below a local child of `p`. */
  ghost predicate Setting(t: Tree, p: Id, r: Id) {
    p in t.kids && Settles(t, p) && r in RemoteEdges(t, p) && r in t.kids && t.parent[r] != p
  }

  /** An event of `r` or of something below it. */
  ghost predicate OnPath(t: Tree, r: Id, m: Msg) {
    Event(t, m) && m.cap in t.kids && Above(t, m.cap, r)
  }

  lemma PathFacts(t: Tree, p: Id, r: Id, m: Msg)
    requires Setting(t, p, r) && OnPath(t, r, m)
    ensures m !in Calls(t, p) && Settles(t, m.cap)
  {
    NotBeside(t, p, r, m.cap);
    InCalls(t, p, m);
    EdgeLower(t, p, r);
    AboveAbove(t, m.cap, r, p);
    SettlesBelow(t, p, m.cap);
  }

  lemma ParentGone(t: Tree, l: Logged, p: Id, r: Id, m: Msg)
    requires LogInv(t, l) && Setting(t, p, r) && OnPath(t, r, m) && m in l.wave.net
    ensures p !in l.wave.live
  {
    EventState(t, l, m);
    if m != Revoke(r) {
      NeedsTaken(t, l.wave, Revoke(r), m);
    }
    assert Placed(t, l.wave, r);
    LocalLive(t, l.wave, p, t.parent[r]);
  }

  /** `m` is all that can move, and beside `p` at most `held` is open. */
  ghost predicate Holding(t: Tree, l: Logged, p: Id, m: Msg, held: set<Msg>) {
    First(t, l, m) && Stuck(t, l, {m}) && Open(t, l.wave, p) <= held
  }

  lemma {:induction false} OpenShrinks(t: Tree, run: seq<Logged>, i: nat, p: Id)
    requires OrderedRun(t, run) && i < |run|
    ensures Open(t, Last(run).wave, p) <= Open(t, run[i].wave, p)
  {
    forall e | e in Open(t, Last(run).wave, p) ensures e in Open(t, run[i].wave, p) {
      if Taken(t, run[i].wave, e) {
        StaysTaken(t, run, i, |run| - 1, e);
      }
    }
  }

  /** Drive a run on while `m` is held back. */
  lemma HoldBack(t: Tree, run: seq<Logged>, p: Id, r: Id, m: Msg) returns (longer: seq<Logged>)
    requires OrderedRun(t, run) && Setting(t, p, r) && OnPath(t, r, m) && !Taken(t, Last(run).wave, m)
    ensures OrderedRun(t, longer) && run <= longer && p !in Last(longer).wave.live
    ensures First(t, Last(longer), m) && Stuck(t, Last(longer), {m})
    ensures Open(t, Last(longer).wave, p) <= Open(t, Last(run).wave, p)
  {
    hide LogInv, Setting, Settles, OrderedAt, Stuck, First, Open, Taken, Event, Above;
    PathFacts(t, p, r, m);
    longer := DriveOn(t, run, {m});
    OrderedInv(t, longer, |longer| - 1);
    StuckHead(t, Last(longer), m);
    ParentGone(t, Last(longer), p, r, m);
    OpenShrinks(t, longer, |run| - 1, p);
  }

  /** Deliver `m` and hold back `next` instead. */
  lemma Pass(t: Tree, run: seq<Logged>, p: Id, r: Id, m: Msg, next: Msg, held: set<Msg>)
    returns (longer: seq<Logged>)
    requires OrderedRun(t, run) && Setting(t, p, r) && OnPath(t, r, m) && OnPath(t, r, next) && next != m
    requires Holding(t, Last(run), p, m, held) && Needs(t, m, next) && forall e :: e in held ==> Event(t, e)
    ensures OrderedRun(t, longer)
    ensures Holding(t, Last(longer), p, next, Rest(t, held, Channel(t, next)))
  {
    var l := Last(run);
    OrderedInv(t, run, |run| - 1);
    NotTakenYet(t, l, m, next);
    hide LogInv, Setting, OnPath, Stuck, First, Open;
    var l' := DeliverFirst(t, l, m);
    OthersStay(t, l, m, l', next);
    OrderedExtend(t, run, l');
    var more := run + [l'];
    longer := HoldBack(t, more, p, r, next);
    OpenShrinks(t, more, |run| - 1, p);
    OrderedInv(t, longer, |longer| - 1);
    PathFacts(t, p, r, next);
    assert p in t.kids && Settles(t, p) by {
      SettingIs(t, p, r);
    }
    StuckRest(t, Last(longer), p, next, held);
  }

  lemma SettingIs(t: Tree, p: Id, r: Id)
    requires Setting(t, p, r)
    ensures p in t.kids && Settles(t, p)
  {
  }

  lemma NotTakenYet(t: Tree, l: Logged, m: Msg, next: Msg)
    requires LogInv(t, l) && Event(t, m) && Event(t, next) && Needs(t, m, next) && m in l.wave.net
    ensures !Taken(t, l.wave, next)
  {
    EventState(t, l, m);
    if Taken(t, l.wave, next) {
      TakenDown(t, l.wave, m, next);
    }
  }

  /** From the request for `x` to its report, along the edges that `Reaches` names. */
  lemma {:induction false} Walk(t: Tree, run: seq<Logged>, p: Id, r: Id, x: Id, held: set<Msg>, rest: set<Msg>)
    returns (longer: seq<Logged>)
    requires OrderedRun(t, run) && Setting(t, p, r) && OnPath(t, r, Revoke(x))
    requires (forall e :: e in held ==> Event(t, e)) && Reaches(t, held, x, rest)
    requires Holding(t, Last(run), p, Revoke(x), held)
    ensures OrderedRun(t, longer) && Holding(t, Last(longer), p, Report(t, x), rest)
    decreases t.height[x]
  {
    hide Setting, Holding, OrderedRun;
    assert Above(t, x, x);
    if Await(t, x) == 0 {
      longer := Pass(t, run, p, r, Revoke(x), Report(t, x), held);
    } else {
      var y, mid: set<Msg> :| Through(t, held, x, y, mid) && rest == Rest(t, mid, Channel(t, Report(t, x)));
      EdgeLower(t, x, y);
      AboveAbove(t, y, x, r);
      var down := Pass(t, run, p, r, Revoke(x), Revoke(y), held);
      var up := Walk(t, down, p, r, y, Rest(t, held, Channel(t, Revoke(y))), mid);
      longer := Pass(t, up, p, r, Report(t, y), Report(t, x), mid);
    }
  }

  // --------------------------------------------------------------- the beginning

  lemma AheadIsEarlier(t: Tree, l: Logged, p: Id, r: Id, a: Msg)
    requires LogInv(t, l) && p in t.kids && Event(t, a) && a in l.log && Ahead(t, p, a, r)
    ensures Before(l.log, a, Revoke(r))
  {
    var c := Top(t, p);
    OrderMembers(t, c);
    assert a.cap in RemoteEdges(t, c);
    TopUnique(t, t.parent[a.cap], c);
    assert InTurn(t, l.log, a.cap, r);
  }

  lemma FirstHeld(t: Tree, l: Logged, p: Id, r: Id)
    requires LogInv(t, l) && Setting(t, p, r) && p !in l.wave.live
    requires First(t, l, Revoke(r)) && Stuck(t, l, {Revoke(r)}) && Event(t, Revoke(r))
    ensures Open(t, l.wave, p) <= Behind(t, p, r)
  {
    assert Above(t, r, r);
    PathFacts(t, p, r, Revoke(r));
    forall e | e in Open(t, l.wave, p) ensures e in Behind(t, p, r) {
      var a := UnderWay(t, l, p, e);
      StuckBehind(t, l, Revoke(r), a);
      if Ahead(t, p, a, r) {
        AheadIsEarlier(t, l, p, r, a);
        NotBothWays(l.log, Revoke(r), a);
      }
    }
  }

  lemma Begin(t: Tree, p: Id, r: Id) returns (run: seq<Logged>)
    requires Setting(t, p, r) && Event(t, Revoke(r))
    ensures OrderedRun(t, run) && Holding(t, Last(run), p, Revoke(r), Behind(t, p, r))
  {
    hide Setting, Behind, Start, LogInv, Stuck, First, Open, Taken, Order, Asks;
    var start := [OrderedStart(t)];
    assert OrderedAt(t, start, 0);
    assert Above(t, r, r);
    NothingTakenAtStart(t, Revoke(r));
    run := HoldBack(t, start, p, r, Revoke(r));
    OrderedInv(t, run, |run| - 1);
    FirstHeld(t, Last(run), p, r);
  }

  /** If `p` can be outlasted, an ordered run brings it to wait for a local child alone. */
  lemma OutlastingRun(t: Tree, p: Id) returns (run: seq<Logged>, r: Id)
    requires p in t.kids && Settles(t, p) && Outlasts(t, p)
    ensures OrderedRun(t, run) && r in RemoteEdges(t, p) && r in t.kids && Remote(t, r)
    ensures Report(t, r) in Last(run).wave.net && p !in Last(run).wave.live && Open(t, Last(run).wave, p) == {}
  {
    hide OrderedRun, Settles, Open, Await, Behind, Reaches;
    r :| r in RemoteEdges(t, p) && r in t.kids && t.parent[r] != p && Reaches(t, Behind(t, p, r), r, {});
    run := OutlastingEdge(t, p, r);
  }

  lemma OutlastingEdge(t: Tree, p: Id, r: Id) returns (run: seq<Logged>)
    requires Setting(t, p, r) && Remote(t, r) && Reaches(t, Behind(t, p, r), r, {})
    ensures OrderedRun(t, run) && |run| > 0
    ensures Report(t, r) in Last(run).wave.net && p !in Last(run).wave.live && Open(t, Last(run).wave, p) == {}
  {
    hide OrderedAt, Setting, Holding, Reaches, Behind, Open, Await, LogInv;
    assert Above(t, r, r);
    SettingIs(t, p, r);
    run := Begin(t, p, r);
    run := Walk(t, run, p, r, r, Behind(t, p, r), {});
    HoldingNone(t, run, p, r, Report(t, r));
  }

  lemma HoldingNone(t: Tree, run: seq<Logged>, p: Id, r: Id, m: Msg)
    requires OrderedRun(t, run) && Setting(t, p, r) && OnPath(t, r, m) && Holding(t, Last(run), p, m, {})
    ensures m in Last(run).wave.net && p !in Last(run).wave.live && Open(t, Last(run).wave, p) == {}
  {
    OrderedInv(t, run, |run| - 1);
    ParentGone(t, Last(run), p, r, m);
  }
}

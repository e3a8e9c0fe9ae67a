/**
 The load generator's work items: each sends a request, takes in a reply header and a
 payload, and after a number of rounds leaves the work loop.
 */
module LoadGen {

  const WORD: nat := 0x1_0000_0000_0000_0000

  datatype WorkStep = ConnectRequest | RecvHeader | RecvPayload

  /** What an item is set up with. */
  datatype Job = Job(lbl: nat, maxRounds: int, target1: nat, target2: nat)

  /** What an item changes; `requests` counts the requests it has sent. */
  datatype Progress = Progress(step: WorkStep, round: nat, rxbytes: nat, requests: nat)

  datatype Message = Message(lbl: nat, length: nat)

  const FRESH := Progress(ConnectRequest, 0, 0, 0)

  function Connect(p: Progress): Progress {
    p.(step := RecvHeader, rxbytes := 0, requests := p.requests + 1)
  }

  /** LoadGenWorkItem::work with a message of the given length; `Finished` says when it removes itself. */
  function Work(j: Job, p: Progress, length: nat): Progress {
    var rx := (p.rxbytes + length) % WORD;
    match p.step
    case ConnectRequest => Connect(p)
    case RecvHeader => if rx >= j.target1 then p.(step := RecvPayload, rxbytes := 0) else p.(rxbytes := rx)
    case RecvPayload =>
      if rx < j.target2 then p.(rxbytes := rx)
      else
        var next := p.(step := ConnectRequest, round := p.round + 1, rxbytes := 0);
        if next.round == j.maxRounds then next else Connect(next)
  }

  predicate Finished(j: Job, p: Progress) {
    p.step == ConnectRequest && p.round == j.maxRounds
  }

  /** An item that has sent its first request and is not done. */
  predicate Busy(j: Job, p: Progress) {
    p.step != ConnectRequest && (p.round < j.maxRounds || j.maxRounds < 1) && p.requests == p.round + 1
  }

  predicate Done(j: Job, p: Progress) {
    Finished(j, p) && p.requests == j.maxRounds >= 1
  }

  /** A busy item stays busy until it is done; it leaves the loop just then. */
  lemma WorkKeeps(j: Job, p: Progress, length: nat)
    requires Busy(j, p)
    ensures var p' := Work(j, p, length);
            if Finished(j, p') then Done(j, p') else Busy(j, p')
  {
  }

  // ------------------------------------------------------------ the steps of an item

  function Total(lengths: seq<nat>): nat {
    if |lengths| == 0 then 0 else Total(lengths[..|lengths| - 1]) + lengths[|lengths| - 1]
  }

  /** The item after messages of these lengths. */
  function WorkAll(j: Job, p: Progress, lengths: seq<nat>): Progress {
    if |lengths| == 0 then p else Work(j, WorkAll(j, p, lengths[..|lengths| - 1]), lengths[|lengths| - 1])
  }

  /** No message but perhaps the last brings the bytes taken in up to `target`. */
  ghost predicate Below(lengths: seq<nat>, target: nat) {
    forall n :: 0 < n < |lengths| ==> Total(lengths[..n]) < target
  }

  function Target(j: Job, step: WorkStep): nat {
    match step
    case ConnectRequest => 0
    case RecvHeader => j.target1
    case RecvPayload => j.target2
  }

  /**
   While it waits for header or payload, an item stays in its step as long as the bytes it
   has taken in are below the target of the step, and adds them up; the message that brings
   them there ends the step.
   */
  lemma {:induction false} StepEnds(j: Job, p: Progress, lengths: seq<nat>)
    requires p.step != ConnectRequest && p.rxbytes == 0 && |lengths| > 0
    requires Below(lengths, Target(j, p.step)) && Total(lengths) < WORD
    ensures var p' := WorkAll(j, p, lengths);
            if Total(lengths) < Target(j, p.step) then p' == p.(rxbytes := Total(lengths))
            else if p.step == RecvHeader then p' == p.(step := RecvPayload, rxbytes := 0)
            else if p.round + 1 == j.maxRounds then p' == p.(step := ConnectRequest, round := p.round + 1, rxbytes := 0)
            else p' == p.(step := RecvHeader, round := p.round + 1, rxbytes := 0, requests := p.requests + 1)
  {
    var n := |lengths| - 1;
    var before := lengths[..n];
    if n > 0 {
      assert Below(before, Target(j, p.step)) by {
        forall i | 0 < i < |before| ensures Total(before[..i]) < Target(j, p.step) {
          assert before[..i] == lengths[..i];
        }
      }
      StepEnds(j, p, before);
    }
    hide Below;
    assert WorkAll(j, p, before) == p.(rxbytes := Total(before));
    assert WorkAll(j, p, lengths) == Work(j, p.(rxbytes := Total(before)), lengths[n]);
    hide WorkAll;
    assert Total(lengths) == Total(before) + lengths[n];
    hide Total;
  }

  /** A header and then a payload make up a round: the item has asked for the next, or is done. */
  lemma {:induction false} RoundEnds(j: Job, p: Progress, header: seq<nat>, payload: seq<nat>)
    requires p.step == RecvHeader && p.rxbytes == 0 && |header| > 0 && |payload| > 0
    requires Below(header, j.target1) && j.target1 <= Total(header) < WORD
    requires Below(payload, j.target2) && j.target2 <= Total(payload) < WORD
    ensures var p' := WorkAll(j, p, header + payload);
            if p.round + 1 == j.maxRounds then p' == p.(step := ConnectRequest, round := p.round + 1)
            else p' == p.(round := p.round + 1, requests := p.requests + 1)
  {
    StepEnds(j, p, header);
    StepEnds(j, WorkAll(j, p, header), payload);
    WorkAppend(j, p, header, payload);
  }

  lemma {:induction false} WorkAppend(j: Job, p: Progress, a: seq<nat>, b: seq<nat>)
    ensures WorkAll(j, p, a + b) == WorkAll(j, WorkAll(j, p, a), b)
  {
    if |b| == 0 {
      assert a + b == a;
    } else {
      WorkAppend(j, p, a, b[..|b| - 1]);
      assert (a + b)[..|a + b| - 1] == a + b[..|b| - 1];
    }
  }

  // -------------------------------------------------------------- the work loop

  /** The items in the loop, by number, and the progress of all items. */
  datatype Loop = Loop(live: seq<int>, progress: seq<Progress>)

  ghost predicate Wellformed(jobs: seq<Job>, l: Loop) {
    && |l.progress| == |jobs|
    && (forall i :: 0 <= i < |l.live| ==> 0 <= l.live[i] < |jobs|)
  }

  /** The position of the first live item with this label, or their number. */
  function Lookup(jobs: seq<Job>, live: seq<int>, lbl: nat): (i: nat)
    requires forall i :: 0 <= i < |live| ==> 0 <= live[i] < |jobs|
    ensures i <= |live|
    ensures i < |live| ==> jobs[live[i]].lbl == lbl
    ensures forall k :: 0 <= k < i ==> jobs[live[k]].lbl != lbl
  {
    if |live| == 0 || jobs[live[0]].lbl == lbl then 0 else 1 + Lookup(jobs, live[1..], lbl)
  }

  function Without(live: seq<int>, i: nat): seq<int>
    requires i < |live|
  {
    live[..i] + live[i + 1..]
  }

  /** The initial requests of all items. */
  function Started(jobs: seq<Job>): Loop {
    Loop(seq(|jobs|, i => i as int), seq(|jobs|, _ => Connect(FRESH)))
  }

  /** One message is given to the first live item with its label, if there is one. */
  function Dispatch(jobs: seq<Job>, l: Loop, m: Message): (l': Loop)
    requires Wellformed(jobs, l)
    ensures Wellformed(jobs, l')
  {
    var i := Lookup(jobs, l.live, m.lbl);
    if i == |l.live| then l
    else
      var id := l.live[i];
      var p := Work(jobs[id], l.progress[id], m.length);
      Loop(if Finished(jobs[id], p) then Without(l.live, i) else l.live, l.progress[id := p])
  }

  /** The loop after messages have been taken in; it stops when no more items are left than are permanent. */
  function Run(jobs: seq<Job>, permanents: nat, messages: seq<Message>): (l: Loop)
    ensures Wellformed(jobs, l)
  {
    if |messages| == 0 then Started(jobs)
    else
      var before := Run(jobs, permanents, messages[..|messages| - 1]);
      if |before.live| <= permanents then before else Dispatch(jobs, before, messages[|messages| - 1])
  }

  /** Each item is in the loop once and busy, or it is not in the loop and done. */
  ghost predicate ItemOk(jobs: seq<Job>, l: Loop, id: nat)
    requires Wellformed(jobs, l) && id < |jobs|
  {
    if id in l.live then Busy(jobs[id], l.progress[id]) else Done(jobs[id], l.progress[id])
  }

  ghost predicate Inv(jobs: seq<Job>, l: Loop) {
    && Wellformed(jobs, l)
    && (forall i, k :: 0 <= i < k < |l.live| ==> l.live[i] != l.live[k])
    && (forall id {:trigger ItemOk(jobs, l, id)} :: 0 <= id < |jobs| ==> ItemOk(jobs, l, id))
  }

  lemma DispatchInv(jobs: seq<Job>, l: Loop, m: Message)
    requires Inv(jobs, l)
    ensures Inv(jobs, Dispatch(jobs, l, m))
  {
    var l' := Dispatch(jobs, l, m);
    var i := Lookup(jobs, l.live, m.lbl);
    hide Lookup, Work;
    if i < |l.live| {
      var id := l.live[i];
      assert ItemOk(jobs, l, id);
      WorkKeeps(jobs[id], l.progress[id], m.length);
      forall x | 0 <= x < |jobs| ensures ItemOk(jobs, l', x) {
        assert ItemOk(jobs, l, x);
        assert x != id ==> (x in l'.live <==> x in l.live);
      }
    }
  }

  lemma {:induction false} RunInv(jobs: seq<Job>, permanents: nat, messages: seq<Message>)
    ensures Inv(jobs, Run(jobs, permanents, messages))
  {
    if |messages| == 0 {
      forall id | 0 <= id < |jobs| ensures ItemOk(jobs, Started(jobs), id) {
        assert Started(jobs).live[id] == id;
      }
    } else {
      RunInv(jobs, permanents, messages[..|messages| - 1]);
      hide Inv, Dispatch;
      if |Run(jobs, permanents, messages[..|messages| - 1]).live| > permanents {
        DispatchInv(jobs, Run(jobs, permanents, messages[..|messages| - 1]), messages[|messages| - 1]);
      }
    }
  }

  /** What becomes of a message: nothing, or the item with its label takes it in and may leave. */
  ghost predicate Served(jobs: seq<Job>, l: Loop, m: Message, l': Loop)
    requires Wellformed(jobs, l) && Wellformed(jobs, l')
  {
    if forall i :: 0 <= i < |l.live| ==> jobs[l.live[i]].lbl != m.lbl then l' == l
    else exists i :: 0 <= i < |l.live| && ServedAt(jobs, l, m, l', i)
  }

  /** The item in place `i` is the first with the label; no other changes, and only it may leave. */
  ghost predicate ServedAt(jobs: seq<Job>, l: Loop, m: Message, l': Loop, i: nat)
    requires Wellformed(jobs, l) && Wellformed(jobs, l') && i < |l.live|
  {
    var id := l.live[i];
    && jobs[id].lbl == m.lbl && (forall k :: 0 <= k < i ==> jobs[l.live[k]].lbl != m.lbl)
    && l'.progress[id] == Work(jobs[id], l.progress[id], m.length)
    && (forall x :: 0 <= x < |jobs| && x != id ==> l'.progress[x] == l.progress[x])
    && l'.live == if Done(jobs[id], l'.progress[id]) then l.live[..i] + l.live[i + 1..] else l.live
  }

  /**
   The loop takes messages in as long as it has more items than are permanent, and none
   after that; so at least as many as are permanent stay in it.
   */
  lemma {:induction false} LoopServes(jobs: seq<Job>, permanents: nat, messages: seq<Message>, m: Message)
    ensures var l, l' := Run(jobs, permanents, messages), Run(jobs, permanents, messages + [m]);
            && (|l.live| <= permanents ==> l' == l) && (|l.live| > permanents ==> Served(jobs, l, m, l'))
            && (permanents <= |jobs| ==> |l.live| >= permanents)
  {
    var l := Run(jobs, permanents, messages);
    assert (messages + [m])[..|messages|] == messages;
    assert Run(jobs, permanents, messages + [m])
           == if |l.live| <= permanents then l else Dispatch(jobs, l, m);
    RunInv(jobs, permanents, messages);
    StayPermanent(jobs, permanents, messages);
    hide Run;
    DispatchServes(jobs, l, m);
  }

  lemma DispatchServes(jobs: seq<Job>, l: Loop, m: Message)
    requires Inv(jobs, l)
    ensures Served(jobs, l, m, Dispatch(jobs, l, m))
  {
    var i := Lookup(jobs, l.live, m.lbl);
    hide Lookup, Work;
    if i < |l.live| {
      var id := l.live[i];
      assert ItemOk(jobs, l, id);
      WorkKeeps(jobs[id], l.progress[id], m.length);
      assert ServedAt(jobs, l, m, Dispatch(jobs, l, m), i);
    }
  }

  lemma {:induction false} StayPermanent(jobs: seq<Job>, permanents: nat, messages: seq<Message>)
    ensures permanents <= |jobs| ==> |Run(jobs, permanents, messages).live| >= permanents
  {
    if |messages| > 0 {
      StayPermanent(jobs, permanents, messages[..|messages| - 1]);
    }
  }

  function DoneItems(jobs: seq<Job>, l: Loop): set<nat>
    requires |l.progress| == |jobs|
  {
    set id | 0 <= id < |jobs| && Done(jobs[id], l.progress[id])
  }

  function UpTo(n: nat): (r: set<nat>)
    ensures |r| == n && forall i :: i in r <==> 0 <= i < n
  {
    if n == 0 then {} else UpTo(n - 1) + {n - 1}
  }

  function Listed(live: seq<int>): (r: set<nat>)
    ensures |r| <= |live| && forall i: nat :: i in r <==> i in live
  {
    if |live| == 0 then {} else Listed(live[..|live| - 1]) + if live[|live| - 1] < 0 then {} else {live[|live| - 1]}
  }

  lemma {:induction false} AllButLive(jobs: seq<Job>, permanents: nat, messages: seq<Message>)
    ensures var l := Run(jobs, permanents, messages); |DoneItems(jobs, l)| >= |jobs| - |l.live|
  {
    RunInv(jobs, permanents, messages);
    hide Run;
    var l := Run(jobs, permanents, messages);
    var all, live := UpTo(|jobs|), Listed(l.live);
    forall id | id in all - live ensures id in DoneItems(jobs, l) {
      assert ItemOk(jobs, l, id);
    }
    Fewer(all - live, DoneItems(jobs, l));
    assert all == (all - live) + (all * live) && |all * live| <= |live| by {
      Fewer(all * live, live);
    }
  }

  lemma Fewer(a: set<nat>, b: set<nat>)
    requires a <= b
    ensures |a| <= |b|
  {
    assert b == a + (b - a);
  }

  /**
   Exactly the items that have done their rounds have left the loop, with `maxRounds`
   requests sent; the others have sent no more than that, and an item with no rounds to do
   never leaves. When the loop ends, all have left but as many as are permanent.
   */
  lemma {:induction false} ExitMeansDone(jobs: seq<Job>, permanents: nat, messages: seq<Message>, id: nat)
    requires id < |jobs|
    ensures var l := Run(jobs, permanents, messages);
            && (id !in l.live <==> Done(jobs[id], l.progress[id]))
            && 1 <= l.progress[id].requests && (jobs[id].maxRounds < 1 ==> id in l.live)
            && (jobs[id].maxRounds >= 1 ==> l.progress[id].requests <= jobs[id].maxRounds)
            && (|l.live| <= permanents ==> |DoneItems(jobs, l)| >= |jobs| - permanents)
            && (|l.live| <= permanents == 0 ==> id !in l.live)
  {
    AllButLive(jobs, permanents, messages);
    RunInv(jobs, permanents, messages);
    assert ItemOk(jobs, Run(jobs, permanents, messages), id);
  }

  // ------------------------------------------------------------- how long it runs

  function AtLeastOne(x: nat): nat {
    if x == 0 then 1 else x
  }

  function Times(k: int, c: nat): int {
    k * c
  }

  /** The most messages of positive length that a busy item can still take in. */
  function Budget(j: Job, p: Progress): int {
    var c1, c2 := AtLeastOne(j.target1), AtLeastOne(j.target2);
    if p.step == ConnectRequest then 0
    else Times(j.maxRounds - p.round, c1 + c2) - (if p.step == RecvPayload then c1 else 0) - p.rxbytes
  }

  /** The bytes received in this step are below the step's target. */
  predicate Short(j: Job, p: Progress) {
    match p.step
    case ConnectRequest => true
    case RecvHeader => p.rxbytes < AtLeastOne(j.target1)
    case RecvPayload => p.rxbytes < AtLeastOne(j.target2)
  }

  predicate Modest(j: Job, length: nat) {
    0 < length && j.target1 + length < WORD && j.target2 + length < WORD
  }

  lemma BudgetPositive(j: Job, p: Progress)
    requires Busy(j, p) && Short(j, p) && j.maxRounds >= 1
    ensures Budget(j, p) > 0
  {
    hide Times;
    Product(j.maxRounds - p.round, AtLeastOne(j.target1) + AtLeastOne(j.target2));
  }

  lemma Product(k: nat, c: nat)
    requires k >= 1
    ensures Times(k, c) >= c && Times(k - 1, c) == Times(k, c) - c
  {
    assert k * c == (k - 1) * c + c;
  }

  lemma BudgetFalls(j: Job, p: Progress, length: nat)
    requires Busy(j, p) && Short(j, p) && Modest(j, length) && j.maxRounds >= 1
    ensures var p' := Work(j, p, length);
            && Short(j, p') && Budget(j, p') < Budget(j, p)
            && (Finished(j, p') ==> Budget(j, p') == 0)
  {
    hide Times;
    BudgetPositive(j, p);
    Product(j.maxRounds - p.round, AtLeastOne(j.target1) + AtLeastOne(j.target2));
  }

  function Budgets(jobs: seq<Job>, progress: seq<Progress>): int
    requires |jobs| == |progress|
  {
    if |jobs| == 0 then 0
    else Budgets(jobs[..|jobs| - 1], progress[..|jobs| - 1]) + Budget(jobs[|jobs| - 1], progress[|jobs| - 1])
  }

  lemma {:induction false} BudgetsUpdate(jobs: seq<Job>, progress: seq<Progress>, id: nat, p: Progress)
    requires |jobs| == |progress| && id < |jobs|
    ensures Budgets(jobs, progress[id := p])
            == Budgets(jobs, progress) - Budget(jobs[id], progress[id]) + Budget(jobs[id], p)
  {
    var n := |jobs| - 1;
    if id == n {
      assert progress[id := p][..n] == progress[..n];
    } else {
      BudgetsUpdate(jobs[..n], progress[..n], id, p);
      assert progress[id := p][..n] == progress[..n][id := p];
    }
  }

  lemma {:induction false} BudgetsNonnegative(jobs: seq<Job>, progress: seq<Progress>)
    requires |jobs| == |progress| && forall i :: 0 <= i < |jobs| ==> jobs[i].maxRounds >= 1
    requires forall i :: 0 <= i < |jobs| ==>
               Short(jobs[i], progress[i]) && (Busy(jobs[i], progress[i]) || Done(jobs[i], progress[i]))
    ensures Budgets(jobs, progress) >= 0
  {
    if |jobs| > 0 {
      BudgetsNonnegative(jobs[..|jobs| - 1], progress[..|jobs| - 1]);
      if Busy(jobs[|jobs| - 1], progress[|jobs| - 1]) {
        BudgetPositive(jobs[|jobs| - 1], progress[|jobs| - 1]);
      }
    }
  }

  /** The loop still runs, and every message is for an item that is in it and has a positive length. */
  ghost predicate Useful(jobs: seq<Job>, permanents: nat, messages: seq<Message>) {
    |messages| == 0 ||
    (var before, m := Run(jobs, permanents, messages[..|messages| - 1]), messages[|messages| - 1];
     && Useful(jobs, permanents, messages[..|messages| - 1])
     && |before.live| > permanents && Lookup(jobs, before.live, m.lbl) < |before.live|
     && Modest(jobs[before.live[Lookup(jobs, before.live, m.lbl)]], m.length))
  }

  lemma {:induction false} RunSpends(jobs: seq<Job>, permanents: nat, messages: seq<Message>)
    requires Useful(jobs, permanents, messages) && forall i :: 0 <= i < |jobs| ==> jobs[i].maxRounds >= 1
    ensures var l := Run(jobs, permanents, messages);
            && (forall i :: 0 <= i < |jobs| ==> Short(jobs[i], l.progress[i]))
            && |messages| + Budgets(jobs, l.progress) <= Budgets(jobs, Started(jobs).progress)
  {
    if |messages| > 0 {
      var before, m := messages[..|messages| - 1], messages[|messages| - 1];
      RunSpends(jobs, permanents, before);
      RunInv(jobs, permanents, before);
      var l := Run(jobs, permanents, before);
      var id := l.live[Lookup(jobs, l.live, m.lbl)];
      assert ItemOk(jobs, l, id);
      BudgetFalls(jobs[id], l.progress[id], m.length);
      BudgetsUpdate(jobs, l.progress, id, Work(jobs[id], l.progress[id], m.length));
    }
  }

  /** A bound on the messages that are taken in before the loop ends. */
  lemma {:induction false} RunEnds(jobs: seq<Job>, permanents: nat, messages: seq<Message>)
    requires Useful(jobs, permanents, messages) && forall i :: 0 <= i < |jobs| ==> jobs[i].maxRounds >= 1
    ensures |messages| <= Budgets(jobs, Started(jobs).progress)
  {
    RunSpends(jobs, permanents, messages);
    RunInv(jobs, permanents, messages);
    var l := Run(jobs, permanents, messages);
    forall i | 0 <= i < |jobs|
      ensures Short(jobs[i], l.progress[i]) && (Busy(jobs[i], l.progress[i]) || Done(jobs[i], l.progress[i]))
    {
      assert ItemOk(jobs, l, i);
    }
    BudgetsNonnegative(jobs, l.progress);
  }
}

/** The work loop itself: the item array, compacted in place, and the items. */
module LoadGenLoop {
  import Endpoints
  import opened LoadGen
  import opened LoadGenPolling

  const NULL := -1

  /** The array with the gap at `i` closed; the last place keeps its item. */
  function Closed(items: seq<int>, i: nat): seq<int>
    requires i < |items|
  {
    Without(items, i) + [if i == |items| - 1 then NULL else items[|items| - 1]]
  }

  /** Place `j` while the gap is being closed and place `i` comes next. */
  function Halfway(items: seq<int>, gap: nat, i: nat, j: nat): int
    requires gap < i <= |items| && j < |items|
  {
    if gap <= j < i - 1 then items[j + 1] else if j == gap then NULL else items[j]
  }

  /** The array after LoadGenWorkLoop::remove. */
  function Removed(items: seq<int>, id: int): seq<int> {
    var i := Endpoints.IndexOf(items, id);
    if i == |items| then items else Closed(items, i)
  }

  /** An unsigned counter, less one. */
  function Decrement(count: nat): nat {
    (count + WORD - 1) % WORD
  }

  function CountAfter(items: seq<int>, count: nat, id: int): nat {
    if Endpoints.IndexOf(items, id) < |items| then Decrement(count) else count
  }

  /** The list of live items without one of them. */
  function Minus(live: seq<int>, id: int): seq<int> {
    var i := Endpoints.IndexOf(live, id);
    if i < |live| then Without(live, i) else live
  }

  /**
   Removing an item leaves exactly the other live items, in their order, if and only if
   the item's first place in the array is among the live ones or it has none at all.
   */
  lemma {:induction false} RemoveExact(items: seq<int>, count: nat, id: int)
    requires count <= |items| < WORD
    ensures var i := Endpoints.IndexOf(items, id);
            var count' := CountAfter(items, count, id);
            (count' <= |items| && Removed(items, id)[..count'] == Minus(items[..count], id))
            <==> i < count || i == |items|
  {
    var i := Endpoints.IndexOf(items, id);
    var live := items[..count];
    hide Decrement;
    CountDown(count);
    if i < count {
      Endpoints.IndexIs(live, id, i);
      ClosedPrefix(items, count, i);
    } else {
      Endpoints.IndexIs(live, id, count);
    }
    hide Endpoints.IndexOf, Closed, Without;
  }

  /**
   The last place keeps its item: of three items in a full array 1 leaves, and then 3, which
   is still found after that. Removing 3 once more leaves no live item, where 2 should stay.
   */
  lemma RemovedTwice()
    ensures Removed([1, 2, 3], 1) == [2, 3, 3] && CountAfter([1, 2, 3], 3, 1) == 2
    ensures Removed([2, 3, 3], 3) == [2, 3, 3] && CountAfter([2, 3, 3], 2, 3) == 1
    ensures CountAfter([2, 3, 3], 1, 3) == 0 && Minus([2, 3, 3][..1], 3) == [2]
  {
    assert Endpoints.IndexOf([1, 2, 3], 1) == 0;
    assert Endpoints.IndexOf([2, 3, 3], 3) == 1;
    assert [2, 3, 3][..1] == [2] && Endpoints.IndexOf([2], 3) == 1;
  }

  lemma ClosedPrefix(items: seq<int>, count: nat, i: nat)
    requires i < count <= |items|
    ensures Closed(items, i)[..count - 1] == Without(items[..count], i)
  {
  }

  lemma CountDown(count: nat)
    requires count < WORD
    ensures Decrement(count) == if count == 0 then WORD - 1 else count - 1
  {
  }

  class WorkItem {
    const job: Job
    const id: nat
    var step: WorkStep
    var round: nat
    var rxbytes: nat
    var requests: nat

    ghost function Value(): Progress
      reads this
    {
      Progress(step, round, rxbytes, requests)
    }

    constructor (job: Job, id: nat)
      ensures Value() == FRESH && this.job == job && this.id == id
    {
      this.job, this.id := job, id;
      step, round, rxbytes, requests := ConnectRequest, 0, 0, 0;
    }

    /** work() without a message. */
    method SendRequest()
      modifies this
      ensures Value() == Connect(old(Value()))
    {
      requests := requests + 1;
      step := RecvHeader;
      rxbytes := 0;
    }

    /** work() with a message; the item takes itself out of the loop when it is done. */
    method TakeIn(loop: WorkLoop, length: nat)
      modifies this, loop`count, loop.items
      ensures Value() == Work(job, old(Value()), length)
      ensures var gone := old(step) == RecvPayload && Finished(job, Value());
              && loop.items[..] == (if gone then Removed(old(loop.items[..]), id) else old(loop.items[..]))
              && loop.count == if gone then CountAfter(old(loop.items[..]), old(loop.count), id) else old(loop.count)
    {
      match step {
        case ConnectRequest =>
          SendRequest();
        case RecvHeader =>
          rxbytes := (rxbytes + length) % WORD;
          if rxbytes >= job.target1 {
            rxbytes, step := 0, RecvPayload;
          }
        case RecvPayload =>
          rxbytes := (rxbytes + length) % WORD;
          if rxbytes >= job.target2 {
            rxbytes, step := 0, ConnectRequest;
            round := round + 1;
            if round == job.maxRounds {
              loop.Remove(id);
            } else {
              SendRequest();
            }
          }
      }
    }
  }

  /** The receive endpoints, and which one is looked at first. */
  class Gates {
    var selected: nat
    var queues: seq<seq<Message>>

    ghost function Value(): Poller
      reads this
    {
      Poller(selected, queues)
    }

    constructor (n: nat)
      requires n > 0
      ensures Value() == Poller(0, seq(n, _ => []))
    {
      selected, queues := 0, seq(n, _ => []);
    }

    /** Messages come in while the loop waits. */
    method Receive(arrived: seq<seq<Message>>)
      requires |arrived| == |queues|
      modifies this
      ensures Value() == Poller(old(selected), Arrive(old(queues), arrived))
    {
      queues := Arrive(queues, arrived);
    }

    /** One pass over the endpoints, from the selected one to the last. */
    method PollPass() returns (served: nat, taken: seq<Message>)
      requires |queues| > 0
      modifies this
      ensures (Value(), served) == Poll(old(Value()))
      ensures taken == if served < |old(queues)| then [old(queues)[served][0]] else []
      ensures |queues| == |old(queues)|
    {
      taken := [];
      selected := selected % |queues|;
      ghost var first := selected;
      while selected < |queues|
        invariant first <= selected <= |queues| && queues == old(queues)
        invariant Scan(queues, selected) == Scan(queues, first)
      {
        if queues[selected] != [] {
          served := selected;
          taken := [queues[served][0]];
          queues := queues[served := queues[served][1..]];
          selected := selected + 1;
          return;
        }
        selected := selected + 1;
      }
      served := selected;
    }
  }

  /** The items `all` have numbers, and no two are the same. */
  ghost predicate Numbered(jobs: seq<Job>, all: seq<WorkItem>) {
    && |all| == |jobs|
    && (forall i :: 0 <= i < |all| ==> all[i].id == i && all[i].job == jobs[i])
  }

  ghost function ProgressOf(all: seq<WorkItem>): seq<Progress>
    reads all
  {
    seq(|all|, i requires 0 <= i < |all| reads all => all[i].Value())
  }

  class WorkLoop {
    const all: seq<WorkItem>
    const items: array<int>
    var count: nat
    var permanents: nat

    ghost predicate Ready(jobs: seq<Job>)
      reads this, items, all
    {
      Numbered(jobs, all) && count <= items.Length < WORD && Inv(jobs, Value())
    }

    ghost function Value(): Loop
      requires count <= items.Length
      reads this, items, all
    {
      Loop(items[..count], ProgressOf(all))
    }

    constructor (all: seq<WorkItem>, room: nat)
      ensures this.all == all && items.Length == room && count == permanents == 0 && fresh(items)
    {
      this.all := all;
      items := new int[room](_ => NULL);
      count, permanents := 0, 0;
    }

    method Add(id: nat, permanent: bool)
      requires count < items.Length
      modifies this, items
      ensures count == old(count) + 1 && items[..count] == old(items[..count]) + [id]
      ensures permanents == old(permanents) + if permanent then 1 else 0
    {
      items[count] := id;
      count := count + 1;
      if permanent {
        permanents := permanents + 1;
      }
    }

    method Remove(id: int)
      modifies this`count, items
      ensures items[..] == Removed(old(items[..]), id)
      ensures count == CountAfter(old(items[..]), old(count), id)
    {
      ghost var was := items[..];
      var i := 0;
      while i < items.Length
        invariant i <= items.Length && items[..] == was && count == old(count)
        invariant forall j :: 0 <= j < i ==> items[j] != id
      {
        if items[i] == id {
          Endpoints.IndexIs(was, id, i);
          hide Endpoints.IndexOf, Closed;
          Shift(i);
          count := Decrement(count);
          return;
        }
        i := i + 1;
      }
      Endpoints.IndexIs(was, id, items.Length);
    }

    /** Closes the gap at `gap`. */
    method Shift(gap: nat)
      requires gap < items.Length
      modifies items
      ensures items[..] == Closed(old(items[..]), gap)
    {
      ghost var was := items[..];
      items[gap] := NULL;
      var i := gap + 1;
      while i < items.Length
        invariant gap < i <= items.Length
        invariant forall j :: 0 <= j < items.Length ==> items[j] == Halfway(was, gap, i, j)
      {
        items[i - 1] := items[i];
        i := i + 1;
      }
    }
  
    /** The first part of run: every item sends its first request. */
    method Start(jobs: seq<Job>)
      requires Numbered(jobs, all) && count == |jobs| <= items.Length < WORD
      requires forall i :: 0 <= i < |jobs| ==> items[i] == i && all[i].Value() == FRESH
      modifies all
      ensures Ready(jobs) && Value() == Started(jobs)
    {
      for i := 0 to count
        invariant forall j :: 0 <= j < |all| ==> all[j].Value() == if j < i then Connect(FRESH) else FRESH
      {
        assert forall j :: 0 <= j < |all| && j != i ==> all[j] != all[i];
        all[items[i]].SendRequest();
      }
      assert Value() == Started(jobs);
      RunInv(jobs, permanents, []);
    }

    /** The part of run that finds the item for a message. */
    method Dispatch(jobs: seq<Job>, m: Message)
      requires Ready(jobs)
      modifies this`count, items, all
      ensures Ready(jobs) && Value() == LoadGen.Dispatch(jobs, old(Value()), m)
    {
      ghost var was := Value();
      DispatchInv(jobs, was, m);
      for i := 0 to count
        invariant Value() == was && Ready(jobs)
        invariant forall k :: 0 <= k < i ==> jobs[items[k]].lbl != m.lbl
      {
        if all[items[i]].job.lbl == m.lbl {
          GiveTo(jobs, i, m);
          return;
        }
      }
      LookupIs(jobs, was.live, m.lbl, count);
    }

    /** run, as long as the passes in `arrivals` go; `taken` are the messages taken in. */
    method Run(jobs: seq<Job>, gates: Gates, arrivals: seq<seq<seq<Message>>>) returns (taken: seq<Message>)
      requires Numbered(jobs, all) && count == |jobs| <= items.Length < WORD
      requires forall i :: 0 <= i < |jobs| ==> items[i] == i && all[i].Value() == FRESH
      requires |gates.queues| > 0 && forall i :: 0 <= i < |arrivals| ==> |arrivals[i]| == |gates.queues|
      modifies this`count, items, all, gates
      ensures Ready(jobs) && Value() == LoadGen.Run(jobs, permanents, taken)
      ensures count <= permanents ==> |DoneItems(jobs, Value())| >= |jobs| - permanents
      ensures count <= permanents == 0 ==> forall i :: 0 <= i < |jobs| ==> all[i].requests == jobs[i].maxRounds
    {
      hide Inv, DoneItems, Poll, LoadGen.Dispatch;
      Start(jobs);
      taken := [];
      var pass := 0;
      while count > permanents && pass < |arrivals|
        invariant Ready(jobs) && Value() == LoadGen.Run(jobs, permanents, taken)
        invariant |gates.queues| == |old(gates.queues)|
        decreases |arrivals| - pass
      {
        gates.Receive(arrivals[pass]);
        var served, fetched := gates.PollPass();
        if fetched != [] {
          Dispatch(jobs, fetched[0]);
          assert (taken + [fetched[0]])[..|taken|] == taken;
          taken := taken + [fetched[0]];
        }
        pass := pass + 1;
      }
      AllButLive(jobs, permanents, taken);
      if count <= permanents == 0 {
        forall i | 0 <= i < |jobs| ensures all[i].requests == jobs[i].maxRounds {
          ExitMeansDone(jobs, permanents, taken, i);
          assert Value().progress[i] == all[i].Value();
        }
      }
    }

    method GiveTo(jobs: seq<Job>, i: nat, m: Message)
      requires Ready(jobs) && i < count && jobs[items[i]].lbl == m.lbl
      requires forall k :: 0 <= k < i ==> jobs[items[k]].lbl != m.lbl
      modifies this`count, items, all
      ensures Ready(jobs) && Value() == LoadGen.Dispatch(jobs, old(Value()), m)
    {
      hide Endpoints.IndexOf, CountAfter, Lookup, Inv, Work, Removed, LoadGen.Dispatch, Without, Finished;
      ghost var was := Value();
      ghost var held := items[..];
      var id := items[i];
      DispatchInv(jobs, was, m);
      DispatchIs(jobs, was, m, i);
      RemovedLive(held, count, i);
      all[id].TakeIn(this, m.length);
      assert forall j :: 0 <= j < |all| && j != id ==> all[j] != all[id];
      assert ProgressOf(all) == was.progress[id := Work(jobs[id], was.progress[id], m.length)];
    }
  }

  lemma RemovedLive(items: seq<int>, count: nat, i: nat)
    requires i < count <= |items| < WORD
    requires forall k :: 0 <= k < i ==> items[k] != items[i]
    ensures CountAfter(items, count, items[i]) == count - 1
    ensures |Removed(items, items[i])| == |items|
    ensures Removed(items, items[i])[..count - 1] == Without(items[..count], i)
  {
    Endpoints.IndexIs(items, items[i], i);
    CountDown(count);
    ClosedPrefix(items, count, i);
  }

  lemma DispatchIs(jobs: seq<Job>, l: Loop, m: Message, i: nat)
    requires Inv(jobs, l) && i < |l.live| && jobs[l.live[i]].lbl == m.lbl
    requires forall k :: 0 <= k < i ==> jobs[l.live[k]].lbl != m.lbl
    ensures var id := l.live[i];
            var p := Work(jobs[id], l.progress[id], m.length);
            var gone := l.progress[id].step == RecvPayload && Finished(jobs[id], p);
            LoadGen.Dispatch(jobs, l, m) == Loop(if gone then Without(l.live, i) else l.live, l.progress[id := p])
    ensures 0 <= l.live[i] < |jobs| && forall k :: 0 <= k < i ==> l.live[k] != l.live[i]
  {
    LookupIs(jobs, l.live, m.lbl, i);
    assert ItemOk(jobs, l, l.live[i]);
  }

  lemma {:induction false} LookupIs(jobs: seq<Job>, live: seq<int>, lbl: nat, i: nat)
    requires forall k :: 0 <= k < |live| ==> 0 <= live[k] < |jobs|
    requires i <= |live| && (i < |live| ==> jobs[live[i]].lbl == lbl)
    requires forall k :: 0 <= k < i ==> jobs[live[k]].lbl != lbl
    ensures Lookup(jobs, live, lbl) == i
  {
  }
}

/**
 One revocation, from the system call on the origin's kernel to the last acknowledgement,
 as a state machine over message deliveries. The handlers are those of
 KernelcallHandler::revoke, ::revokeFinish and ::reply together with CapTable::revoke_rec
 and Revocation::notifySubscribers; each runs to completion. Messages may be delivered in
 any order, which covers the order-preserving channels of the system.
 */
module RevocationWave {
  import opened Common
  import opened CapTree

  /**
   `Finish` names the reporting capability; the handlers only use its parent, which is
   the `initiator` that the message carries.
   */
  datatype Msg =
    | Revoke(cap: Id)
    | Finish(cap: Id, includeReply: bool)
    | Ack(of: Msg)

  datatype Entry = Entry(awaited: int, subs: seq<Id>)

  /** The thread that executes the revoke system call. */
  datatype Thread = Sleeping | Runnable | Returned

  /**
   `live` are the capabilities still in some table and `entries` the revocation lists of
   all kernels. `completed`, `sent` and `acked` are history: no handler reads them.
   */
  datatype Wave = Wave(live: set<Id>,
                       entries: map<Id, Entry>,
                       net: set<Msg>,
                       thread: Thread,
                       wakeups: nat,
                       completed: set<Id>,
                       sent: multiset<Msg>,
                       acked: multiset<Msg>)

  // ---------------------------------------------------------------- handlers

  function Send(s: Wave, m: Msg): Wave {
    s.(net := s.net + {m}, sent := s.sent + multiset{m})
  }

  function Requests(t: Tree, c: Id): set<Msg> {
    set k | k in RemoteEdges(t, c) :: Revoke(k)
  }

  function NewEntries(t: Tree, c: Id): map<Id, Entry> {
    map n | n in LocalPart(t, c) && Await(t, n) > 0
      :: Entry(Await(t, n), if n == c then [] else [t.parent[n]])
  }

  /** The capabilities of the local part that have nobody to wait for. */
  function Answered(t: Tree, c: Id): set<Id> {
    set n | n in LocalPart(t, c) && Await(t, n) == 0
  }

  /** The effect of revoke_rec on `c`, whose parent is on another kernel or uninvolved. */
  function Fan(t: Tree, s: Wave, c: Id): Wave {
    s.(live := s.live - LocalPart(t, c),
       entries := s.entries + NewEntries(t, c),
       net := s.net + Requests(t, c),
       completed := s.completed + Answered(t, c),
       sent := s.sent + multiset(Requests(t, c)))
  }

  /**
   One answer for the entry of the parent of `x` has come in, by message if `x` is remote
   and through the subscription if it is local.
   */
  function Credit(t: Tree, s: Wave, x: Id): Wave
    requires x in t.parent
    decreases t.height[t.root] - t.height[x]
  {
    var p := t.parent[x];
    if p !in s.entries then s else
    var e := s.entries[p];
    if e.awaited - 1 != 0 then
      s.(entries := s.entries[p := e.(awaited := e.awaited - 1)])
    else if p == t.root then
      Settle(s, p).(thread := Runnable, wakeups := s.wakeups + 1)
    else
      var s1 := if Remote(t, p) then Send(Settle(s, p), Finish(p, false)) else Credit(t, Settle(s, p), p);
      if Remote(t, x) then s1.(entries := s1.entries - {p}) else s1
  }

  /** The last answer for `p` is in and its subscribers are being told. */
  function Settle(s: Wave, p: Id): Wave {
    s.(entries := s.entries[p := Entry(0, [])], completed := s.completed + {p})
  }

  function HandleRevoke(t: Tree, s: Wave, m: Msg): Wave
    requires m.Revoke? && m.cap in t.kids
  {
    var s1 := Fan(t, s.(net := s.net - {m}), m.cap);
    if Await(t, m.cap) == 0 then Send(s1, Finish(m.cap, true))
    else s1.(net := s1.net + {Ack(m)})
  }

  function TakeFinish(s: Wave, m: Msg): Wave
    requires m.Finish?
  {
    s.(net := s.net - {m} + {Ack(m)},
       acked := s.acked + (if m.includeReply then multiset{Revoke(m.cap)} else multiset{}))
  }

  function HandleFinish(t: Tree, s: Wave, m: Msg): Wave
    requires m.Finish? && m.cap in t.parent
  {
    Credit(t, TakeFinish(s, m), m.cap)
  }

  function HandleAck(s: Wave, m: Msg): Wave
    requires m.Ack?
  {
    s.(net := s.net - {m}, acked := s.acked + multiset{m.of})
  }

  function Initial(t: Tree): Wave {
    Wave(t.kids.Keys, map[], {}, Sleeping, 0, {}, multiset{}, multiset{})
  }

  /** The system call: revoke the local part and, if anything is remote, go to sleep. */
  function Start(t: Tree): Wave {
    var s := Fan(t, Initial(t), t.root);
    if Await(t, t.root) == 0 then s.(thread := Returned) else s
  }

  /** The woken thread drops its entry and answers the system call. */
  function Resume(t: Tree, s: Wave): Wave {
    s.(thread := Returned, entries := s.entries - {t.root})
  }

  ghost predicate Step(t: Tree, s: Wave, s': Wave) {
    || (s.thread.Runnable? && s' == Resume(t, s))
    || (exists m :: m in s.net && Deliver(t, s, m, s'))
  }

  ghost predicate Deliver(t: Tree, s: Wave, m: Msg, s': Wave) {
    match m
    case Revoke(c) => c in t.kids && s' == HandleRevoke(t, s, m)
    case Finish(c, _) => c in t.parent && s' == HandleFinish(t, s, m)
    case Ack(_) => s' == HandleAck(s, m)
  }

  /** `run` is an execution of the wave. */
  ghost predicate Run(t: Tree, run: seq<Wave>) {
    |run| > 0 && forall i {:trigger StateAt(t, run, i)} :: 0 <= i < |run| ==> StateAt(t, run, i)
  }

  ghost predicate StateAt(t: Tree, run: seq<Wave>, i: nat)
    requires i < |run|
  {
    if i == 0 then run[0] == Start(t) else Step(t, run[i - 1], run[i])
  }

  // --------------------------------------------------------------- invariant

  predicate Credited(s: Wave, k: Id) {
    k in s.completed && Finish(k, true) !in s.net && Finish(k, false) !in s.net
  }

  /** What the child `k` still owes to the counter of its parent. */
  function Term(t: Tree, s: Wave, k: Id): (r: nat)
    requires k in t.kids
  {
    if Remote(t, k) then
      if Credited(s, k) then 0 else 1
    else
      if Await(t, k) > 0 && k in s.completed then Await(t, k) - 1 else Await(t, k)
  }

  function OwedUpTo(t: Tree, s: Wave, n: Id, i: nat): nat
    requires n in t.kids && i <= |t.kids[n]|
  {
    if i == 0 then 0 else OwedUpTo(t, s, n, i - 1) + Term(t, s, t.kids[n][i - 1])
  }

  function Owed(t: Tree, s: Wave, n: Id): nat
    requires n in t.kids
  {
    OwedUpTo(t, s, n, |t.kids[n]|)
  }

  /** Where the revocation of `n` stands, as the tables and the network show it. */
  ghost predicate Placed(t: Tree, s: Wave, n: Id)
    requires n in t.kids
  {
    && (n in s.completed ==> n !in s.live)
    && (n !in s.live && Await(t, n) == 0 ==> n in s.completed)
    && (n == t.root ==> n !in s.live)
    && (Local(t, n) ==> (n in s.live <==> t.parent[n] in s.live))
    && (Remote(t, n) ==>
          && (t.parent[n] in s.live ==> n in s.live)
          && (Revoke(n) in s.net <==> n in s.live && t.parent[n] !in s.live)
          && !(Finish(n, true) in s.net && Finish(n, false) in s.net)
          && (Finish(n, true) in s.net || Finish(n, false) in s.net ==> n in s.completed))
  }

  ghost predicate CallOk(t: Tree, m: Msg) {
    !m.Ack? && Remote(t, m.cap)
  }

  ghost predicate MsgOk(t: Tree, m: Msg) {
    if m.Ack? then CallOk(t, m.of) else CallOk(t, m)
  }

  ghost predicate Shape(t: Tree, s: Wave) {
    && s.live <= t.kids.Keys && s.completed <= t.kids.Keys
    && (forall m {:trigger MsgOk(t, m)} | m in s.net :: MsgOk(t, m))
    && (forall n {:trigger Placed(t, s, n)} | n in t.kids :: Placed(t, s, n))
  }

  /**
   The entry of `n` counts what its children owe; `x`, if any, is a child whose answer has
   been taken but not yet subtracted.
   */
  ghost predicate Counted(t: Tree, s: Wave, x: Option<Id>, n: Id)
    requires n in t.kids
  {
    && (n in s.entries ==>
          && n !in s.live && Await(t, n) > 0
          && s.entries[n].awaited == Owed(t, s, n) + One(Pending(t, x, n)))
    && (n !in s.live && n !in s.completed ==>
          && n in s.entries && s.entries[n].awaited > 0
          && s.entries[n].subs == if Local(t, n) then [t.parent[n]] else [])
    && (n in s.completed ==> Owed(t, s, n) == 0 && !Pending(t, x, n))
  }

  ghost predicate Counters(t: Tree, s: Wave, x: Option<Id>) {
    && s.entries.Keys <= t.kids.Keys
    && (forall n {:trigger Counted(t, s, x, n)} | n in t.kids :: Counted(t, s, x, n))
  }

  predicate Pending(t: Tree, x: Option<Id>, n: Id) {
    x.Some? && x.value in t.parent && t.parent[x.value] == n
  }

  ghost predicate Sleep(t: Tree, s: Wave) {
    && (t.root in s.completed <==> !s.thread.Sleeping?)
    && s.wakeups == (if t.root in s.completed && Await(t, t.root) > 0 then 1 else 0)
    && (t.root in s.entries <==> Await(t, t.root) > 0 && !s.thread.Returned?)
  }

  function One(b: bool): nat {
    if b then 1 else 0
  }

  /** Every message of `k` is sent at most once, and acknowledged once or about to be. */
  ghost predicate Booked(t: Tree, s: Wave, k: Id)
    requires Remote(t, k)
  {
    && s.sent[Revoke(k)] == One(t.parent[k] !in s.live)
    && s.sent[Finish(k, true)] + s.sent[Finish(k, false)] == One(k in s.completed)
    && s.acked[Revoke(k)] + One(Revoke(k) in s.net) + One(Ack(Revoke(k)) in s.net)
       + One(Finish(k, true) in s.net) == s.sent[Revoke(k)]
    && s.acked[Finish(k, true)] + One(Finish(k, true) in s.net) + One(Ack(Finish(k, true)) in s.net)
       == s.sent[Finish(k, true)]
    && s.acked[Finish(k, false)] + One(Finish(k, false) in s.net) + One(Ack(Finish(k, false)) in s.net)
       == s.sent[Finish(k, false)]
  }

  ghost predicate Traffic(t: Tree, s: Wave) {
    && (forall m {:trigger CallOk(t, m)} | m in s.sent || m in s.acked :: CallOk(t, m))
    && (forall k {:trigger Booked(t, s, k)} | Remote(t, k) :: Booked(t, s, k))
  }

  ghost predicate Inv(t: Tree, s: Wave) {
    Shape(t, s) && Counters(t, s, None) && Sleep(t, s) && Traffic(t, s)
  }
}

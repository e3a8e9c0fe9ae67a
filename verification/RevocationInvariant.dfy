/**
 Every step of a revocation keeps the invariant, whatever the tree and the order of
 delivery.
 */
module RevocationInvariant {
  import opened Common
  import opened CapTree
  import opened RevocationWave

  // -------------------------------------------------------------------- sums

  lemma {:induction false} OwedFrame(t: Tree, s: Wave, s': Wave, n: Id, i: nat)
    requires n in t.kids && i <= |t.kids[n]|
    requires forall j :: 0 <= j < i ==> Term(t, s, t.kids[n][j]) == Term(t, s', t.kids[n][j])
    ensures OwedUpTo(t, s, n, i) == OwedUpTo(t, s', n, i)
  {
    if i > 0 {
      OwedFrame(t, s, s', n, i - 1);
    }
  }

  lemma {:induction false} OwedDrop(t: Tree, s: Wave, s': Wave, n: Id, i: nat, j: nat)
    requires n in t.kids && j < i <= |t.kids[n]|
    requires Term(t, s, t.kids[n][j]) == Term(t, s', t.kids[n][j]) + 1
    requires forall l :: 0 <= l < i && l != j ==> Term(t, s, t.kids[n][l]) == Term(t, s', t.kids[n][l])
    ensures OwedUpTo(t, s, n, i) == OwedUpTo(t, s', n, i) + 1
  {
    if j < i - 1 {
      OwedDrop(t, s, s', n, i - 1, j);
    } else {
      OwedFrame(t, s, s', n, i - 1);
    }
  }

  lemma {:induction false} OwedMember(t: Tree, s: Wave, n: Id, i: nat, j: nat)
    requires n in t.kids && j < i <= |t.kids[n]|
    ensures Term(t, s, t.kids[n][j]) <= OwedUpTo(t, s, n, i)
  {
    if j < i - 1 {
      OwedMember(t, s, n, i - 1, j);
    }
  }

  lemma {:induction false} OwedAllZero(t: Tree, s: Wave, n: Id, i: nat)
    requires n in t.kids && i <= |t.kids[n]|
    requires forall j :: 0 <= j < i ==> Term(t, s, t.kids[n][j]) == 0
    ensures OwedUpTo(t, s, n, i) == 0
  {
    if i > 0 {
      OwedAllZero(t, s, n, i - 1);
    }
  }

  /** Where every child is untouched or trivially done, the debt is the initial one. */
  lemma {:induction false} OwedFresh(t: Tree, s: Wave, n: Id, i: nat)
    requires n in t.kids && i <= |t.kids[n]|
    requires forall j :: 0 <= j < i ==>
               var k := t.kids[n][j]; Term(t, s, k) == if Remote(t, k) then 1 else Await(t, k)
    ensures OwedUpTo(t, s, n, i) == AwaitUpTo(t, n, i)
  {
    if i > 0 {
      OwedFresh(t, s, n, i - 1);
    }
  }

  lemma KidTerm(t: Tree, s: Wave, k: Id)
    requires k in t.parent
    ensures Term(t, s, k) <= Owed(t, s, t.parent[k])
  {
    var n := t.parent[k];
    var j :| 0 <= j < |t.kids[n]| && t.kids[n][j] == k;
    OwedMember(t, s, n, |t.kids[n]|, j);
  }

  lemma OwedSame(t: Tree, s: Wave, s': Wave, n: Id)
    requires n in t.kids
    requires forall k | k in t.parent && t.parent[k] == n :: Term(t, s, k) == Term(t, s', k)
    ensures Owed(t, s, n) == Owed(t, s', n)
  {
    OwedFrame(t, s, s', n, |t.kids[n]|);
  }

  lemma OwedLess(t: Tree, s: Wave, s': Wave, x: Id)
    requires x in t.parent
    requires Term(t, s, x) == Term(t, s', x) + 1
    requires forall k | k in t.parent && k != x :: Term(t, s, k) == Term(t, s', k)
    ensures Owed(t, s, t.parent[x]) == Owed(t, s', t.parent[x]) + 1
  {
    var n := t.parent[x];
    var j :| 0 <= j < |t.kids[n]| && t.kids[n][j] == x;
    OwedDrop(t, s, s', n, |t.kids[n]|, j);
  }

  /** A remote child makes its parent wait. */
  lemma {:induction false} RemoteKidAwaited(t: Tree, k: Id)
    requires Remote(t, k)
    ensures Await(t, t.parent[k]) > 0
  {
    AwaitCountsRemoteEdges(t, t.parent[k]);
    assert k in RemoteEdges(t, t.parent[k]);
  }

  // -------------------------------------------------------- taking an answer

  /** A reported answer that is still on its way finds the entry of the parent in place. */
  lemma FinishFindsEntry(t: Tree, s: Wave, k: Id)
    requires Shape(t, s) && Counters(t, s, None)
    requires Remote(t, k) && k in s.completed && !Credited(s, k)
    ensures t.parent[k] in s.entries && t.parent[k] !in s.completed
  {
    RemoteKidAwaited(t, k);
    KidTerm(t, s, k);
    assert Placed(t, s, k) && Counted(t, s, None, t.parent[k]);
  }

  lemma TakeFinishShape(t: Tree, s: Wave, m: Msg)
    requires Shape(t, s) && m.Finish? && m in s.net
    ensures Shape(t, TakeFinish(s, m))
  {
    assert MsgOk(t, m);
    forall n | n in t.kids ensures Placed(t, TakeFinish(s, m), n) {
      assert Placed(t, s, n);
    }
  }

  lemma TakeFinishTraffic(t: Tree, s: Wave, m: Msg)
    requires Shape(t, s) && Traffic(t, s) && m.Finish? && m in s.net
    ensures Traffic(t, TakeFinish(s, m))
  {
    assert MsgOk(t, m);
    forall k | Remote(t, k) ensures Booked(t, TakeFinish(s, m), k) {
      assert Booked(t, s, k);
    }
  }

  lemma TakeFinishCounters(t: Tree, s: Wave, m: Msg)
    requires Shape(t, s) && Counters(t, s, None) && m.Finish? && m in s.net
    ensures m.cap in t.parent && t.parent[m.cap] in s.entries
    ensures Counters(t, TakeFinish(s, m), Some(m.cap))
  {
    var s' := TakeFinish(s, m);
    assert MsgOk(t, m) && Placed(t, s, m.cap);
    FinishFindsEntry(t, s, m.cap);
    OwedLess(t, s, s', m.cap);
    forall n | n in t.kids ensures Counted(t, s', Some(m.cap), n) {
      assert Counted(t, s, None, n);
      if n != t.parent[m.cap] {
        OwedSame(t, s, s', n);
      }
    }
  }

  // ------------------------------------------------------- passing it upward

  /** A local answer is subtracted from the next entry in exactly the same way. */
  lemma CompleteLocal(t: Tree, s: Wave, x: Id)
    requires Shape(t, s) && Counters(t, s, Some(x)) && x in t.parent
    requires t.parent[x] in s.entries && s.entries[t.parent[x]].awaited == 1
    requires Local(t, t.parent[x])
    ensures var p := t.parent[x];
            Counters(t, Settle(s, p), Some(p)) && t.parent[p] in s.entries
  {
    var p := t.parent[x];
    var s' := Settle(s, p);
    assert Placed(t, s, p) && Counted(t, s, Some(x), p);
    OwedLess(t, s, s', p);
    forall n | n in t.kids ensures Counted(t, s', Some(p), n) {
      assert Counted(t, s, Some(x), n);
      if n != t.parent[p] {
        OwedSame(t, s, s', n);
      }
    }
    assert Counted(t, s, Some(x), t.parent[p]);
  }

  lemma SendFinishCounters(t: Tree, s: Wave, x: Id)
    requires Shape(t, s) && Counters(t, s, Some(x)) && x in t.parent
    requires t.parent[x] in s.entries && s.entries[t.parent[x]].awaited == 1
    requires Remote(t, t.parent[x])
    ensures var p := t.parent[x]; Counters(t, Send(Settle(s, p), Finish(p, false)), None)
  {
    var p := t.parent[x];
    var s' := Send(Settle(s, p), Finish(p, false));
    assert Counted(t, s, Some(x), p);
    forall n | n in t.kids ensures Counted(t, s', None, n) {
      assert Counted(t, s, Some(x), n);
      OwedSame(t, s, s', n);
    }
  }

  lemma SendFinishTraffic(t: Tree, s: Wave, p: Id)
    requires Shape(t, s) && Traffic(t, s) && Sleep(t, s)
    requires Remote(t, p) && p !in s.live && p !in s.completed
    ensures var s' := Send(Settle(s, p), Finish(p, false)); Shape(t, s') && Traffic(t, s') && Sleep(t, s')
  {
    var s' := Send(Settle(s, p), Finish(p, false));
    forall n | n in t.kids ensures Placed(t, s', n) {
      assert Placed(t, s, n);
    }
    assert Placed(t, s, p) && Booked(t, s, p);
    forall k | Remote(t, k) ensures Booked(t, s', k) {
      assert Booked(t, s, k);
    }
  }

  lemma SettleLocal(t: Tree, s: Wave, p: Id)
    requires Shape(t, s) && Traffic(t, s) && Sleep(t, s) && Local(t, p) && p !in s.live && p in s.entries
    ensures var s' := Settle(s, p); Shape(t, s') && Traffic(t, s') && Sleep(t, s')
  {
    var s' := Settle(s, p);
    forall n | n in t.kids ensures Placed(t, s', n) {
      assert Placed(t, s, n);
    }
    forall k | Remote(t, k) ensures Booked(t, s', k) {
      assert Booked(t, s, k);
    }
  }

  lemma {:induction false} CreditStops(t: Tree, s: Wave, x: Id)
    requires Shape(t, s) && Traffic(t, s) && Sleep(t, s) && Counters(t, s, Some(x))
    requires x in t.parent && t.parent[x] in s.entries && s.entries[t.parent[x]].awaited != 1
    ensures Inv(t, Credit(t, s, x))
  {
    var s' := Credit(t, s, x);
    forall n | n in t.kids ensures Placed(t, s', n) && Counted(t, s', None, n) {
      assert Placed(t, s, n) && Counted(t, s, Some(x), n);
      OwedSame(t, s, s', n);
    }
    forall k | Remote(t, k) ensures Booked(t, s', k) {
      assert Booked(t, s, k);
    }
  }

  lemma {:induction false} CreditWakes(t: Tree, s: Wave, x: Id)
    requires Shape(t, s) && Traffic(t, s) && Sleep(t, s) && Counters(t, s, Some(x))
    requires x in t.parent && t.parent[x] == t.root
    requires t.root in s.entries && s.entries[t.root].awaited == 1
    ensures Inv(t, Credit(t, s, x))
  {
    var s' := Credit(t, s, x);
    CreditWakesNodes(t, s, x, s');
    forall k | Remote(t, k) ensures Booked(t, s', k) {
      assert Booked(t, s, k);
    }
    assert Counted(t, s, Some(x), t.root);
  }

  lemma CreditWakesNodes(t: Tree, s: Wave, x: Id, s': Wave)
    requires Shape(t, s) && Counters(t, s, Some(x)) && x in t.parent && t.parent[x] == t.root
    requires t.root in s.entries && s.entries[t.root].awaited == 1
    requires s'.live == s.live && s'.net == s.net && s'.completed == s.completed + {t.root}
    requires s'.entries == s.entries[t.root := Entry(0, [])]
    ensures forall n | n in t.kids :: Placed(t, s', n)
    ensures Counters(t, s', None)
  {
    assert Counted(t, s, Some(x), t.root);
    forall n | n in t.kids ensures Placed(t, s', n) && Counted(t, s', None, n) {
      assert Placed(t, s, n) && Counted(t, s, Some(x), n);
      OwedSame(t, s, s', n);
    }
  }

  /** `s'` differs from `s` only in acknowledgements and in entries of completed revocations. */
  ghost predicate Alike(t: Tree, s: Wave, s': Wave) {
    && s'.live == s.live && s'.completed == s.completed
    && (forall m: Msg | !m.Ack? :: m in s'.net <==> m in s.net)
    && s'.entries.Keys <= s.entries.Keys
    && (forall n | n in s.entries :: if n in s'.entries then s'.entries[n] == s.entries[n] else n in s.completed)
  }

  lemma AlikeNodes(t: Tree, s: Wave, s': Wave)
    requires Shape(t, s) && Counters(t, s, None) && Alike(t, s, s')
    ensures forall n | n in t.kids :: Placed(t, s', n)
    ensures Counters(t, s', None)
  {
    forall n | n in t.kids ensures Placed(t, s', n) && Counted(t, s', None, n) {
      assert Placed(t, s, n) && Counted(t, s, None, n);
      OwedSame(t, s, s', n);
    }
  }

  lemma SameTraffic(t: Tree, s: Wave, s': Wave)
    requires Shape(t, s) && Traffic(t, s)
    requires s'.live == s.live && s'.completed == s.completed
    requires s'.net == s.net && s'.sent == s.sent && s'.acked == s.acked
    ensures Traffic(t, s') && forall m | m in s'.net :: MsgOk(t, m)
  {
    forall k | Remote(t, k) ensures Booked(t, s', k) {
      assert Booked(t, s, k);
    }
  }

  lemma DropEntry(t: Tree, s: Wave, p: Id)
    requires Inv(t, s) && p in s.completed && p != t.root
    ensures Inv(t, s.(entries := s.entries - {p}))
  {
    var s' := s.(entries := s.entries - {p});
    AlikeNodes(t, s, s');
    SameTraffic(t, s, s');
  }

  /** Subtracting an answer, and whatever follows from it on the same kernel. */
  lemma {:induction false} CreditKeepsInv(t: Tree, s: Wave, x: Id)
    requires Shape(t, s) && Traffic(t, s) && Sleep(t, s) && Counters(t, s, Some(x))
    requires x in t.parent && t.parent[x] in s.entries
    ensures Inv(t, Credit(t, s, x))
    ensures s.completed <= Credit(t, s, x).completed
    decreases t.height[t.root] - t.height[x]
  {
    var p := t.parent[x];
    assert Counted(t, s, Some(x), p) && Placed(t, s, p);
    if s.entries[p].awaited != 1 {
      CreditStops(t, s, x);
    } else if p == t.root {
      CreditWakes(t, s, x);
    } else if Local(t, p) {
      CompleteLocal(t, s, x);
      SettleLocal(t, s, p);
      CreditKeepsInv(t, Settle(s, p), p);
      DropEntry(t, Credit(t, Settle(s, p), p), p);
    } else {
      SendFinishCounters(t, s, x);
      SendFinishTraffic(t, s, p);
      DropEntry(t, Send(Settle(s, p), Finish(p, false)), p);
    }
  }

  lemma FinishKeepsInv(t: Tree, s: Wave, m: Msg)
    requires Inv(t, s) && m.Finish? && m in s.net
    ensures m.cap in t.parent && Inv(t, HandleFinish(t, s, m))
  {
    TakeFinishShape(t, s, m);
    TakeFinishTraffic(t, s, m);
    TakeFinishCounters(t, s, m);
    CreditKeepsInv(t, TakeFinish(s, m), m.cap);
  }

  lemma AckTraffic(t: Tree, s: Wave, m: Msg)
    requires Traffic(t, s) && m.Ack? && m in s.net && MsgOk(t, m)
    ensures Traffic(t, HandleAck(s, m))
  {
    var s' := HandleAck(s, m);
    forall k | Remote(t, k) ensures Booked(t, s', k) {
      assert Booked(t, s, k);
    }
  }

  lemma AckKeepsInv(t: Tree, s: Wave, m: Msg)
    requires Inv(t, s) && m.Ack? && m in s.net
    ensures Inv(t, HandleAck(s, m))
  {
    assert MsgOk(t, m);
    AckTraffic(t, s, m);
    AlikeNodes(t, s, HandleAck(s, m));
  }

  lemma ResumeKeepsInv(t: Tree, s: Wave)
    requires Inv(t, s) && s.thread.Runnable?
    ensures Inv(t, Resume(t, s))
  {
    AlikeNodes(t, s, Resume(t, s));
    SameTraffic(t, s, Resume(t, s));
  }

  // ------------------------------------------------------------- fanning out

  /** A freshly revoked local part owes all of its remote edges. */
  lemma {:induction false} FreshDebt(t: Tree, s: Wave, c: Id, n: Id)
    requires n in t.kids && Under(t, n, c)
    requires forall k | k in t.parent && Under(t, t.parent[k], c) ::
               k in s.completed ==> !Remote(t, k) && Await(t, k) == 0
    ensures Owed(t, s, n) == Await(t, n)
  {
    OwedFresh(t, s, n, |t.kids[n]|);
  }

  /** As long as the request for `c` is on its way, nothing below `c` has been touched. */
  lemma {:induction false} StillLive(t: Tree, s: Wave, c: Id, n: Id)
    requires Shape(t, s) && c in s.live && n in t.kids && Under(t, n, c)
    ensures n in s.live
    decreases t.height[t.root] - t.height[n]
  {
    if n != c {
      StillLive(t, s, c, t.parent[n]);
      assert Placed(t, s, n);
    }
  }

  /** What delivering the request for `c` does, seen from the capability `n`. */
  ghost predicate After(t: Tree, s: Wave, c: Id, s': Wave, n: Id)
    requires c in t.kids && n in t.kids
  {
    && (n in s'.live <==> n in s.live && !Under(t, n, c))
    && (n in s'.completed <==> n in s.completed || (Under(t, n, c) && Await(t, n) == 0))
    && (n in s'.entries <==> n in s.entries || (Under(t, n, c) && Await(t, n) > 0))
    && (n in s'.entries ==> s'.entries[n] == EntryAfter(t, s, c, n))
    && (Remote(t, n) ==> NetAfter(t, s.net, c, s'.net, n) && SentAfter(t, s.sent, c, s'.sent, n))
    && s'.acked == s.acked
  }

  ghost function EntryAfter(t: Tree, s: Wave, c: Id, n: Id): Entry
    requires n in t.kids
    requires n in s.entries || (Under(t, n, c) && Await(t, n) > 0)
  {
    if Under(t, n, c) && Await(t, n) > 0
    then Entry(Await(t, n), if n == c then [] else [t.parent[n]])
    else s.entries[n]
  }

  ghost predicate NetAfter(t: Tree, net: set<Msg>, c: Id, net': set<Msg>, n: Id)
    requires c in t.kids && Remote(t, n)
  {
    var done := n == c && Await(t, c) == 0;
    && (Revoke(n) in net' <==> (Revoke(n) in net && n != c) || Under(t, t.parent[n], c))
    && (Ack(Revoke(n)) in net' <==> Ack(Revoke(n)) in net || (n == c && !done))
    && (Finish(n, true) in net' <==> Finish(n, true) in net || done)
    && (Finish(n, false) in net' <==> Finish(n, false) in net)
    && (forall b :: Ack(Finish(n, b)) in net' <==> Ack(Finish(n, b)) in net)
  }

  ghost predicate SentAfter(t: Tree, sent: multiset<Msg>, c: Id, sent': multiset<Msg>, n: Id)
    requires c in t.kids && Remote(t, n)
  {
    && sent'[Revoke(n)] == sent[Revoke(n)] + One(Under(t, t.parent[n], c))
    && sent'[Finish(n, true)] == sent[Finish(n, true)] + One(n == c && Await(t, c) == 0)
    && sent'[Finish(n, false)] == sent[Finish(n, false)]
  }

  ghost predicate AfterAll(t: Tree, s: Wave, c: Id, s': Wave) {
    && c in t.kids
    && forall n {:trigger After(t, s, c, s', n)} | n in t.kids :: After(t, s, c, s', n)
  }

  lemma {:induction false} RequestsMember(t: Tree, c: Id, k: Id)
    requires Remote(t, k)
    ensures Revoke(k) in Requests(t, c) <==> Under(t, t.parent[k], c)
    ensures multiset(Requests(t, c))[Revoke(k)] == One(Under(t, t.parent[k], c))
  {
    assert Revoke(k) in Requests(t, c) <==> k in RemoteEdges(t, c);
  }

  lemma {:induction false} RevokeNet(t: Tree, net: set<Msg>, c: Id, last: Msg, n: Id)
    requires Remote(t, c) && Remote(t, n) && !last.Revoke?
    ensures var net' := net - {Revoke(c)} + Requests(t, c) + {last};
            && (Revoke(n) in net' <==> (Revoke(n) in net && n != c) || Under(t, t.parent[n], c))
            && (forall m | m in net' && !m.Revoke? :: m in net || m == last)
            && net - {Revoke(c)} <= net' && last in net'
  {
    RequestsMember(t, c, n);
    UnderParent(t, c);
  }

  lemma {:induction false} RevokeSent(t: Tree, sent: multiset<Msg>, c: Id, n: Id)
    requires Remote(t, n)
    ensures var sent' := sent + multiset(Requests(t, c));
            && sent'[Revoke(n)] == sent[Revoke(n)] + One(Under(t, t.parent[n], c))
            && (forall b :: sent'[Finish(n, b)] == sent[Finish(n, b)])
  {
    RequestsMember(t, c, n);
    forall b ensures Finish(n, b) !in Requests(t, c) {
    }
  }

  lemma RevokeViewNet(t: Tree, s: Wave, c: Id, n: Id)
    requires Remote(t, c) && Remote(t, n)
    ensures NetAfter(t, s.net, c, HandleRevoke(t, s, Revoke(c)).net, n)
  {
    var last := if Await(t, c) == 0 then Finish(c, true) else Ack(Revoke(c));
    RevokeNet(t, s.net, c, last, n);
    assert HandleRevoke(t, s, Revoke(c)).net == s.net - {Revoke(c)} + Requests(t, c) + {last};
  }

  lemma RevokeViewSent(t: Tree, s: Wave, c: Id, n: Id)
    requires Remote(t, c) && Remote(t, n)
    ensures SentAfter(t, s.sent, c, HandleRevoke(t, s, Revoke(c)).sent, n)
  {
    hide NewEntries, LocalPart, Answered, Requests;
    RevokeSent(t, s.sent, c, n);
  }

  lemma RevokeMsgs(t: Tree, s: Wave, c: Id)
    requires Shape(t, s) && Traffic(t, s) && Remote(t, c)
    ensures var s' := HandleRevoke(t, s, Revoke(c));
            && (forall m | m in s'.net :: MsgOk(t, m))
            && (forall m | m in s'.sent || m in s'.acked :: CallOk(t, m))
            && s'.live <= t.kids.Keys && s'.completed <= t.kids.Keys
            && s'.thread == s.thread && s'.wakeups == s.wakeups
  {
  }

  lemma RevokeView(t: Tree, s: Wave, c: Id)
    requires Remote(t, c)
    ensures AfterAll(t, s, c, HandleRevoke(t, s, Revoke(c)))
  {
    forall n | n in t.kids ensures After(t, s, c, HandleRevoke(t, s, Revoke(c)), n) {
      if Remote(t, n) {
        RevokeViewNet(t, s, c, n);
        RevokeViewSent(t, s, c, n);
      }
    }
  }

  lemma {:induction false} UnderParent(t: Tree, c: Id)
    requires c in t.parent
    ensures !Under(t, t.parent[c], c)
  {
    if Under(t, t.parent[c], c) {
      UnderIsLower(t, t.parent[c], c);
    }
  }

  lemma {:induction false} FreshKid(t: Tree, s: Wave, c: Id, s': Wave, k: Id)
    requires Shape(t, s) && AfterAll(t, s, c, s') && Remote(t, c) && c in s.live
    requires k in t.parent && Under(t, t.parent[k], c) && k in s'.completed
    ensures !Remote(t, k) && Await(t, k) == 0
  {
    StillLive(t, s, c, t.parent[k]);
    UnderParent(t, c);
    assert Placed(t, s, k) && After(t, s, c, s', k);
  }

  lemma {:induction false} FanInside(t: Tree, s: Wave, c: Id, s': Wave, n: Id)
    requires Shape(t, s) && AfterAll(t, s, c, s') && Remote(t, c) && c in s.live
    requires n in t.kids && Under(t, n, c) && Counted(t, s, None, n)
    ensures Counted(t, s', None, n)
  {
    forall k | k in t.parent && Under(t, t.parent[k], c) && k in s'.completed
      ensures !Remote(t, k) && Await(t, k) == 0
    {
      FreshKid(t, s, c, s', k);
    }
    FreshDebt(t, s', c, n);
    StillLive(t, s, c, n);
    assert Placed(t, s, n) && After(t, s, c, s', n);
  }

  lemma {:induction false} FanOutside(t: Tree, s: Wave, c: Id, s': Wave, n: Id)
    requires Shape(t, s) && AfterAll(t, s, c, s') && Remote(t, c) && c in s.live
    requires n in t.kids && !Under(t, n, c) && Counted(t, s, None, n)
    ensures Counted(t, s', None, n)
  {
    forall k | k in t.parent && t.parent[k] == n ensures Term(t, s, k) == Term(t, s', k) {
      assert After(t, s, c, s', k) && Placed(t, s, k);
    }
    OwedSame(t, s, s', n);
    assert After(t, s, c, s', n);
  }

  lemma RevokePlaced(t: Tree, s: Wave, c: Id, s': Wave, n: Id)
    requires Shape(t, s) && AfterAll(t, s, c, s') && Remote(t, c) && Revoke(c) in s.net
    requires n in t.kids
    ensures Placed(t, s', n)
  {
    assert Placed(t, s, c) && Placed(t, s, n) && After(t, s, c, s', n);
    if n in t.parent {
      assert After(t, s, c, s', t.parent[n]);
      if Under(t, t.parent[n], c) {
        StillLive(t, s, c, t.parent[n]);
        UnderParent(t, c);
      }
    } else {
      UnderIsRoot(t, c);
    }
  }

  lemma {:induction false} UnderIsRoot(t: Tree, c: Id)
    requires c in t.parent
    ensures !Under(t, t.root, c)
  {
  }

  lemma RevokeBooked(t: Tree, s: Wave, c: Id, s': Wave, k: Id)
    requires Shape(t, s) && Traffic(t, s) && AfterAll(t, s, c, s') && Remote(t, c) && Revoke(c) in s.net
    requires Remote(t, k)
    ensures Booked(t, s', k)
  {
    assert Placed(t, s, c) && Placed(t, s, k) && Booked(t, s, k);
    assert After(t, s, c, s', k) && After(t, s, c, s', t.parent[k]);
    if Under(t, t.parent[k], c) {
      StillLive(t, s, c, t.parent[k]);
      UnderParent(t, c);
    }
  }

  lemma RevokeNodes(t: Tree, s: Wave, c: Id, s': Wave)
    requires Inv(t, s) && AfterAll(t, s, c, s') && Remote(t, c) && Revoke(c) in s.net
    ensures forall n | n in t.kids :: Counted(t, s', None, n) && Placed(t, s', n)
    ensures forall k | Remote(t, k) :: Booked(t, s', k)
  {
    assert Placed(t, s, c);
    forall n | n in t.kids ensures Counted(t, s', None, n) && Placed(t, s', n) {
      RevokePlaced(t, s, c, s', n);
      assert Counted(t, s, None, n);
      if Under(t, n, c) {
        FanInside(t, s, c, s', n);
      } else {
        FanOutside(t, s, c, s', n);
      }
    }
    forall k | Remote(t, k) ensures Booked(t, s', k) {
      RevokeBooked(t, s, c, s', k);
    }
  }

  lemma RevokeKeepsInv(t: Tree, s: Wave, m: Msg)
    requires Inv(t, s) && m.Revoke? && m in s.net
    ensures m.cap in t.kids && Inv(t, HandleRevoke(t, s, m))
  {
    var c := m.cap;
    assert MsgOk(t, m);
    var s' := HandleRevoke(t, s, m);
    RevokeView(t, s, c);
    RevokeMsgs(t, s, c);
    RevokeNodes(t, s, c, s');
    assert After(t, s, c, s', t.root);
    UnderIsRoot(t, c);
    assert s'.entries.Keys <= t.kids.Keys;
  }

  // ------------------------------------------------------------ whole runs

  lemma StartView(t: Tree)
    ensures AfterAll(t, Initial(t), t.root, Start(t))
  {
    forall n | n in t.kids ensures After(t, Initial(t), t.root, Start(t), n) {
      if Remote(t, n) {
        StartViewRemote(t, n);
      }
    }
  }

  lemma StartViewRemote(t: Tree, n: Id)
    requires Remote(t, n)
    ensures NetAfter(t, {}, t.root, Start(t).net, n)
    ensures SentAfter(t, multiset{}, t.root, Start(t).sent, n)
  {
    RequestsMember(t, t.root, n);
    RevokeSent(t, multiset{}, t.root, n);
    assert Start(t).net == Requests(t, t.root);
  }

  lemma StartNode(t: Tree, s: Wave, n: Id)
    requires AfterAll(t, Initial(t), t.root, s) && n in t.kids
    ensures Placed(t, s, n) && Counted(t, s, None, n)
    ensures Remote(t, n) ==> Booked(t, s, n)
  {
    assert After(t, Initial(t), t.root, s, n);
    if n in t.parent {
      assert After(t, Initial(t), t.root, s, t.parent[n]);
    }
    forall k | k in t.parent && Under(t, t.parent[k], t.root) && k in s.completed
      ensures !Remote(t, k) && Await(t, k) == 0
    {
      assert After(t, Initial(t), t.root, s, k);
    }
    if Under(t, n, t.root) {
      FreshDebt(t, s, t.root, n);
    }
  }

  lemma StartInv(t: Tree)
    ensures Inv(t, Start(t))
  {
    var s := Start(t);
    StartView(t);
    forall n | n in t.kids
      ensures Placed(t, s, n) && Counted(t, s, None, n) && (Remote(t, n) ==> Booked(t, s, n))
    {
      StartNode(t, s, n);
    }
    StartMsgs(t);
    assert After(t, Initial(t), t.root, s, t.root);
  }

  lemma StartMsgs(t: Tree)
    ensures var s := Start(t);
            && (forall m | m in s.net || m in s.sent :: MsgOk(t, m) && CallOk(t, m))
            && s.live <= t.kids.Keys && s.completed <= t.kids.Keys && s.entries.Keys <= t.kids.Keys
            && s.acked == multiset{}
  {
    var rs := Requests(t, t.root);
    assert forall m | m in rs :: CallOk(t, m);
    var s := Start(t);
    assert s.net == rs;
    assert s.sent == multiset(rs);
  }

  lemma StepKeepsInv(t: Tree, s: Wave, s': Wave)
    requires Inv(t, s) && Step(t, s, s')
    ensures Inv(t, s')
  {
    if s.thread.Runnable? && s' == Resume(t, s) {
      ResumeKeepsInv(t, s);
    } else {
      var m :| m in s.net && Deliver(t, s, m, s');
      match m
      case Revoke(_) => RevokeKeepsInv(t, s, m);
      case Finish(_, _) => FinishKeepsInv(t, s, m);
      case Ack(_) => AckKeepsInv(t, s, m);
    }
  }

  lemma Shorten(t: Tree, run: seq<Wave>)
    requires Run(t, run) && |run| > 1
    ensures Run(t, run[..|run| - 1]) && Step(t, run[|run| - 2], run[|run| - 1])
  {
    var shorter := run[..|run| - 1];
    forall i | 0 <= i < |shorter| ensures StateAt(t, shorter, i) {
      assert StateAt(t, run, i);
    }
    assert StateAt(t, run, |run| - 1);
  }

  /** The invariant holds in every state of every run over every tree. */
  lemma {:induction false} RunInv(t: Tree, run: seq<Wave>)
    requires Run(t, run)
    ensures Inv(t, run[|run| - 1])
  {
    if |run| == 1 {
      assert StateAt(t, run, 0);
      StartInv(t);
    } else {
      Shorten(t, run);
      RunInv(t, run[..|run| - 1]);
      StepKeepsInv(t, run[|run| - 2], run[|run| - 1]);
    }
  }
}

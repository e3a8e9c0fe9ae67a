/**
 The handlers themselves, as they change the tables, the revocation lists and the network
 step by step. Each is proved to do exactly what the state machine of RevocationWave says.
 */
module RevocationHandlers {
  import opened Common
  import opened CapTree
  import opened RevocationWave
  import opened RevocationInvariant
  import opened RevocationOrder

  // ------------------------------------- what revoke_rec has done after i children

  function EntriesUpTo(t: Tree, c: Id, i: nat): map<Id, Entry>
    requires c in t.kids && i <= |t.kids[c]|
  {
    map n | n in LocalUpTo(t, c, i) && n in t.parent && Await(t, n) > 0 :: Entry(Await(t, n), [t.parent[n]])
  }

  function OwnEntry(t: Tree, c: Id, i: nat): map<Id, Entry>
    requires c in t.kids && i <= |t.kids[c]|
  {
    if AwaitUpTo(t, c, i) > 0 then map[c := Entry(AwaitUpTo(t, c, i), [])] else map[]
  }

  /** The entries of the local child `k` after its parent has subscribed to it. */
  function Subscribed(t: Tree, k: Id): map<Id, Entry>
    requires k in t.parent
  {
    if Await(t, k) > 0 then NewEntries(t, k)[k := Entry(Await(t, k), [t.parent[k]])] else NewEntries(t, k)
  }

  function DoneUpTo(t: Tree, c: Id, i: nat): set<Id>
    requires c in t.kids && i <= |t.kids[c]|
  {
    set n | n in LocalUpTo(t, c, i) && n in t.kids && Await(t, n) == 0
  }

  lemma {:induction false} NotRoot(t: Tree, c: Id, i: nat)
    requires c in t.kids && i <= |t.kids[c]|
    ensures forall n | n in LocalUpTo(t, c, i) :: n in t.parent && n != c
  {
    forall n | n in LocalUpTo(t, c, i) ensures n in t.parent && n != c {
      LocalUpToMember(t, c, i, n);
      var j :| 0 <= j < i && Local(t, t.kids[c][j]) && Under(t, n, t.kids[c][j]);
      UnderIsLower(t, n, t.kids[c][j]);
    }
  }

  lemma EntriesStep(t: Tree, c: Id, i: nat)
    requires c in t.kids && i < |t.kids[c]|
    ensures EntriesUpTo(t, c, i + 1) ==
            EntriesUpTo(t, c, i) + (if Local(t, t.kids[c][i]) then Subscribed(t, t.kids[c][i]) else map[])
  {
    var k := t.kids[c][i];
    NotRoot(t, c, i + 1);
    if Local(t, k) {
      KidsDisjoint(t, c, i);
      var sub := Subscribed(t, k);
      assert forall n :: n in sub <==> n in LocalPart(t, k) && Await(t, n) > 0;
      assert forall n | n in sub :: n in t.parent && sub[n] == Entry(Await(t, n), [t.parent[n]]);
    }
  }

  lemma EntriesAll(t: Tree, c: Id)
    requires c in t.kids
    ensures NewEntries(t, c) == EntriesUpTo(t, c, |t.kids[c]|) + OwnEntry(t, c, |t.kids[c]|)
  {
    LocalPartByKids(t, c);
    NotRoot(t, c, |t.kids[c]|);
  }

  /** The state of the wave after the loop of revoke_rec on `c` has treated `i` children. */
  ghost function Partial(t: Tree, s: Wave, c: Id, i: nat): Wave
    requires c in t.kids && i <= |t.kids[c]|
  {
    s.(live := s.live - {c} - LocalUpTo(t, c, i),
       entries := s.entries + EntriesUpTo(t, c, i) + OwnEntry(t, c, i),
       net := s.net + RequestsUpTo(t, c, i),
       completed := s.completed + DoneUpTo(t, c, i),
       sent := s.sent + multiset(RequestsUpTo(t, c, i)))
  }

  function RequestsUpTo(t: Tree, c: Id, i: nat): set<Msg>
    requires c in t.kids && i <= |t.kids[c]|
  {
    set k | k in RemoteUpTo(t, c, i) :: Revoke(k)
  }

  lemma RequestsStep(t: Tree, c: Id, i: nat)
    requires c in t.kids && i < |t.kids[c]|
    ensures var more := if Local(t, t.kids[c][i]) then Requests(t, t.kids[c][i]) else {Revoke(t.kids[c][i])};
            RequestsUpTo(t, c, i + 1) == RequestsUpTo(t, c, i) + more && RequestsUpTo(t, c, i) !! more
  {
    KidsDisjoint(t, c, i);
    var k := t.kids[c][i];
    assert Local(t, k) || Remote(t, k);
  }

  lemma PartialFirst(t: Tree, s: Wave, c: Id)
    requires c in t.kids
    ensures Partial(t, s, c, 0) == s.(live := s.live - {c})
  {
  }

  type Entries = map<Id, Entry>

  lemma OverrideOwn(m: Entries, own: Entries, c: Id, e: Entry)
    requires own.Keys <= {c}
    ensures m + map[c := e] == (m + own)[c := e]
  {
  }

  lemma Combine(base: Entries, below: Entries, own: Entries, new': Entries,
                below': Entries, own': Entries, c: Id, e: Entry, k: Id, f: Entry, waits: bool)
    requires own.Keys <= {c} && c != k && c !in new'
    requires below' == below + if waits then new'[k := f] else new'
    requires own' == if waits then map[c := e] else own
    ensures base + below' + own' ==
            if waits then (base + below + own + new')[c := e][k := f] else base + below + own + new'
  {
  }

  lemma OwnStep(t: Tree, c: Id, i: nat)
    requires c in t.kids && i < |t.kids[c]|
    ensures var k := t.kids[c][i];
            && OwnEntry(t, c, i).Keys <= {c}
            && (Remote(t, k) ==> OwnEntry(t, c, i + 1) == map[c := Entry(AwaitUpTo(t, c, i) + 1, [])])
            && (Local(t, k) && Await(t, k) == 0 ==> OwnEntry(t, c, i + 1) == OwnEntry(t, c, i))
            && (Local(t, k) && Await(t, k) > 0 ==>
                  && OwnEntry(t, c, i + 1) == map[c := Entry(AwaitUpTo(t, c, i) + Await(t, k), [])]
                  && c !in NewEntries(t, k) && c != k)
            && (Local(t, k) ==> c !in NewEntries(t, k) && c != k)
  {
    hide LocalPart, LocalUpTo, RemoteUpTo, RemoteEdges;
    KidsDisjoint(t, c, i);
    NewEntriesIn(t, t.kids[c][i]);
  }

  lemma NewEntriesIn(t: Tree, k: Id)
    ensures NewEntries(t, k).Keys <= LocalPart(t, k)
  {
  }

  lemma LocalStep(t: Tree, c: Id, i: nat)
    requires c in t.kids && i < |t.kids[c]|
    ensures var k := t.kids[c][i];
            && (Remote(t, k) ==>
                  LocalUpTo(t, c, i + 1) == LocalUpTo(t, c, i) && DoneUpTo(t, c, i + 1) == DoneUpTo(t, c, i))
            && (Local(t, k) ==>
                  && LocalUpTo(t, c, i + 1) == LocalUpTo(t, c, i) + LocalPart(t, k)
                  && DoneUpTo(t, c, i + 1) == DoneUpTo(t, c, i) + Answered(t, k))
  {
  }

  /** A remote child: one more answer to wait for, and a request. */
  lemma PartialRemote(t: Tree, s: Wave, c: Id, i: nat)
    requires c in t.kids && i < |t.kids[c]| && Remote(t, t.kids[c][i])
    ensures var p := Partial(t, s, c, i);
            Partial(t, s, c, i + 1) ==
            Send(p.(entries := p.entries[c := Entry(AwaitUpTo(t, c, i) + 1, [])]), Revoke(t.kids[c][i]))
  {
    LocalStep(t, c, i);
    RequestsStep(t, c, i);
    RemoteEntries(t, s.entries, c, i);
    MoreRequests(s, RequestsUpTo(t, c, i), {Revoke(t.kids[c][i])});
  }

  lemma RemoteEntries(t: Tree, base: Entries, c: Id, i: nat)
    requires c in t.kids && i < |t.kids[c]| && Remote(t, t.kids[c][i])
    ensures base + EntriesUpTo(t, c, i + 1) + OwnEntry(t, c, i + 1) ==
            (base + EntriesUpTo(t, c, i) + OwnEntry(t, c, i))[c := Entry(AwaitUpTo(t, c, i) + 1, [])]
  {
    EntriesStep(t, c, i);
    OwnStep(t, c, i);
    OverrideOwn(base + EntriesUpTo(t, c, i), OwnEntry(t, c, i), c, Entry(AwaitUpTo(t, c, i) + 1, []));
  }

  lemma MoreRequests(s: Wave, a: set<Msg>, b: set<Msg>)
    requires a !! b
    ensures s.net + (a + b) == s.net + a + b
    ensures s.sent + multiset(a + b) == s.sent + multiset(a) + multiset(b)
  {
  }

  /** A local child: its own part, and its answers added up, with a subscription. */
  lemma PartialLocal(t: Tree, s: Wave, c: Id, i: nat)
    requires c in t.kids && i < |t.kids[c]| && Local(t, t.kids[c][i])
    ensures var k := t.kids[c][i];
            var p := Fan(t, Partial(t, s, c, i), k);
            Partial(t, s, c, i + 1) ==
            if Await(t, k) == 0 then p else
            p.(entries := p.entries[c := Entry(AwaitUpTo(t, c, i) + Await(t, k), [])]
                                   [k := Entry(Await(t, k), [c])])
  {
    var k := t.kids[c][i];
    LocalStep(t, c, i);
    RequestsStep(t, c, i);
    PartialLocalEntries(t, s.entries, c, i);
    MoreRequests(s, RequestsUpTo(t, c, i), Requests(t, k));
    hide EntriesUpTo, OwnEntry, NewEntries, LocalUpTo, LocalPart, RequestsUpTo, Requests, DoneUpTo,
      RevocationWave.Answered, Await, AwaitUpTo, Local;
  }

  lemma PartialLocalEntries(t: Tree, base: Entries, c: Id, i: nat)
    requires c in t.kids && i < |t.kids[c]| && Local(t, t.kids[c][i])
    ensures var k := t.kids[c][i];
            var e := base + EntriesUpTo(t, c, i) + OwnEntry(t, c, i) + NewEntries(t, k);
            base + EntriesUpTo(t, c, i + 1) + OwnEntry(t, c, i + 1) ==
            if Await(t, k) == 0 then e else
            e[c := Entry(AwaitUpTo(t, c, i) + Await(t, k), [])][k := Entry(Await(t, k), [c])]
  {
    var k := t.kids[c][i];
    EntriesStep(t, c, i);
    OwnStep(t, c, i);
    hide EntriesUpTo, OwnEntry, NewEntries, Await, AwaitUpTo;
    Combine(base, EntriesUpTo(t, c, i), OwnEntry(t, c, i), NewEntries(t, k),
            EntriesUpTo(t, c, i + 1), OwnEntry(t, c, i + 1),
            c, Entry(AwaitUpTo(t, c, i) + Await(t, k), []), k, Entry(Await(t, k), [c]), Await(t, k) > 0);
  }

  lemma {:induction false} PartialLast(t: Tree, s: Wave, c: Id)
    requires c in t.kids
    ensures var p := Partial(t, s, c, |t.kids[c]|);
            Fan(t, s, c) == if Await(t, c) == 0 then p.(completed := p.completed + {c}) else p
  {
    PartialLastEntries(t, s.entries, c);
    PartialLastSets(t, s, c);
    PartialLastRequests(t, c);
  }

  lemma PartialLastRequests(t: Tree, c: Id)
    requires c in t.kids
    ensures Requests(t, c) == RequestsUpTo(t, c, |t.kids[c]|)
  {
    RemoteEdgesByKids(t, c);
  }

  lemma PartialLastEntries(t: Tree, base: Entries, c: Id)
    requires c in t.kids
    ensures base + NewEntries(t, c) == base + EntriesUpTo(t, c, |t.kids[c]|) + OwnEntry(t, c, |t.kids[c]|)
  {
    EntriesAll(t, c);
  }

  lemma {:induction false} PartialLastSets(t: Tree, s: Wave, c: Id)
    requires c in t.kids
    ensures s.live - LocalPart(t, c) == s.live - {c} - LocalUpTo(t, c, |t.kids[c]|)
    ensures s.completed + Answered(t, c) ==
            if Await(t, c) == 0 then s.completed + DoneUpTo(t, c, |t.kids[c]|) + {c}
            else s.completed + DoneUpTo(t, c, |t.kids[c]|)
  {
    LocalPartByKids(t, c);
    NotRoot(t, c, |t.kids[c]|);
  }

  /** The recursive call leaves the entry of `c` alone and makes one for `k` if it must wait. */
  lemma {:induction false} LocalAwaited(t: Tree, s: Wave, c: Id, i: nat)
    requires c in t.kids && i < |t.kids[c]| && Local(t, t.kids[c][i]) && c !in s.entries
    ensures var k := t.kids[c][i];
            var e := Fan(t, Partial(t, s, c, i), k).entries;
            && (c in e <==> AwaitUpTo(t, c, i) > 0)
            && (c in e ==> e[c] == Entry(AwaitUpTo(t, c, i), []))
            && (Await(t, k) > 0 ==> k in e && e[k] == Entry(Await(t, k), []))
            && c != k
  {
    OwnAwaited(t, s, c, i);
    OwnStep(t, c, i);
    assert t.kids[c][i] in LocalPart(t, t.kids[c][i]);
  }

  /** During the loop the entry of `c` holds the answers counted so far, or does not exist. */
  lemma {:induction false} OwnAwaited(t: Tree, s: Wave, c: Id, i: nat)
    requires c in t.kids && i <= |t.kids[c]| && c !in s.entries
    ensures var e := Partial(t, s, c, i).entries;
            && (c in e <==> AwaitUpTo(t, c, i) > 0)
            && (c in e ==> e[c] == Entry(AwaitUpTo(t, c, i), []))
  {
    NotRoot(t, c, i);
  }

  lemma PartDisjoint(t: Tree, s: Wave, c: Id, i: nat)
    requires c in t.kids && i < |t.kids[c]| && Local(t, t.kids[c][i])
    requires LocalPart(t, c) !! s.entries.Keys
    ensures LocalPart(t, t.kids[c][i]) !! Partial(t, s, c, i).entries.Keys
    ensures t.height[t.kids[c][i]] < t.height[c]
  {
    KidsDisjoint(t, c, i);
    forall n | n in LocalPart(t, t.kids[c][i]) ensures n in LocalPart(t, c) {
      UnderTrans(t, n, t.kids[c][i], c);
    }
  }

  // ------------------------------------------------- revoke_rec step by step

  /** RevocationList::add unless there is an entry already, and `add` more answers. */
  function More(s: Wave, c: Id, add: int): Wave {
    var e := if c in s.entries then s.entries[c] else Entry(0, []);
    s.(entries := s.entries[c := e.(awaited := e.awaited + add)])
  }

  function AwaitedBy(s: Wave, c: Id): int {
    if c in s.entries then s.entries[c].awaited else 0
  }

  /** The entry of `k`, if there is one, informs `c` when it is done. */
  function Subscribe(s: Wave, k: Id, c: Id): Wave {
    if k !in s.entries then s else
      s.(entries := s.entries[k := s.entries[k].(subs := s.entries[k].subs + [c])])
  }

  function Rec(t: Tree, s: Wave, c: Id): Wave
    requires c in t.kids
    decreases t.height[c], |t.kids[c]| + 1
  {
    var s' := RecUpTo(t, s, c, |t.kids[c]|);
    if c in s'.entries then s' else s'.(completed := s'.completed + {c})
  }

  /** The state when revoke_rec on `c` has treated `i` children. */
  function RecUpTo(t: Tree, s: Wave, c: Id, i: nat): Wave
    requires c in t.kids && i <= |t.kids[c]|
    decreases t.height[c], i
  {
    if i == 0 then s.(live := s.live - {c}) else
      var s' := RecUpTo(t, s, c, i - 1);
      var k := t.kids[c][i - 1];
      if t.home[k] == t.home[c] then
        var s'' := Rec(t, s', k);
        if AwaitedBy(s'', k) == 0 then s''
        else Subscribe(More(s'', c, AwaitedBy(s'', k)), k, c)
      else
        Send(More(s', c, 1), Revoke(k))
  }

  lemma RecNext(t: Tree, s: Wave, c: Id, i: nat)
    requires c in t.kids && i < |t.kids[c]|
    ensures var k, s' := t.kids[c][i], RecUpTo(t, s, c, i);
            RecUpTo(t, s, c, i + 1) ==
            if t.home[k] != t.home[c] then Send(More(s', c, 1), Revoke(k))
            else if AwaitedBy(Rec(t, s', k), k) == 0 then Rec(t, s', k)
            else Subscribe(More(Rec(t, s', k), c, AwaitedBy(Rec(t, s', k), k)), k, c)
  {
    hide More, Subscribe, Send;
  }

  lemma {:induction false} RecEnds(t: Tree, s: Wave, c: Id)
    requires c in t.kids
    ensures RecUpTo(t, s, c, 0) == s.(live := s.live - {c})
    ensures var s' := RecUpTo(t, s, c, |t.kids[c]|);
            Rec(t, s, c) == if c in s'.entries then s' else s'.(completed := s'.completed + {c})
  {
  }

  lemma {:induction false} RecUpToClosed(t: Tree, s: Wave, c: Id, i: nat)
    requires c in t.kids && i <= |t.kids[c]| && LocalPart(t, c) !! s.entries.Keys
    ensures RecUpTo(t, s, c, i) == Partial(t, s, c, i)
    decreases t.height[c], i
  {
    hide Partial, Fan, Rec, RecUpTo, LocalPart;
    if i == 0 {
      PartialFirst(t, s, c);
      RecEnds(t, s, c);
    } else {
      NotInEntries(t, s, c);
      RecUpToClosed(t, s, c, i - 1);
      if Local(t, t.kids[c][i - 1]) {
        PartDisjoint(t, s, c, i - 1);
        RecClosed(t, Partial(t, s, c, i - 1), t.kids[c][i - 1]);
        RecLocal(t, s, c, i - 1);
      } else {
        RecRemote(t, s, c, i - 1);
      }
    }
  }

  lemma NotInEntries(t: Tree, s: Wave, c: Id)
    requires c in t.kids && LocalPart(t, c) !! s.entries.Keys
    ensures c !in s.entries
  {
    assert c in LocalPart(t, c);
  }

  lemma RecLocal(t: Tree, s: Wave, c: Id, i: nat)
    requires c in t.kids && i < |t.kids[c]| && Local(t, t.kids[c][i]) && c !in s.entries
    requires var k, p := t.kids[c][i], Partial(t, s, c, i);
             RecUpTo(t, s, c, i) == p && Rec(t, p, k) == Fan(t, p, k) && AwaitedBy(Rec(t, p, k), k) == Await(t, k)
    ensures RecUpTo(t, s, c, i + 1) == Partial(t, s, c, i + 1)
  {
    hide Partial, Fan, Rec, RecUpTo, More, Subscribe, Send, AwaitedBy, Await;
    RecNext(t, s, c, i);
    ClosedLocal(t, s, c, i);
  }

  lemma RecRemote(t: Tree, s: Wave, c: Id, i: nat)
    requires c in t.kids && i < |t.kids[c]| && Remote(t, t.kids[c][i]) && c !in s.entries
    requires RecUpTo(t, s, c, i) == Partial(t, s, c, i)
    ensures RecUpTo(t, s, c, i + 1) == Partial(t, s, c, i + 1)
  {
    hide Partial, Rec, RecUpTo, More, Subscribe, Send;
    RecNext(t, s, c, i);
    ClosedRemote(t, s, c, i);
  }

  lemma MoreIs(p: Wave, c: Id, n: nat, add: int)
    requires c in p.entries <==> n > 0
    requires c in p.entries ==> p.entries[c] == Entry(n, [])
    ensures More(p, c, add) == p.(entries := p.entries[c := Entry(n + add, [])])
  {
  }

  lemma SubscribeIs(p: Wave, k: Id, n: int, c: Id, e: Entry)
    requires k in p.entries && p.entries[k] == Entry(n, []) && c != k
    ensures Subscribe(p.(entries := p.entries[c := e]), k, c) ==
            p.(entries := p.entries[c := e][k := Entry(n, [c])])
  {
    assert [] + [c] == [c];
  }

  lemma ClosedRemote(t: Tree, s: Wave, c: Id, i: nat)
    requires c in t.kids && i < |t.kids[c]| && Remote(t, t.kids[c][i]) && c !in s.entries
    ensures Send(More(Partial(t, s, c, i), c, 1), Revoke(t.kids[c][i])) == Partial(t, s, c, i + 1)
  {
    hide EntriesUpTo, OwnEntry, RequestsUpTo, DoneUpTo, LocalUpTo;
    OwnAwaited(t, s, c, i);
    MoreIs(Partial(t, s, c, i), c, AwaitUpTo(t, c, i), 1);
    PartialRemote(t, s, c, i);
  }

  lemma {:induction false} ClosedLocal(t: Tree, s: Wave, c: Id, i: nat)
    requires c in t.kids && i < |t.kids[c]| && Local(t, t.kids[c][i]) && c !in s.entries
    requires AwaitedBy(Fan(t, Partial(t, s, c, i), t.kids[c][i]), t.kids[c][i]) == Await(t, t.kids[c][i])
    ensures var k := t.kids[c][i];
            var p := Fan(t, Partial(t, s, c, i), k);
            Partial(t, s, c, i + 1) ==
            if Await(t, k) == 0 then p else Subscribe(More(p, c, Await(t, k)), k, c)
  {
    hide Partial, Fan;
    LocalAwaited(t, s, c, i);
    PartialLocal(t, s, c, i);
    var k := t.kids[c][i];
    if Await(t, k) > 0 {
      AddUp(Fan(t, Partial(t, s, c, i), k), c, AwaitUpTo(t, c, i), k, Await(t, k));
    }
  }

  lemma AddUp(p: Wave, c: Id, n: nat, k: Id, add: nat)
    requires c in p.entries <==> n > 0
    requires c in p.entries ==> p.entries[c] == Entry(n, [])
    requires k in p.entries && p.entries[k] == Entry(add, []) && c != k
    ensures Subscribe(More(p, c, add), k, c) ==
            p.(entries := p.entries[c := Entry(n + add, [])][k := Entry(add, [c])])
  {
    MoreIs(p, c, n, add);
    SubscribeIs(p, k, add, c, Entry(n + add, []));
  }

  /**
   What the recursion of revoke_rec adds up to: the whole local part is gone, every entry
   counts the remote edges below it, and every one of those edges has got its request.
   */
  lemma {:induction false} RecClosed(t: Tree, s: Wave, c: Id)
    requires c in t.kids && LocalPart(t, c) !! s.entries.Keys
    ensures Rec(t, s, c) == Fan(t, s, c) && AwaitedBy(Rec(t, s, c), c) == Await(t, c)
    decreases t.height[c], |t.kids[c]| + 1
  {
    RecUpToClosed(t, s, c, |t.kids[c]|);
    assert c in LocalPart(t, c);
    OwnAwaited(t, s, c, |t.kids[c]|);
    PartialLast(t, s, c);
  }

  /** The order of the requests grows child by child. */
  lemma AskNext(t: Tree, c: Id, i: nat)
    requires c in t.kids && i < |t.kids[c]|
    ensures var k := t.kids[c][i];
            Asks(OrderUpTo(t, c, i + 1)) == Asks(OrderUpTo(t, c, i))
              + if t.home[k] == t.home[c] then Asks(Order(t, k)) else [RevocationWave.Revoke(k)]
  {
    var k := t.kids[c][i];
    assert Remote(t, k) <==> t.home[k] != t.home[c];
  }

  lemma KidBelow(t: Tree, c: Id, i: nat)
    requires c in t.kids && i < |t.kids[c]|
    ensures c in t.home && t.kids[c][i] in t.kids && t.kids[c][i] in t.home
    ensures c in t.height && t.kids[c][i] in t.height && t.height[t.kids[c][i]] < t.height[c]
  {
  }

  lemma {:induction false} AskEnds(t: Tree, c: Id)
    requires c in t.kids
    ensures Asks(OrderUpTo(t, c, 0)) == [] && Asks(OrderUpTo(t, c, |t.kids[c]|)) == Asks(Order(t, c))
  {
  }

  lemma {:induction false} EmittedIs(t: Tree, s: Wave, m: Msg)
    requires m.Revoke? && m.cap in t.kids
    ensures Emitted(t, s, m) == Asks(Order(t, m.cap)) + [LastOf(t, m.cap)]
  {
  }

  // ------------------------------------------------------------ the handlers

  /** All kernels together: what the handlers of KernelcallHandler and CapTable work on. */
  class Kernels {
    const t: Tree
    var live: set<Id>
    var entries: map<Id, Entry>
    var net: set<Msg>
    var thread: Thread
    var wakeups: nat
    ghost var completed: set<Id>
    ghost var sent: multiset<Msg>
    ghost var acked: multiset<Msg>
    ghost var log: seq<Msg>

    ghost function Value(): Wave
      reads this
    {
      Wave(live, entries, net, thread, wakeups, completed, sent, acked)
    }

    constructor (t: Tree)
      ensures this.t == t && Value() == Initial(t) && log == []
    {
      this.t := t;
      live, entries, net, thread, wakeups := t.kids.Keys, map[], {}, Sleeping, 0;
      completed, sent, acked, log := {}, multiset{}, multiset{}, [];
    }

    method Transmit(m: Msg)
      modifies this`net, this`sent, this`log
      ensures Value() == Send(old(Value()), m) && log == old(log) + [m]
    {
      net := net + {m};
      sent := sent + multiset{m};
      log := log + [m];
    }

    /** RevocationList::add, unless there is an entry already, and the new number of answers. */
    method AwaitMore(c: Id, add: int)
      modifies this`entries
      ensures Value() == More(old(Value()), c, add)
    {
      if c !in entries {
        entries := entries[c := Entry(0, [])];
      }
      entries := entries[c := entries[c].(awaited := entries[c].awaited + add)];
    }

    method SubscribeTo(k: Id, c: Id)
      modifies this`entries
      ensures Value() == Subscribe(old(Value()), k, c)
    {
      if k in entries {
        entries := entries[k := entries[k].(subs := entries[k].subs + [c])];
      }
    }

    /** The answers that the local child `k` waits for are added to those of `c`. */
    method WaitFor(c: Id, k: Id, add: int)
      modifies this`entries
      ensures Value() == if add == 0 then old(Value()) else Subscribe(More(old(Value()), c, add), k, c)
    {
      if add != 0 {
        AwaitMore(c, add);
        SubscribeTo(k, c);
      }
    }

    /** CapTable::revoke_rec, up to the point where the origin's thread goes to sleep. */
    method RevokeRec(c: Id) returns (awaited: int)
      requires c in t.kids
      modifies this
      ensures Value() == Rec(t, old(Value()), c) && awaited == AwaitedBy(Value(), c)
      ensures log == old(log) + Asks(Order(t, c))
      decreases t.height[c]
    {
      hide More, Subscribe, Send, Order, OrderUpTo, Asks, Rec, RecUpTo, RawTree.Valid;
      ghost var s := Value();
      AskEnds(t, c);
      RecEnds(t, s, c);
      live := live - {c};
      for i := 0 to |t.kids[c]|
        invariant Value() == RecUpTo(t, s, c, i)
        invariant log == old(log) + Asks(OrderUpTo(t, c, i))
      {
        var k := t.kids[c][i];
        KidBelow(t, c, i);
        AskNext(t, c, i);
        RecNext(t, s, c, i);
        if t.home[k] == t.home[c] {
          var add := RevokeRec(k);
          WaitFor(c, k, add);
        } else {
          AwaitMore(c, 1);
          Transmit(RevocationWave.Revoke(k));
        }
      }
      awaited := 0;
      if c in entries {
        awaited := entries[c].awaited;
      } else {
        completed := completed + {c};
      }
    }

    /** KernelcallHandler::revoke. */
    method Revoke(m: Msg)
      requires Inv(t, Value()) && m.Revoke? && m in net
      modifies this
      ensures m.cap in t.kids && Value() == HandleRevoke(t, old(Value()), m)
      ensures Inv(t, Value()) && log == old(log) + Emitted(t, old(Value()), m)
    {
      hide Inv, Fan, Rec, Order, Asks, Emitted, LocalPart, Await;
      RevokeKeepsInv(t, Value(), m);
      NothingBelow(t, Value(), m);
      EmittedIs(t, Value(), m);
      net := net - {m};
      RecClosed(t, Value(), m.cap);
      var awaited := RevokeRec(m.cap);
      if awaited == 0 {
        Transmit(Finish(m.cap, true));
      } else {
        net := net + {Ack(m)};
        log := log + [Ack(m)];
      }
    }

    /** Revocation::notifySubscribers on the entry of `r`, which has got its last answer. */
    method NotifySubscribers(r: Id)
      requires r in t.kids && r in entries && entries[r] == Entry(0, Subscribers(t, r)) && r in completed
      requires Local(t, r) ==> Owes(t, Settle(Value(), r), r)
      modifies this
      ensures Value() == if Local(t, r) then Credit(t, Settle(old(Value()), r), r) else Settle(old(Value()), r)
      ensures log == old(log) + if Local(t, r) then Reports(t, Settle(old(Value()), r), r) else []
      decreases t.height[t.root] - t.height[r]
    {
      var subs := entries[r].subs;
      entries := entries[r := entries[r].(subs := [])];
      ghost var s := Value();
      assert s == Settle(old(Value()), r) by { SettleTwice(old(Value()), s, r); }
      for i := 0 to |subs|
        invariant Value() == if i == 0 then s else Credit(t, s, r)
        invariant log == old(log) + if i == 0 then [] else Reports(t, s, r)
      {
        var p := subs[i];
        if p in entries {
          entries := entries[p := entries[p].(awaited := entries[p].awaited - 1)];
          if entries[p].awaited == 0 {
            completed := completed + {p};
            NotifyReady(t, s, r, Value());
            NotifySubscribers(p);
            if p == t.root {
              thread, wakeups := Runnable, wakeups + 1;
            } else if t.home[t.parent[p]] != t.home[p] {
              Transmit(Finish(p, false));
            }
          }
        }
      }
    }

    /** The part of revokeFinish that counts an answer off. */
    method CountOff(x: Id)
      requires Remote(t, x) && Owes(t, Value(), x)
      modifies this
      ensures Value() == Credit(t, old(Value()), x) && log == old(log) + Reports(t, old(Value()), x)
    {
      ghost var s := Value();
      var p := t.parent[x];
      entries := entries[p := entries[p].(awaited := entries[p].awaited - 1)];
      if entries[p].awaited == 0 {
        completed := completed + {p};
        NotifyReady(t, s, x, Value());
        if p == t.root {
          thread, wakeups := Runnable, wakeups + 1;
        } else {
          NotifySubscribers(p);
          if t.home[t.parent[p]] != t.home[p] {
            Transmit(Finish(p, false));
          }
          entries := entries - {p};
        }
      }
    }

    /** KernelcallHandler::revokeFinish; the reply goes out last, as the log shows. */
    method RevokeFinish(m: Msg)
      requires Inv(t, Value()) && m.Finish? && m in net
      modifies this
      ensures m.cap in t.parent && Value() == HandleFinish(t, old(Value()), m)
      ensures Inv(t, Value()) && log == old(log) + Emitted(t, old(Value()), m)
    {
      hide Inv, Owes;
      FinishKeepsInv(t, Value(), m);
      FinishOwes(t, Value(), m);
      net := net - {m} + {Ack(m)};
      if m.includeReply {
        acked := acked + multiset{RevocationWave.Revoke(m.cap)};
      }
      assert Value() == TakeFinish(old(Value()), m);
      CountOff(m.cap);
      log := log + [Ack(m)];
    }

    /** KernelcallHandler::reply. */
    method Reply(m: Msg)
      requires Inv(t, Value()) && m.Ack? && m in net
      modifies this
      ensures Value() == HandleAck(old(Value()), m) && Inv(t, Value()) && log == old(log)
    {
      AckKeepsInv(t, Value(), m);
      net := net - {m};
      acked := acked + multiset{m.of};
    }

    /** The revoke system call on the root; returns whether the thread has to sleep. */
    method Syscall() returns (sleeps: bool)
      requires Value() == Initial(t) && log == []
      modifies this
      ensures Logged(Value(), log) == OrderedStart(t) && Inv(t, Value())
      ensures sleeps <==> Await(t, t.root) > 0
    {
      hide Inv, Fan, Rec, Order, Asks;
      StartInv(t);
      RecClosed(t, Value(), t.root);
      var awaited := RevokeRec(t.root);
      sleeps := awaited > 0;
      if !sleeps {
        thread := Returned;
      }
    }

    /** What the thread does when it is woken. */
    method Continue()
      requires Inv(t, Value()) && thread.Runnable?
      modifies this
      ensures Value() == Resume(t, old(Value())) && Inv(t, Value()) && log == old(log)
    {
      ResumeKeepsInv(t, Value());
      entries := entries - {t.root};
      thread := Returned;
    }
  }

  function Subscribers(t: Tree, n: Id): seq<Id> {
    if Local(t, n) then [t.parent[n]] else []
  }

  lemma SettleTwice(s: Wave, s': Wave, r: Id)
    requires r in s.entries && r in s.completed && s.entries[r].awaited == 0
    requires s' == s.(entries := s.entries[r := s.entries[r].(subs := [])])
    ensures s' == Settle(s, r)
  {
    assert s.completed + {r} == s.completed;
  }

  /** The parent of `x` has got its last answer in `v`: it is ready to inform its subscribers. */
  lemma NotifyReady(t: Tree, s: Wave, x: Id, v: Wave)
    requires Owes(t, s, x)
    requires var p := t.parent[x];
             && s.entries[p].awaited == 1
             && v == s.(entries := s.entries[p := s.entries[p].(awaited := 0)], completed := s.completed + {p})
    ensures var p := t.parent[x];
            && v.entries[p] == Entry(0, Subscribers(t, p))
            && Settle(v, p) == Settle(s, p)
            && (Local(t, p) ==> Owes(t, Settle(v, p), p))
  {
    var p := t.parent[x];
    assert Counted(t, s, Some(x), p) && Placed(t, s, p);
    assert v.completed + {p} == s.completed + {p};
    assert Settle(v, p).entries == Settle(s, p).entries;
    if Local(t, p) {
      CompleteLocal(t, s, x);
      SettleLocal(t, s, p);
    }
  }

  lemma FinishOwes(t: Tree, s: Wave, m: Msg)
    requires Inv(t, s) && m.Finish? && m in s.net
    ensures m.cap in t.parent && Remote(t, m.cap) && Owes(t, TakeFinish(s, m), m.cap)
  {
    assert MsgOk(t, m);
    TakeFinishShape(t, s, m);
    TakeFinishTraffic(t, s, m);
    TakeFinishCounters(t, s, m);
  }

  /** An answer of `x` is to be subtracted from the entry of its parent. */
  ghost predicate Owes(t: Tree, s: Wave, x: Id) {
    && Shape(t, s) && Traffic(t, s) && Sleep(t, s) && Counters(t, s, Some(x))
    && x in t.parent && t.parent[x] in s.entries
  }

  /** Where a request arrives there is no entry yet. */
  lemma NothingBelow(t: Tree, s: Wave, m: Msg)
    requires Inv(t, s) && m.Revoke? && m in s.net
    ensures m.cap in s.live && LocalPart(t, m.cap) !! s.entries.Keys
  {
    assert MsgOk(t, m) && Placed(t, s, m.cap);
    forall n | n in LocalPart(t, m.cap) ensures n !in s.entries {
      StillLive(t, s, m.cap, n);
      assert Counted(t, s, None, n);
    }
  }
}

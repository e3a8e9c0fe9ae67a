/**
 An obtain across two kernels: the service's kernel links the children and ships the
 capabilities, the client's kernel fills the client's slots. Tables of the two kernels
 are in separate maps; a table is named by its VPE, whose number is also its PE's.
 */
module RemoteObtain {
  import opened Common
  import opened Capabilities
  import opened CapabilityExchange

  /** A capability as it is written into the reply. */
  datatype Shipped = Shipped(id: Key, obj: Object)

  /** The kernel that manages a PE, from the membership table. */
  function Home(homes: map<nat, nat>, pe: nat): nat {
    if pe in homes then homes[pe] else 0
  }

  /** Capability::addChild; `homes` gives the kernel of each PE and `me` is this kernel. */
  function AddChild(children: seq<Key>, child: Key, homes: map<nat, nat>, me: nat): seq<Key> {
    if Home(homes, child.tbl) == me || |children| == 0 || Home(homes, child.tbl) <= Home(homes, children[0].tbl)
    then [child] + children
    else [children[0], child] + children[1..]
  }

  /** The first empty slot of the range, or `n` if there is none: what is shipped ends there. */
  function FirstHole(caps: Caps, tbl: nat, start: nat, n: nat): (h: nat)
    ensures h <= n
    ensures forall i :: 0 <= i < h ==> SrcKey(tbl, start, i) in caps
    ensures h < n ==> SrcKey(tbl, start, h) !in caps
  {
    if n == 0 then 0 else
      var h := FirstHole(caps, tbl, start, n - 1);
      if h < n - 1 then h else if SrcKey(tbl, start, n - 1) in caps then n else n - 1
  }

  function Link(caps: Caps, k: Key, child: Key, homes: map<nat, nat>, me: nat): Caps
    requires k in caps
  {
    caps[k := caps[k].(children := AddChild(caps[k].children, child, homes, me))]
  }

  /** The service's tables after the first `n` slots, all of them filled, have got their children. */
  function Linked(caps: Caps, tbl: nat, start: nat, client: nat, clientStart: nat,
                  homes: map<nat, nat>, me: nat, n: nat): (caps': Caps)
    requires forall i :: 0 <= i < n ==> SrcKey(tbl, start, i) in caps
    ensures caps'.Keys == caps.Keys
  {
    if n == 0 then caps else
      Link(Linked(caps, tbl, start, client, clientStart, homes, me, n - 1),
           SrcKey(tbl, start, n - 1), DstKey(client, clientStart, n - 1), homes, me)
  }

  function Ship(caps: Caps, tbl: nat, start: nat, n: nat): (r: seq<Shipped>)
    requires forall i :: 0 <= i < n ==> SrcKey(tbl, start, i) in caps
    ensures |r| == n
  {
    seq(n, i requires 0 <= i < n => Shipped(SrcKey(tbl, start, i), caps[SrcKey(tbl, start, i)].obj))
  }

  /** The client's tables after the first `n` shipped capabilities have been obtained. */
  function Inserted(caps: Caps, tbl: nat, start: nat, shipped: seq<Shipped>, n: nat): Caps
    requires n <= |shipped|
  {
    if n == 0 then caps else
      var before := Inserted(caps, tbl, start, shipped, n - 1);
      var s := shipped[n - 1];
      if Cloneable(s.obj) then before[DstKey(tbl, start, n - 1) := Cap(s.obj, Some(s.id), [])] else before
  }

  // ------------------------------------------------------ the service's kernel

  ghost predicate LinkedAt(caps: Caps, caps': Caps, tbl: nat, start: nat, client: nat, clientStart: nat,
                           homes: map<nat, nat>, me: nat, n: nat, k: Key)
    requires k in caps && k in caps' && k.sel < SELECTORS && start < SELECTORS
  {
    caps'[k] ==
    if k.tbl == tbl && Round(k.sel, start) < n then
      caps[k].(children := AddChild(caps[k].children, DstKey(client, clientStart, Round(k.sel, start)), homes, me))
    else caps[k]
  }

  ghost predicate AllLinked(caps: Caps, caps': Caps, tbl: nat, start: nat, client: nat, clientStart: nat,
                            homes: map<nat, nat>, me: nat, n: nat)
    requires Selectable(caps) && start < SELECTORS && caps'.Keys == caps.Keys
  {
    forall k {:trigger LinkedAt(caps, caps', tbl, start, client, clientStart, homes, me, n, k)} :: k in caps ==>
      LinkedAt(caps, caps', tbl, start, client, clientStart, homes, me, n, k)
  }

  /** Exactly the capabilities that are shipped get a child, each the key of its own slot at the client. */
  lemma {:induction false} LinkedSlots(caps: Caps, tbl: nat, start: nat, client: nat, clientStart: nat,
                                       homes: map<nat, nat>, me: nat, n: nat)
    requires Selectable(caps) && start < SELECTORS && n < SELECTORS
    requires forall i :: 0 <= i < n ==> SrcKey(tbl, start, i) in caps
    ensures AllLinked(caps, Linked(caps, tbl, start, client, clientStart, homes, me, n),
                      tbl, start, client, clientStart, homes, me, n)
  {
    if n > 0 {
      LinkedSlots(caps, tbl, start, client, clientStart, homes, me, n - 1);
      RoundOfSource(tbl, start, n - 1);
      var caps1 := Linked(caps, tbl, start, client, clientStart, homes, me, n - 1);
      var caps' := Linked(caps, tbl, start, client, clientStart, homes, me, n);
      forall k | k in caps ensures LinkedAt(caps, caps', tbl, start, client, clientStart, homes, me, n, k) {
        assert LinkedAt(caps, caps1, tbl, start, client, clientStart, homes, me, n - 1, k);
        if k.tbl == tbl && Round(k.sel, start) == n - 1 {
          SourceOfRound(tbl, start, k.sel);
        }
      }
    }
  }

  /**
   A child is added exactly once, and the other children stay, in their order. A local one
   goes first; a remote one too, unless its kernel has a higher number than that of the
   first child, behind which it goes then.
   */
  lemma ChildAdded(children: seq<Key>, child: Key, homes: map<nat, nat>, me: nat)
    ensures var r := AddChild(children, child, homes, me);
            && multiset(r) == multiset(children) + multiset{child}
            && exists p :: 0 <= p <= |children| && r == children[..p] + [child] + children[p..] && p <= 1
                 && (p == 1 <==> |children| > 0 && Home(homes, child.tbl) != me
                                 && Home(homes, child.tbl) > Home(homes, children[0].tbl))
  {
    var r := AddChild(children, child, homes, me);
    if Home(homes, child.tbl) == me || |children| == 0 || Home(homes, child.tbl) <= Home(homes, children[0].tbl) {
      assert r == children[..0] + [child] + children[0..];
    } else {
      assert r == children[..1] + [child] + children[1..];
      assert children == children[..1] + children[1..];
    }
  }

  /** The first `n` children are on this kernel, and the others are not. */
  ghost predicate LocalFirst(children: seq<Key>, homes: map<nat, nat>, me: nat, n: nat) {
    n <= |children| && forall i :: 0 <= i < |children| ==> (Home(homes, children[i].tbl) == me <==> i < n)
  }

  /**
   Local children stay in front of remote ones if and only if the new child is local, or
   there are no local ones, or there is one and the new child's kernel has a higher number.
   */
  lemma LocalFirstIff(children: seq<Key>, child: Key, homes: map<nat, nat>, me: nat, n: nat)
    requires LocalFirst(children, homes, me, n)
    ensures (exists n' :: LocalFirst(AddChild(children, child, homes, me), homes, me, n'))
            <==> Home(homes, child.tbl) == me || n == 0 || (n == 1 && Home(homes, child.tbl) > me)
  {
    var r := AddChild(children, child, homes, me);
    if Home(homes, child.tbl) == me {
      assert LocalFirst(r, homes, me, n + 1);
    } else if n == 0 || (n == 1 && Home(homes, child.tbl) > me) {
      assert LocalFirst(r, homes, me, n);
    } else {
      var p := if Home(homes, child.tbl) > me then 1 else 0;
      assert Home(homes, children[0].tbl) == me;
      assert r[p] == child && r[p + 1] == children[p];
    }
  }

  /** A local child, and then one on a kernel with a lower number, which goes in front of it. */
  lemma RemoteInFront()
    ensures AddChild([Key(1, 5)], Key(2, 6), map[1 := 1, 2 := 0], 1) == [Key(2, 6), Key(1, 5)]
  {
  }

  // ------------------------------------------------------ the client's kernel

  /** The client's slots that are filled: those of the shipped capabilities that can be cloned. */
  function Taken(tbl: nat, start: nat, shipped: seq<Shipped>, n: nat): set<Key>
    requires n <= |shipped|
  {
    set i | 0 <= i < n && Cloneable(shipped[i].obj) :: DstKey(tbl, start, i)
  }

  lemma {:induction false} InsertedSlots(caps: Caps, tbl: nat, start: nat, shipped: seq<Shipped>, n: nat)
    requires n <= |shipped| && forall i :: 0 <= i < n ==> DstKey(tbl, start, i) !in caps
    ensures var caps' := Inserted(caps, tbl, start, shipped, n);
            && caps'.Keys == caps.Keys + Taken(tbl, start, shipped, n)
            && (forall k :: k in caps ==> caps'[k] == caps[k])
            && forall i :: 0 <= i < n && Cloneable(shipped[i].obj) ==>
                 caps'[DstKey(tbl, start, i)] == Cap(shipped[i].obj, Some(shipped[i].id), [])
  {
    if n > 0 {
      InsertedSlots(caps, tbl, start, shipped, n - 1);
      assert Taken(tbl, start, shipped, n) == Taken(tbl, start, shipped, n - 1)
             + if Cloneable(shipped[n - 1].obj) then {DstKey(tbl, start, n - 1)} else {};
    }
  }

  // ---------------------------------------------------------- both together

  /** What the service's kernel answers to a request for the client's range `c`. */
  datatype Reply = Refused(code: Code) | Granted(shipped: seq<Shipped>)

  predicate Grantable(offered: Range, c: Range) {
    offered.typ == c.typ && offered.count <= c.count
  }

  function Answer(caps: Caps, tbl: nat, offered: Range, c: Range): Reply {
    if !Grantable(offered, c) then Refused(InvalidArgs)
    else Granted(Ship(caps, tbl, offered.start, FirstHole(caps, tbl, offered.start, offered.count)))
  }

  function AfterAnswer(caps: Caps, tbl: nat, offered: Range, client: nat, c: Range,
                       homes: map<nat, nat>, me: nat): Caps
  {
    if !Grantable(offered, c) then caps
    else Linked(caps, tbl, offered.start, client, c.start, homes, me,
                FirstHole(caps, tbl, offered.start, offered.count))
  }

  function AfterReply(caps: Caps, client: nat, c: Range, reply: Reply): Caps {
    if reply.Refused? || !RangeUnused(caps, client, c) then caps
    else Inserted(caps, client, c.start, reply.shipped, |reply.shipped|)
  }

  /** The child keys that the service's kernel adds. */
  function Promised(client: nat, start: nat, n: nat): set<Key> {
    set i | 0 <= i < n :: DstKey(client, start, i)
  }

  /**
   What is shipped is the longest prefix of the offered range without a hole. Slot `i` of
   the prefix, the shipped capability `i` and the client's slot `i` belong together: the
   first gets the key of the last as a child, and the last, if it is filled, names the
   first as its parent and has its object.
   */
  lemma {:induction false} ObtainCorresponds(srv: Caps, tbl: nat, offered: Range, cli: Caps, client: nat, c: Range,
                          homes: map<nat, nat>, me: nat, i: nat)
    requires Selectable(srv) && offered.Fits() && c.Fits()
    requires offered.typ == c.typ == ObjRange && offered.count <= c.count && RangeUnused(cli, client, c)
    requires i < FirstHole(srv, tbl, offered.start, offered.count)
    ensures var srv' := AfterAnswer(srv, tbl, offered, client, c, homes, me);
            var reply := Answer(srv, tbl, offered, c);
            var cli' := AfterReply(cli, client, c, reply);
            var s, d := SrcKey(tbl, offered.start, i), DstKey(client, c.start, i);
            && |reply.shipped| == FirstHole(srv, tbl, offered.start, offered.count)
            && reply.shipped[i] == Shipped(s, srv[s].obj)
            && srv'[s] == srv[s].(children := AddChild(srv[s].children, d, homes, me))
            && (d in cli' <==> !srv[s].obj.Service?)
            && (d in cli' ==> cli'[d] == Cap(srv[s].obj, Some(s), []))
  {
    var h := FirstHole(srv, tbl, offered.start, offered.count);
    var s, d := SrcKey(tbl, offered.start, i), DstKey(client, c.start, i);
    var srv' := AfterAnswer(srv, tbl, offered, client, c, homes, me);
    LinkedSlots(srv, tbl, offered.start, client, c.start, homes, me, h);
    assert LinkedAt(srv, srv', tbl, offered.start, client, c.start, homes, me, h, s);
    RoundOfSource(tbl, offered.start, i);
    var shipped := Answer(srv, tbl, offered, c).shipped;
    hide FirstHole, Linked, AddChild, Inserted;
    InsertedSlots(cli, client, c.start, shipped, h);
    assert d !in cli;
    assert d in Taken(client, c.start, shipped, h) <==> Cloneable(shipped[i].obj);
  }

  /** Slot `k` is in the part of the offered range that is shipped. */
  predicate Shipping(caps: Caps, tbl: nat, offered: Range, k: Key)
    requires k.sel < SELECTORS && offered.start < SELECTORS
  {
    k.tbl == tbl && Round(k.sel, offered.start) < FirstHole(caps, tbl, offered.start, offered.count)
  }

  /**
   A request is refused exactly when the types differ or more is offered than was asked
   for. Nothing else changes: other slots of the service's tables, other slots of the
   client's, and nothing at all on a refusal.
   */
  lemma {:induction false} ObtainFrame(srv: Caps, tbl: nat, offered: Range, cli: Caps, client: nat, c: Range,
                    homes: map<nat, nat>, me: nat)
    requires Selectable(srv) && offered.Fits() && c.Fits() && ForObjects(offered, c)
    ensures var srv' := AfterAnswer(srv, tbl, offered, client, c, homes, me);
            var reply := Answer(srv, tbl, offered, c);
            var cli' := AfterReply(cli, client, c, reply);
            && (reply.Refused? <==> offered.typ != c.typ || offered.count > c.count)
            && (reply.Refused? ==> reply.code == InvalidArgs && srv' == srv && cli' == cli)
            && srv'.Keys == srv.Keys
            && (forall k :: k in srv && !Shipping(srv, tbl, offered, k) ==> srv'[k] == srv[k])
            && (forall k :: k in cli ==> k in cli' && cli'[k] == cli[k])
            && cli'.Keys <= cli.Keys + Promised(client, c.start, FirstHole(srv, tbl, offered.start, offered.count))
            && (!RangeUnused(cli, client, c) ==> cli' == cli)
  {
    var h := FirstHole(srv, tbl, offered.start, offered.count);
    if Grantable(offered, c) {
      var srv' := AfterAnswer(srv, tbl, offered, client, c, homes, me);
      LinkedSlots(srv, tbl, offered.start, client, c.start, homes, me, h);
      forall k | k in srv && !Shipping(srv, tbl, offered, k) ensures srv'[k] == srv[k] {
        assert LinkedAt(srv, srv', tbl, offered.start, client, c.start, homes, me, h, k);
      }
      if RangeUnused(cli, client, c) {
        InsertedSlots(cli, client, c.start, Answer(srv, tbl, offered, c).shipped, h);
      }
    }
  }

  /**
   The slots filled at the client are exactly the child keys added at the service's
   kernel if and only if every shipped capability can be cloned.
   */
  lemma {:induction false} OneToOne(srv: Caps, tbl: nat, offered: Range, cli: Caps, client: nat, c: Range)
    requires offered.Fits() && c.Fits() && c.typ == ObjRange
    requires Grantable(offered, c) && RangeUnused(cli, client, c)
    ensures var h := FirstHole(srv, tbl, offered.start, offered.count);
            var cli' := AfterReply(cli, client, c, Answer(srv, tbl, offered, c));
            cli'.Keys - cli.Keys == Promised(client, c.start, h)
            <==> forall i :: 0 <= i < h ==> Cloneable(srv[SrcKey(tbl, offered.start, i)].obj)
  {
    var h := FirstHole(srv, tbl, offered.start, offered.count);
    var shipped := Answer(srv, tbl, offered, c).shipped;
    hide FirstHole;
    InsertedKeys(cli, client, c.start, shipped, h);
    TakenAll(client, c.start, shipped);
    assert forall i :: 0 <= i < h ==> shipped[i].obj == srv[SrcKey(tbl, offered.start, i)].obj;
  }

  lemma {:induction false} InsertedKeys(cli: Caps, tbl: nat, start: nat, shipped: seq<Shipped>, n: nat)
    requires n <= |shipped| && forall i :: 0 <= i < n ==> DstKey(tbl, start, i) !in cli
    ensures Inserted(cli, tbl, start, shipped, n).Keys - cli.Keys == Taken(tbl, start, shipped, n)
  {
    InsertedSlots(cli, tbl, start, shipped, n);
    hide Inserted;
    assert forall k :: k in Taken(tbl, start, shipped, n) ==> k !in cli;
  }

  lemma TakenAll(tbl: nat, start: nat, shipped: seq<Shipped>)
    ensures Taken(tbl, start, shipped, |shipped|) == Promised(tbl, start, |shipped|)
            <==> forall i :: 0 <= i < |shipped| ==> Cloneable(shipped[i].obj)
  {
    var taken, promised := Taken(tbl, start, shipped, |shipped|), Promised(tbl, start, |shipped|);
    forall i | 0 <= i < |shipped|
      ensures DstKey(tbl, start, i) in promised
      ensures DstKey(tbl, start, i) in taken <==> Cloneable(shipped[i].obj)
    {
    }
  }

  /** A service capability is shipped and promised, and its slot at the client stays empty. */
  lemma ServiceNotTaken()
    ensures var srv: Caps := map[Key(1, 2) := Cap(Service(0), None, [])];
            var offered, c := Range(ObjRange, 2, 1), Range(ObjRange, 5, 1);
            var reply := Answer(srv, 1, offered, c);
            && reply == Granted([Shipped(Key(1, 2), Service(0))])
            && AfterAnswer(srv, 1, offered, 0, c, map[], 0)[Key(1, 2)].children == [Key(0, 5)]
            && AfterReply(map[], 0, c, reply) == map[]
  {
    var srv: Caps := map[Key(1, 2) := Cap(Service(0), None, [])];
    assert SrcKey(1, 2, 0) == Key(1, 2);
    assert FirstHole(srv, 1, 2, 0) == 0 && FirstHole(srv, 1, 2, 1) == 1;
    assert Linked(srv, 1, 2, 0, 5, map[], 0, 0) == srv;
    assert Linked(srv, 1, 2, 0, 5, map[], 0, 1)
           == Link(srv, Key(1, 2), Key(0, 5), map[], 0);
    var shipped := [Shipped(Key(1, 2), Service(0))];
    assert Ship(srv, 1, 2, 1) == shipped;
    assert Inserted(map[], 0, 5, shipped, 0) == map[];
    assert Inserted(map[], 0, 5, shipped, 1) == map[];
  }
}

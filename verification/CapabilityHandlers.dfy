/** The handlers that fill and link capability tables, slot by slot. */
module CapabilityHandlers {
  import opened Common
  import opened Capabilities
  import opened CapabilityExchange
  import opened MemoryRuns
  import opened RemoteObtain

  /** The capability tables of all kernels, and the replies between them. */
  class Tables {
    var caps: Caps
    var parcels: seq<Parcel>
    ghost var roots: map<Key, Allocation>

    ghost function Value(): Machine
      reads this
    {
      Machine(caps, roots, parcels)
    }

    ghost predicate Valid()
      reads this
    {
      Inv(Value()) && Selectable(caps)
    }

    constructor (m: Machine)
      requires Initial(m) && Selectable(m.caps)
      ensures Value() == m && Valid() && AllModest(Value())
    {
      caps, parcels, roots := m.caps, m.parcels, m.roots;
      new;
      InitialInv(m);
    }

    /** CapTable::range_unused. */
    method RangeUnused(tbl: nat, r: Range) returns (unused: bool)
      requires r.Fits()
      ensures unused == Capabilities.RangeUnused(caps, tbl, r)
      ensures unused <==> && (r.count == 0 || r.start + r.count < SELECTORS)
                          && forall i :: 0 <= i < r.count ==> DstKey(tbl, r.start, i) !in caps
    {
      RangeUnusedIff(caps, tbl, r);
      if !RangeValid(r) {
        return false;
      }
      assert r.count > 0 ==> r.start + r.count < SELECTORS;
      var i := r.start;
      while i < r.start + r.count
        invariant r.start <= i <= r.start + r.count
        invariant forall j | r.start <= j < i :: Key(tbl, j) !in caps
      {
        if Key(tbl, i) in caps {
          return false;
        }
        i := i + 1;
      }
      return true;
    }

    /** CapTable::obtain; fails an assertion if the slot is in use. */
    method Obtain(dst: Key, src: Key)
      requires dst !in caps
      modifies this`caps
      ensures caps == Capabilities.Obtain(old(caps), dst, src)
    {
      if src in caps && Cloneable(caps[src].obj) {
        var clone := Cap(caps[src].obj, Some(src), []);
        caps := caps[dst := clone];
        caps := caps[src := caps[src].(children := [dst] + caps[src].children)];
      }
    }

    method DoExchange(v1: nat, v2: nat, c1: Range, c2: Range, obtain: bool) returns (code: Code)
      requires Valid() && Sane(Exchange(v1, v2, c1, c2, obtain))
      modifies this`caps
      ensures Valid() && Value() == Perform(old(Value()), Exchange(v1, v2, c1, c2, obtain))
      ensures code == if Acceptable(old(caps), v1, v2, c1, c2, obtain) then NoError else InvalidArgs
      ensures code == NoError && v1 != v2 && obtain ==> forall i :: 0 <= i < c2.count ==>
                Copied(old(caps), caps, DstKey(v1, c1.start, i), SrcKey(v2, c2.start, i))
      ensures code == NoError && v1 != v2 && !obtain ==> forall i :: 0 <= i < c2.count ==>
                Copied(old(caps), caps, DstKey(v2, c2.start, i), SrcKey(v1, c1.start, i))
      ensures AllModest(Value()) <==> AllModest(old(Value()))
    {
      CallStep(Value(), Exchange(v1, v2, c1, c2, obtain));
      ExchangeAllOrNothing(caps, v1, v2, c1, c2, obtain);
      var src, dst := if obtain then v2 else v1, if obtain then v1 else v2;
      var srcRange, dstRange := if obtain then c2 else c1, if obtain then c1 else c2;
      if c1.typ != c2.typ {
        return InvalidArgs;
      }
      if (obtain && c2.count > c1.count) || (!obtain && c2.count != c1.count) {
        return InvalidArgs;
      }
      var unused := RangeUnused(dst, dstRange);
      if !unused {
        return InvalidArgs;
      }
      AcceptableFits(caps, v1, v2, c1, c2, obtain);
      if v1 != v2 {
        AllCopied(caps, v1, v2, c1, c2, obtain);
      }
      hide Inv, AllModest, Copied;
      PassOn(Route(dst, dstRange.start, src, srcRange.start), c2.count);
      return NoError;
    }

    /** The loop of do_exchange; no slot it fills is in use, also within one table. */
    method PassOn(r: Route, count: nat)
      requires r.dstStart < SELECTORS && r.srcStart < SELECTORS && Selectable(caps)
      requires count < SELECTORS && r.dstStart + count <= SELECTORS
      requires forall i :: 0 <= i < count ==> DstKey(r.dst, r.dstStart, i) !in caps
      modifies this`caps
      ensures caps == Exchanged(old(caps), r, count)
    {
      hide Exchanged, Capabilities.Obtain, Selectable;
      PassNone(old(caps), r);
      for i := 0 to count
        invariant caps == Exchanged(old(caps), r, i)
      {
        PassNext(old(caps), r, i);
        var s := Key(r.src, (r.srcStart + i) % SELECTORS);
        var d := Key(r.dst, (r.dstStart + i) % SELECTORS);
        assert s == SrcKey(r.src, r.srcStart, i) && d == DstKey(r.dst, r.dstStart, i);
        Obtain(d, s);
      }
    }

    /**
     The caller gets exactly the memory that the allocator found, with the permissions it
     asked for, in a slot that was empty; or nothing changes.
     */
    method ReqMem(tbl: nat, sel: nat, size: nat, perms: int, alloc: Option<nat>) returns (code: Code)
      requires Valid() && Sane(Request(tbl, sel, size, perms, alloc))
      modifies this`caps, this`roots
      ensures Valid() && Value() == Perform(old(Value()), Request(tbl, sel, size, perms, alloc))
      ensures AllModest(Value()) <==> AllModest(old(Value()))
      ensures code == InvalidArgs <==>
              Key(tbl, sel) in old(caps) || size == 0 || size % 8 != 0 || perms <= 0 || perms > 7
      ensures code == OutOfMemory <==> code != InvalidArgs && alloc.None?
      ensures code == NoError ==>
                && Key(tbl, sel) !in old(caps) && caps.Keys == old(caps).Keys + {Key(tbl, sel)}
                && (forall k :: k in old(caps) ==> caps[k] == old(caps)[k])
                && var c := caps[Key(tbl, sel)];
                && c.obj.Memory? && c.parent == None
                && Start(c.obj) == alloc.value && End(c.obj) == alloc.value + size
                && Perms(c.obj) == perms as bv3
      ensures code != NoError ==> Value() == old(Value())
    {
      CallStep(Value(), Request(tbl, sel, size, perms, alloc));
      hide Inv, AllModest;
      if Key(tbl, sel) in caps {
        return InvalidArgs;
      }
      if size == 0 || size % 8 != 0 || perms == 0 || !(0 <= perms < 8) {
        return InvalidArgs;
      }
      if alloc.None? {
        return OutOfMemory;
      }
      RequestedExactly(alloc.value, size, perms as bv3);
      caps := caps[Key(tbl, sel) := Cap(Memory(MakeLabel(alloc.value, perms as bv3), size), None, [])];
      roots := roots[Key(tbl, sel) := Allocation(alloc.value, size, perms as bv3)];
      return NoError;
    }

    /**
     A nonempty part of a memory capability, up to its very end, can be derived into an empty
     slot. The caller gets a child of the source capability, with the size it asked for, at
     the offset less its low bits, with the common permissions and those bits. Or nothing
     changes.
     */
    method DeriveMem(tbl: nat, src: nat, dst: nat, offset: nat, size: nat, perms: int) returns (code: Code)
      requires Valid() && Sane(Derive(tbl, src, dst, offset, size, perms))
      modifies this`caps
      ensures Valid() && Value() == Perform(old(Value()), Derive(tbl, src, dst, offset, size, perms))
      ensures AllModest(Value()) <==>
              AllModest(old(Value())) && Covered(old(caps), Derive(tbl, src, dst, offset, size, perms))
      ensures code == NoError <==>
              && Key(tbl, src) in old(caps) && old(caps)[Key(tbl, src)].obj.Memory? && Key(tbl, dst) !in old(caps)
              && 0 < size && offset + size <= old(caps)[Key(tbl, src)].obj.size && 0 <= perms < 8
      ensures code == NoError || code == InvalidArgs
      ensures code == NoError ==> DerivedAs(old(caps), caps, Derive(tbl, src, dst, offset, size, perms))
      ensures code != NoError ==> Value() == old(Value())
    {
      hide Inv, AllModest, LowBits, DerivedAs, Covered, Confined;
      MayDeriveIff(Value(), Derive(tbl, src, dst, offset, size, perms));
      CallStep(Value(), Derive(tbl, src, dst, offset, size, perms));
      var s, d := Key(tbl, src), Key(tbl, dst);
      if s !in caps || !caps[s].obj.Memory? || d in caps {
        return InvalidArgs;
      }
      var obj := caps[s].obj;
      var end := (offset + size) % WORD;
      if end < offset || end > obj.size || size == 0 || !(0 <= perms < 8) {
        return InvalidArgs;
      }
      DeriveMeans(Value(), Derive(tbl, src, dst, offset, size, perms));
      Obtain(d, s);
      var word := MakeLabel((Start(obj) + offset) % WORD, perms as bv3 & Perms(obj));
      caps := caps[d := caps[d].(obj := Memory(word, size))];
      return NoError;
    }

    /** The answer of the service's kernel, in the callback of exchangeOverSession. */
    method ServeObtain(tbl: nat, offered: Range, client: nat, c: Range, homes: map<nat, nat>, me: nat)
      returns (reply: Reply)
      requires Valid() && Sane(Serve(tbl, offered, client, c, homes, me))
      modifies this`caps, this`parcels
      ensures Valid() && Value() == Perform(old(Value()), Serve(tbl, offered, client, c, homes, me))
      ensures reply == Answer(old(caps), tbl, offered, c)
      ensures AllModest(Value()) <==> AllModest(old(Value()))
    {
      CallStep(Value(), Serve(tbl, offered, client, c, homes, me));
      hide Inv, AllModest;
      if offered.typ != c.typ || offered.count > c.count {
        reply := Refused(InvalidArgs);
      } else {
        var found := LinkChildren(tbl, offered, client, c.start, homes, me);
        var shipped := Serialize(found);
        ShippedInOrder(old(caps), caps, tbl, offered, client, c, homes, me, found, shipped);
        reply := Granted(shipped);
      }
      parcels := parcels + [Parcel(client, c, reply)];
    }

    /** The first loop of the callback: it ends at the first hole, to which it shrinks the range. */
    method LinkChildren(tbl: nat, offered: Range, client: nat, start: nat, homes: map<nat, nat>, me: nat)
      returns (found: seq<Key>)
      requires offered.Fits()
      modifies this`caps
      ensures |found| == FirstHole(old(caps), tbl, offered.start, offered.count)
      ensures forall j :: 0 <= j < |found| ==> found[j] == SrcKey(tbl, offered.start, j)
      ensures caps == Linked(old(caps), tbl, offered.start, client, start, homes, me, |found|)
    {
      ghost var was := caps;
      ghost var hole := FirstHole(was, tbl, offered.start, offered.count);
      hide FirstHole, AddChild, Selectable;
      var count := offered.count;
      found := [];
      var i := 0;
      while i < count
        invariant count <= offered.count && (count == offered.count ==> i <= hole)
        invariant count < offered.count ==> count == hole && i == hole + 1
        invariant |found| == if i <= hole then i else hole
        invariant forall j :: 0 <= j < |found| ==> found[j] == SrcKey(tbl, offered.start, j)
        invariant caps == Linked(was, tbl, offered.start, client, start, homes, me, |found|)
        decreases count - i
      {
        var k := Key(tbl, (offered.start + i) % SELECTORS);
        assert k == SrcKey(tbl, offered.start, i) && (k in caps <==> k in was);
        if k in caps {
          var child := Key(client, start + i);
          caps := caps[k := caps[k].(children := AddChild(caps[k].children, child, homes, me))];
          found := found + [k];
        } else {
          count := i;
        }
        i := i + 1;
      }
    }

    /** The second loop of the callback: the found capabilities are written into the reply. */
    method Serialize(found: seq<Key>) returns (shipped: seq<Shipped>)
      requires forall j :: 0 <= j < |found| ==> found[j] in caps
      ensures |shipped| == |found|
      ensures forall j :: 0 <= j < |found| ==> shipped[j] == Shipped(found[j], caps[found[j]].obj)
    {
      shipped := [];
      for i := 0 to |found|
        invariant |shipped| == i
        invariant forall j :: 0 <= j < i ==> shipped[j] == Shipped(found[j], caps[found[j]].obj)
      {
        shipped := shipped + [Shipped(found[i], caps[found[i]].obj)];
      }
    }

    /** The client's kernel, when the reply of the service's kernel has come. */
    method FinishObtain(n: nat) returns (code: Code)
      requires Valid() && n < |parcels| && parcels[n].c.Fits() && parcels[n].c.typ == ObjRange
      modifies this`caps, this`parcels
      ensures Valid() && Value() == Perform(old(Value()), Receive(n))
      ensures var p := old(parcels)[n];
              code == if p.reply.Refused? then p.reply.code
                      else if Capabilities.RangeUnused(old(caps), p.client, p.c) then NoError else InvalidArgs
      ensures AllModest(Value()) <==> AllModest(old(Value()))
    {
      CallStep(Value(), Receive(n));
      var p := parcels[n];
      assert Genuine(Value(), p);
      hide Inv, AllModest;
      parcels := Without(parcels, n);
      if p.reply.Refused? {
        return p.reply.code;
      }
      var unused := RangeUnused(p.client, p.c);
      if !unused {
        return InvalidArgs;
      }
      InsertAll(p.client, p.c, p.reply.shipped);
      return NoError;
    }

    /** The loop that fills the client's slots; none of them is in use. */
    method InsertAll(client: nat, c: Range, shipped: seq<Shipped>)
      requires c.Fits() && |shipped| <= c.count && Capabilities.RangeUnused(caps, client, c) && Selectable(caps)
      modifies this`caps
      ensures caps == Inserted(old(caps), client, c.start, shipped, |shipped|) && Selectable(caps)
    {
      for i := 0 to |shipped|
        invariant caps == Inserted(old(caps), client, c.start, shipped, i) && Selectable(caps)
      {
        InsertedSlots(old(caps), client, c.start, shipped, i);
        var d := Key(client, (c.start + i) % SELECTORS);
        assert d == DstKey(client, c.start, i);
        assert d !in caps;
        var s := shipped[i];
        if Cloneable(s.obj) {
          caps := caps[d := Cap(s.obj, Some(s.id), [])];
        }
      }
    }
  }

  lemma {:induction false} PassNone(caps: Caps, r: Route)
    ensures Exchanged(caps, r, 0) == caps
  {
  }

  /** The slot that the next round fills is empty. */
  lemma {:induction false} PassNext(caps: Caps, r: Route, i: nat)
    requires Selectable(caps) && r.srcStart < SELECTORS && i < SELECTORS && r.dstStart + i < SELECTORS
    requires forall j :: 0 <= j <= i ==> DstKey(r.dst, r.dstStart, j) !in caps
    ensures var s, d := SrcKey(r.src, r.srcStart, i), DstKey(r.dst, r.dstStart, i);
            && d !in Exchanged(caps, r, i)
            && Exchanged(caps, r, i + 1) == Capabilities.Obtain(Exchanged(caps, r, i), d, s)
  {
    hide Capabilities.Obtain, IsAfter, Selectable, SrcKey;
    RoundsAfter(caps, r, i);
    RoundStep(caps, Exchanged(caps, r, i), r, i);
  }

  lemma {:induction false} AllCopied(caps: Caps, v1: nat, v2: nat, c1: Range, c2: Range, obtain: bool)
    requires Selectable(caps) && c1.Fits() && c2.Fits() && ForObjects(c1, c2) && v1 != v2
    requires Acceptable(caps, v1, v2, c1, c2, obtain)
    ensures var caps' := Capabilities.DoExchange(caps, v1, v2, c1, c2, obtain);
            && (obtain ==> forall i :: 0 <= i < c2.count ==>
                  Copied(caps, caps', DstKey(v1, c1.start, i), SrcKey(v2, c2.start, i)))
            && (!obtain ==> forall i :: 0 <= i < c2.count ==>
                  Copied(caps, caps', DstKey(v2, c2.start, i), SrcKey(v1, c1.start, i)))
  {
    hide Copied, Acceptable, Capabilities.DoExchange;
    forall i | 0 <= i < c2.count
      ensures var caps' := Capabilities.DoExchange(caps, v1, v2, c1, c2, obtain);
              if obtain then Copied(caps, caps', DstKey(v1, c1.start, i), SrcKey(v2, c2.start, i))
              else Copied(caps, caps', DstKey(v2, c2.start, i), SrcKey(v1, c1.start, i))
    {
      ExchangeBetween(caps, v1, v2, c1, c2, obtain, i);
    }
  }

  lemma {:induction false} ShippedInOrder(
    caps: Caps, caps': Caps, tbl: nat, offered: Range, client: nat, c: Range,
    homes: map<nat, nat>, me: nat, found: seq<Key>, shipped: seq<Shipped>)
    requires Selectable(caps) && offered.Fits()
    requires |found| == |shipped| == FirstHole(caps, tbl, offered.start, offered.count)
    requires caps' == Linked(caps, tbl, offered.start, client, c.start, homes, me, |found|)
    requires forall j :: 0 <= j < |found| ==>
               && found[j] == SrcKey(tbl, offered.start, j) && found[j] in caps'
               && shipped[j] == Shipped(found[j], caps'[found[j]].obj)
    ensures shipped == Ship(caps, tbl, offered.start, |found|)
  {
    LinkedSame(caps, tbl, offered.start, client, c.start, homes, me, |found|);
    hide FirstHole, Linked, AddChild, SrcKey;
  }
}

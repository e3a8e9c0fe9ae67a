/**
 Memory capabilities over every run of reqmem, derivemem, do_exchange and obtains across
 kernels. The tables of all kernels are in one map, by the number of the VPE.
 */
module MemoryRuns {
  import opened Common
  import opened Capabilities
  import opened CapabilityExchange
  import opened RemoteObtain

  /** What a parentless memory capability was created with. */
  datatype Allocation = Allocation(addr: nat, size: nat, perms: bv3)

  /** A reply that is on its way to the kernel of `client`, for the range `c`. */
  datatype Parcel = Parcel(client: nat, c: Range, reply: Reply)

  /** The capabilities, what the parentless memory ones were created with, and replies under way. */
  datatype Machine = Machine(caps: Caps, roots: map<Key, Allocation>, parcels: seq<Parcel>)

  datatype Call =
    | Request(tbl: nat, sel: nat, size: nat, perms: int, alloc: Option<nat>)
    | Derive(tbl: nat, src: nat, dst: nat, offset: nat, size: nat, perms: int)
    | Exchange(v1: nat, v2: nat, c1: Range, c2: Range, obtain: bool)
    | Serve(tbl: nat, offered: Range, client: nat, c: Range, homes: map<nat, nat>, me: nat)
    | Receive(i: nat)

  /** Arguments have their widths, and the allocator answers with usable memory. */
  ghost predicate Sane(call: Call) {
    match call
    case Request(_, sel, size, _, alloc) =>
      sel < SELECTORS && size < WORD && (alloc.Some? ==> Sound(alloc.value, size))
    case Derive(_, src, dst, offset, size, _) =>
      src < SELECTORS && dst < SELECTORS && offset < WORD && size < WORD
    case Exchange(_, _, c1, c2, _) => c1.Fits() && c2.Fits() && ForObjects(c1, c2)
    case Serve(_, offered, _, c, _, _) => offered.Fits() && c.Fits() && ForObjects(offered, c)
    case Receive(_) => true
  }

  function Without(parcels: seq<Parcel>, i: nat): seq<Parcel>
    requires i < |parcels|
  {
    parcels[..i] + parcels[i + 1..]
  }

  function Perform(m: Machine, call: Call): Machine {
    match call
    case Request(tbl, sel, size, perms, alloc) =>
      m.(caps := ReqMem(m.caps, tbl, sel, size, perms, alloc),
         roots := if MayRequest(m.caps, tbl, sel, size, perms) && alloc.Some?
                  then m.roots[Key(tbl, sel) := Allocation(alloc.value, size, perms as bv3)] else m.roots)
    case Derive(tbl, src, dst, offset, size, perms) =>
      m.(caps := DeriveMem(m.caps, tbl, src, dst, offset, size, perms))
    case Exchange(v1, v2, c1, c2, obtain) =>
      if ForObjects(c1, c2) then m.(caps := DoExchange(m.caps, v1, v2, c1, c2, obtain)) else m
    case Serve(tbl, offered, client, c, homes, me) =>
      m.(caps := AfterAnswer(m.caps, tbl, offered, client, c, homes, me),
         parcels := m.parcels + [Parcel(client, c, Answer(m.caps, tbl, offered, c))])
    case Receive(i) =>
      if i >= |m.parcels| then m
      else
        var p := m.parcels[i];
        m.(caps := AfterReply(m.caps, p.client, p.c, p.reply), parcels := Without(m.parcels, i))
  }

  function PerformAll(m: Machine, calls: seq<Call>): Machine {
    if |calls| == 0 then m else Perform(PerformAll(m, calls[..|calls| - 1]), calls[|calls| - 1])
  }

  /** Any capabilities, the memory ones among them parentless and as recorded in `roots`. */
  ghost predicate Initial(m: Machine) {
    && m.parcels == []
    && forall k :: k in m.caps && m.caps[k].obj.Memory? ==>
         var c := m.caps[k];
         && c.parent.None? && 0 < c.obj.size < WORD && End(c.obj) <= WORD
         && k in m.roots && m.roots[k] == Allocation(Start(c.obj), c.obj.size, Perms(c.obj))
  }

  // -------------------------------------------------------------- the invariant

  predicate Inside(a: Object, b: Object)
    requires a.Memory? && b.Memory?
  {
    Start(b) <= Start(a) && End(a) <= End(b)
  }

  /** A memory capability is not empty, and lies inside its parent or is its allocation. */
  ghost predicate Confined(m: Machine, k: Key)
    requires k in m.caps
  {
    var c := m.caps[k];
    c.obj.Memory? ==>
      && 0 < c.obj.size < WORD && End(c.obj) <= WORD
      && (c.parent.None? ==>
            k in m.roots && m.roots[k] == Allocation(Start(c.obj), c.obj.size, Perms(c.obj)))
      && (c.parent.Some? ==>
            && c.parent.value in m.caps && m.caps[c.parent.value].obj.Memory?
            && Inside(c.obj, m.caps[c.parent.value].obj))
  }

  /** Its permissions are among its parent's. */
  ghost predicate Modest(m: Machine, k: Key)
    requires k in m.caps
  {
    var c := m.caps[k];
    c.obj.Memory? && c.parent.Some? && c.parent.value in m.caps && m.caps[c.parent.value].obj.Memory? ==>
      Within(Perms(c.obj), Perms(m.caps[c.parent.value].obj))
  }

  ghost predicate Chain(caps: Caps, path: seq<Key>) {
    && |path| > 0
    && (forall i :: 0 <= i < |path| ==> path[i] in caps)
    && (forall i :: 0 < i < |path| ==> caps[path[i - 1]].parent == Some(path[i]))
  }

  ghost predicate Origin(m: Machine, k: Key, path: seq<Key>) {
    Chain(m.caps, path) && path[0] == k && m.caps[path[|path| - 1]].parent.None?
  }

  ghost predicate Rooted(m: Machine, k: Key)
    requires k in m.caps
  {
    m.caps[k].obj.Memory? ==> exists path :: Origin(m, k, path)
  }

  /** What is shipped is still as it was at the service's kernel. */
  ghost predicate Genuine(m: Machine, p: Parcel) {
    p.reply.Granted? ==>
      && |p.reply.shipped| <= p.c.count
      && forall i :: 0 <= i < |p.reply.shipped| ==>
           && p.reply.shipped[i].id in m.caps
           && m.caps[p.reply.shipped[i].id].obj == p.reply.shipped[i].obj
  }

  ghost predicate Inv(m: Machine) {
    && (forall k {:trigger Confined(m, k)} :: k in m.caps ==> Confined(m, k))
    && (forall k {:trigger Rooted(m, k)} :: k in m.caps ==> Rooted(m, k))
    && (forall i :: 0 <= i < |m.parcels| ==> Genuine(m, m.parcels[i]))
  }

  ghost predicate AllModest(m: Machine) {
    forall k {:trigger Modest(m, k)} :: k in m.caps ==> Modest(m, k)
  }

  // ------------------------------------------------------- adding one capability

  /** The machine `m'` has one more capability, in slot `d`, and otherwise only more links. */
  ghost predicate Added(m: Machine, m': Machine, d: Key) {
    && d !in m.caps && d in m'.caps
    && (forall k :: k in m'.caps ==> k in m.caps || k == d)
    && (forall k :: k in m.caps ==>
          k in m'.caps && m'.caps[k].obj == m.caps[k].obj && m'.caps[k].parent == m.caps[k].parent)
    && (forall k :: k in m.roots ==> k in m'.roots && (k in m.caps ==> m'.roots[k] == m.roots[k]))
    && m'.parcels == m.parcels
  }

  lemma ChainKept(m: Machine, m': Machine, d: Key, path: seq<Key>)
    requires Added(m, m', d) && Chain(m.caps, path)
    ensures Chain(m'.caps, path)
  {
  }

  lemma RootedKept(m: Machine, m': Machine, d: Key, k: Key)
    requires Added(m, m', d) && k in m.caps && Rooted(m, k)
    ensures Rooted(m', k)
  {
    if m.caps[k].obj.Memory? {
      var path :| Origin(m, k, path);
      ChainKept(m, m', d, path);
      assert Origin(m', k, path);
    }
  }

  lemma RootedNew(m: Machine, m': Machine, d: Key)
    requires Added(m, m', d)
    requires var c := m'.caps[d];
             c.parent.Some? ==> c.parent.value in m.caps && m.caps[c.parent.value].obj.Memory?
                                && Rooted(m, c.parent.value)
    ensures Rooted(m', d)
  {
    var c := m'.caps[d];
    if c.parent.None? {
      assert Origin(m', d, [d]);
    } else {
      var path :| Origin(m, c.parent.value, path);
      ChainKept(m, m', d, path);
      assert Origin(m', d, [d] + path);
    }
  }

  lemma AddedInv(m: Machine, m': Machine, d: Key)
    requires Inv(m) && Added(m, m', d) && Confined(m', d) && m'.caps[d].parent != Some(d)
    ensures Inv(m')
  {
    forall k | k in m'.caps ensures Confined(m', k) {
      if k != d {
        assert Confined(m, k);
      }
    }
    forall k | k in m'.caps ensures Rooted(m', k) {
      if k != d {
        assert Rooted(m, k);
        RootedKept(m, m', d, k);
      } else if m'.caps[d].obj.Memory? {
        assert m'.caps[d].parent.Some? ==> Rooted(m, m'.caps[d].parent.value);
        RootedNew(m, m', d);
      }
    }
    forall i | 0 <= i < |m'.parcels| ensures Genuine(m', m'.parcels[i]) {
      assert Genuine(m, m.parcels[i]);
    }
  }

  lemma AddedModest(m: Machine, m': Machine, d: Key)
    requires Inv(m) && Added(m, m', d) && m'.caps[d].parent != Some(d)
    ensures AllModest(m') <==> AllModest(m) && Modest(m', d)
  {
    forall k | k in m.caps ensures Modest(m', k) <==> Modest(m, k) {
      assert Confined(m, k);
    }
    if AllModest(m') {
      forall k | k in m.caps ensures Modest(m, k) {
        assert Modest(m', k);
      }
    }
    if AllModest(m) && Modest(m', d) {
      forall k | k in m'.caps ensures Modest(m', k) {
        assert k != d ==> Modest(m, k);
      }
    }
  }

  // ---------------------------------------------------------------- the calls

  lemma ObtainStep(m: Machine, d: Key, s: Key)
    requires Inv(m) && d !in m.caps
    ensures var m' := m.(caps := Obtain(m.caps, d, s));
            Inv(m') && (AllModest(m') <==> AllModest(m))
  {
    var m' := m.(caps := Obtain(m.caps, d, s));
    if m' != m {
      assert Added(m, m', d);
      assert Confined(m, s);
      AddedInv(m, m', d);
      AddedModest(m, m', d);
    }
  }

  /** The rounds of an exchange, also within one table. */
  lemma {:induction false} ExchangeStep(m: Machine, r: Route, n: nat)
    requires Inv(m) && forall i :: 0 <= i < n ==> DstKey(r.dst, r.dstStart, i) !in m.caps
    ensures var m' := m.(caps := Exchanged(m.caps, r, n));
            && Inv(m') && (AllModest(m') <==> AllModest(m))
            && forall k :: k in m'.caps ==> k in m.caps || (k.tbl == r.dst && k.sel < r.dstStart + n)
  {
    if n > 0 {
      ExchangeStep(m, r, n - 1);
      var m1 := m.(caps := Exchanged(m.caps, r, n - 1));
      hide Inv, AllModest;
      ObtainStep(m1, DstKey(r.dst, r.dstStart, n - 1), SrcKey(r.src, r.srcStart, n - 1));
    }
  }

  // -------------------------------------------------------- across two kernels

  /** The machine `m'` differs from `m` in links to children and in parcels only. */
  ghost predicate Relinked(m: Machine, m': Machine) {
    && m'.caps.Keys == m.caps.Keys && m'.roots == m.roots
    && forall k :: k in m.caps ==> m'.caps[k].obj == m.caps[k].obj && m'.caps[k].parent == m.caps[k].parent
  }

  lemma RelinkedInv(m: Machine, m': Machine)
    requires Inv(m) && Relinked(m, m') && forall i :: 0 <= i < |m'.parcels| ==> Genuine(m', m'.parcels[i])
    ensures Inv(m') && (AllModest(m') <==> AllModest(m))
  {
    forall k | k in m.caps
      ensures Confined(m', k) && Rooted(m', k) && (Modest(m', k) <==> Modest(m, k))
    {
      assert Confined(m, k) && Rooted(m, k);
      if m.caps[k].obj.Memory? {
        var path :| Origin(m, k, path);
        assert Origin(m', k, path);
      }
    }
    if AllModest(m') {
      forall k | k in m.caps ensures Modest(m, k) {
        assert Modest(m', k);
      }
    }
    if AllModest(m) {
      forall k | k in m.caps ensures Modest(m', k) {
        assert Modest(m, k);
      }
    }
  }

  lemma {:induction false} LinkedSame(caps: Caps, tbl: nat, start: nat, client: nat, clientStart: nat,
                                      homes: map<nat, nat>, me: nat, n: nat)
    requires forall i :: 0 <= i < n ==> SrcKey(tbl, start, i) in caps
    ensures var caps' := Linked(caps, tbl, start, client, clientStart, homes, me, n);
            forall k :: k in caps ==> caps'[k].obj == caps[k].obj && caps'[k].parent == caps[k].parent
  {
    hide SrcKey, AddChild, DstKey;
    if n > 0 {
      LinkedSame(caps, tbl, start, client, clientStart, homes, me, n - 1);
    }
  }

  lemma ServeStep(m: Machine, call: Call)
    requires Inv(m) && call.Serve? && Sane(call)
    ensures Inv(Perform(m, call)) && (AllModest(Perform(m, call)) <==> AllModest(m))
  {
    var m' := Perform(m, call);
    var h := FirstHole(m.caps, call.tbl, call.offered.start, call.offered.count);
    LinkedSame(m.caps, call.tbl, call.offered.start, call.client, call.c.start, call.homes, call.me, h);
    hide Linked, FirstHole, SrcKey;
    assert Relinked(m, m');
    forall i | 0 <= i < |m'.parcels| ensures Genuine(m', m'.parcels[i]) {
      if i < |m.parcels| {
        assert Genuine(m, m.parcels[i]);
      }
    }
    RelinkedInv(m, m');
  }

  lemma InsertStep(m: Machine, d: Key, s: Shipped)
    requires Inv(m) && d !in m.caps && s.id in m.caps && m.caps[s.id].obj == s.obj
    ensures var m' := m.(caps := m.caps[d := Cap(s.obj, Some(s.id), [])]);
            Inv(m') && (AllModest(m') <==> AllModest(m))
  {
    var m' := m.(caps := m.caps[d := Cap(s.obj, Some(s.id), [])]);
    assert Added(m, m', d);
    assert Confined(m, s.id);
    AddedInv(m, m', d);
    AddedModest(m, m', d);
  }

  lemma {:induction false} InsertSteps(m: Machine, tbl: nat, start: nat, shipped: seq<Shipped>, n: nat)
    requires Inv(m) && n <= |shipped| && forall i :: 0 <= i < n ==> DstKey(tbl, start, i) !in m.caps
    requires forall i :: 0 <= i < |shipped| ==> shipped[i].id in m.caps && m.caps[shipped[i].id].obj == shipped[i].obj
    ensures var m' := m.(caps := Inserted(m.caps, tbl, start, shipped, n));
            && Inv(m') && (AllModest(m') <==> AllModest(m))
            && (forall k :: k in m'.caps ==> k in m.caps || (k.tbl == tbl && k.sel < start + n))
            && (forall k :: k in m.caps ==> k in m'.caps && m'.caps[k] == m.caps[k])
  {
    if n > 0 {
      InsertSteps(m, tbl, start, shipped, n - 1);
      hide Inv, AllModest;
      if Cloneable(shipped[n - 1].obj) {
        InsertStep(m.(caps := Inserted(m.caps, tbl, start, shipped, n - 1)), DstKey(tbl, start, n - 1), shipped[n - 1]);
      }
    }
  }

  lemma ReceiveStep(m: Machine, call: Call)
    requires Inv(m) && call.Receive?
    ensures Inv(Perform(m, call)) && (AllModest(Perform(m, call)) <==> AllModest(m))
  {
    if call.i < |m.parcels| {
      var p := m.parcels[call.i];
      var m1 := m.(caps := AfterReply(m.caps, p.client, p.c, p.reply));
      assert Genuine(m, p);
      if p.reply.Granted? && RangeUnused(m.caps, p.client, p.c) {
        InsertSteps(m, p.client, p.c.start, p.reply.shipped, |p.reply.shipped|);
      }
      hide AfterReply;
      assert Inv(m1);
      var m' := Perform(m, call);
      forall i | 0 <= i < |m'.parcels| ensures Genuine(m', m'.parcels[i]) {
        assert Genuine(m1, m1.parcels[if i < call.i then i else i + 1]);
      }
      RelinkedInv(m1, m');
    }
  }

  lemma RequestStep(m: Machine, call: Call)
    requires Inv(m) && call.Request? && Sane(call)
    ensures Inv(Perform(m, call)) && (AllModest(Perform(m, call)) <==> AllModest(m))
  {
    var m' := Perform(m, call);
    var d := Key(call.tbl, call.sel);
    if MayRequest(m.caps, call.tbl, call.sel, call.size, call.perms) && call.alloc.Some? {
      assert LowBits(call.alloc.value) == 0;
      assert Added(m, m', d);
      AddedInv(m, m', d);
      AddedModest(m, m', d);
    }
  }

  /** The bits of the offset that reach the permissions are permissions of the source. */
  predicate Covered(caps: Caps, call: Call) {
    call.Derive? && MayDerive(caps, call.tbl, call.src, call.dst, call.offset, call.size, call.perms) ==>
      Within(LowBits(call.offset), Perms(caps[Key(call.tbl, call.src)].obj))
  }

  lemma DerivedInside(obj: Object, offset: nat, size: nat, perms: bv3)
    requires obj.Memory? && End(obj) <= WORD && offset < WORD && 0 < size < WORD
    requires (offset + size) % WORD >= offset && (offset + size) % WORD <= obj.size
    ensures Inside(DerivedObject(obj, offset, size, perms), obj)
    ensures Start(DerivedObject(obj, offset, size, perms)) + offset % 8 == Start(obj) + offset
    ensures Perms(DerivedObject(obj, offset, size, perms)) == LowBits(offset) | (perms & Perms(obj))
  {
    assert offset + size < WORD;
    var addr := Start(obj) + offset;
    assert addr < WORD;
    EightAndRest(obj.tag.high, offset);
    hide LowBits;
  }

  lemma EightAndRest(high: nat, offset: nat)
    ensures (high * 8 + offset) / 8 * 8 + offset % 8 == high * 8 + offset
    ensures LowBits(high * 8 + offset) == LowBits(offset)
  {
    assert (high * 8 + offset) % 8 == offset % 8;
  }

  /** Which requests are not refused, whatever the allocator says. */
  lemma MayRequestIff(caps: Caps, tbl: nat, sel: nat, size: nat, perms: int)
    ensures MayRequest(caps, tbl, sel, size, perms) <==>
            Key(tbl, sel) !in caps && perms in {1, 2, 3, 4, 5, 6, 7} && exists n: nat :: n > 0 && size == n * 8
  {
    if size != 0 && size % 8 == 0 {
      assert size == (size / 8) * 8;
    }
  }

  /**
   Which derivations are accepted: those from a memory capability to an empty slot that
   name a nonempty part of it, up to its very end, without overflow, and permission bits.
   */
  lemma MayDeriveIff(m: Machine, call: Call)
    requires Inv(m) && call.Derive? && Sane(call)
    ensures var s, d := Key(call.tbl, call.src), Key(call.tbl, call.dst);
            MayDerive(m.caps, call.tbl, call.src, call.dst, call.offset, call.size, call.perms) <==>
            && s in m.caps && m.caps[s].obj.Memory? && d !in m.caps
            && 0 < call.size && call.offset + call.size <= m.caps[s].obj.size && 0 <= call.perms < 8
  {
    var s := Key(call.tbl, call.src);
    assert s in m.caps ==> Confined(m, s);
  }

  /** A requested capability has exactly the allocated range and the permissions asked for. */
  lemma RequestedExactly(addr: nat, size: nat, perms: bv3)
    requires Sound(addr, size)
    ensures var obj := Memory(MakeLabel(addr, perms), size);
            Start(obj) == addr && End(obj) == addr + size && Perms(obj) == perms
  {
    assert LowBits(addr) == 0;
  }

  /** At an aligned offset the caller gets exactly the range and the permissions of its arguments. */
  lemma DerivedExactly(obj: Object, offset: nat, size: nat, perms: bv3)
    requires obj.Memory? && End(obj) <= WORD && offset < WORD && 0 < size < WORD && offset % 8 == 0
    requires (offset + size) % WORD >= offset && (offset + size) % WORD <= obj.size
    ensures var d := DerivedObject(obj, offset, size, perms);
            && Start(d) == Start(obj) + offset && End(d) == Start(d) + size
            && Perms(d) == perms & Perms(obj)
  {
    DerivedInside(obj, offset, size, perms);
    EightAndRest(obj.tag.high, offset);
    assert LowBits(offset) == 0;
  }

  /**
   A derivation adds a child of the source capability, inside its range, with the size that
   was asked for, the common permissions and the low bits of the offset. It starts at the
   offset, less those low bits.
   */
  ghost predicate DerivedAs(caps: Caps, caps': Caps, call: Call)
    requires call.Derive? && 0 <= call.perms < 8
  {
    var s, d := Key(call.tbl, call.src), Key(call.tbl, call.dst);
    && s in caps && caps'.Keys == caps.Keys + {d} && d !in caps
    && (forall k :: k in caps && k != s ==> caps'[k] == caps[k])
    && caps'[s] == caps[s].(children := [d] + caps[s].children)
    && var from, c := caps[s].obj, caps'[d];
    && from.Memory? && c.obj.Memory? && c.parent == Some(s)
    && Inside(c.obj, from) && Perms(c.obj) == LowBits(call.offset) | (call.perms as bv3 & Perms(from))
    && Start(c.obj) + call.offset % 8 == Start(from) + call.offset && c.obj.size == call.size
  }

  lemma DeriveMeans(m: Machine, call: Call)
    requires Inv(m) && call.Derive? && Sane(call)
    requires MayDerive(m.caps, call.tbl, call.src, call.dst, call.offset, call.size, call.perms)
    ensures DerivedAs(m.caps, Perform(m, call).caps, call)
  {
    var s := Key(call.tbl, call.src);
    assert Confined(m, s);
    hide Inv;
    DerivedInside(m.caps[s].obj, call.offset, call.size, call.perms as bv3);
    hide LowBits, MakeLabel;
  }

  lemma DerivedModest(low: bv3, perms: bv3, from: bv3)
    ensures Within(low | (perms & from), from) <==> Within(low, from)
  {
  }

  lemma DeriveStep(m: Machine, call: Call)
    requires Inv(m) && call.Derive? && Sane(call)
    ensures Inv(Perform(m, call))
    ensures AllModest(Perform(m, call)) <==> AllModest(m) && Covered(m.caps, call)
  {
    var m' := Perform(m, call);
    var d, s := Key(call.tbl, call.dst), Key(call.tbl, call.src);
    if MayDerive(m.caps, call.tbl, call.src, call.dst, call.offset, call.size, call.perms) {
      assert Confined(m, s);
      var from := m.caps[s].obj;
      hide Inv, AllModest;
      DerivedInside(from, call.offset, call.size, call.perms as bv3);
      DerivedModest(LowBits(call.offset), call.perms as bv3, Perms(from));
      assert Added(m, m', d);
      hide DerivedObject, LowBits;
      AddedInv(m, m', d);
      AddedModest(m, m', d);
    }
  }

  lemma CallStep(m: Machine, call: Call)
    requires Inv(m) && Sane(call)
    ensures Inv(Perform(m, call))
    ensures AllModest(Perform(m, call)) <==> AllModest(m) && Covered(m.caps, call)
  {
    match call {
      case Request(_, _, _, _, _) =>
        RequestStep(m, call);
      case Derive(_, _, _, _, _, _) =>
        DeriveStep(m, call);
      case Exchange(v1, v2, c1, c2, obtain) =>
        if Acceptable(m.caps, v1, v2, c1, c2, obtain) {
          AcceptableFits(m.caps, v1, v2, c1, c2, obtain);
          hide Inv, AllModest, Acceptable;
          ExchangeStep(m, RouteOf(v1, v2, c1, c2, obtain), c2.count);
        }
      case Serve(_, _, _, _, _, _) =>
        ServeStep(m, call);
      case Receive(_) =>
        ReceiveStep(m, call);
    }
  }

  // ------------------------------------------------------- an obtain as a whole

  /** The machine after an obtain whose reply is taken next. */
  function ObtainedBy(
    m: Machine, tbl: nat, offered: Range, client: nat, c: Range, homes: map<nat, nat>, me: nat): Machine
  {
    Perform(Perform(m, Serve(tbl, offered, client, c, homes, me)), Receive(|m.parcels|))
  }

  lemma {:induction false} ObtainedIs(
    m: Machine, tbl: nat, offered: Range, client: nat, c: Range, homes: map<nat, nat>, me: nat)
    ensures var srv' := AfterAnswer(m.caps, tbl, offered, client, c, homes, me);
            ObtainedBy(m, tbl, offered, client, c, homes, me)
            == m.(caps := AfterReply(srv', client, c, Answer(m.caps, tbl, offered, c)))
  {
    hide AfterAnswer, AfterReply, Answer;
    var m1 := Perform(m, Serve(tbl, offered, client, c, homes, me));
    assert Without(m1.parcels, |m.parcels|) == m.parcels;
  }

  /**
   Slot `d` is a new child of slot `s` and has its object, unless that is a service; then
   the slot of the child is empty.
   */
  ghost predicate ChildOf(caps: Caps, caps': Caps, s: Key, d: Key, homes: map<nat, nat>, me: nat) {
    && s in caps && s in caps'
    && caps'[s] == caps[s].(children := AddChild(caps[s].children, d, homes, me))
    && (d in caps' <==> !caps[s].obj.Service?)
    && (d in caps' ==> caps'[d] == Cap(caps[s].obj, Some(s), []))
  }

  /**
   An obtain across kernels: slot `i` of what the service offers, up to the first hole, and
   slot `i` of the client's range become parent and child.
   */
  lemma {:induction false} ObtainAcross(m: Machine, tbl: nat, offered: Range, client: nat, c: Range,
                                        homes: map<nat, nat>, me: nat, i: nat)
    requires Selectable(m.caps) && offered.Fits() && c.Fits() && offered.typ == c.typ == ObjRange
    requires offered.count <= c.count && RangeUnused(m.caps, client, c)
    requires i < offered.count && forall j :: 0 <= j <= i ==> SrcKey(tbl, offered.start, j) in m.caps
    ensures var m' := ObtainedBy(m, tbl, offered, client, c, homes, me);
            && m'.parcels == m.parcels && m'.roots == m.roots
            && ChildOf(m.caps, m'.caps, SrcKey(tbl, offered.start, i), DstKey(client, c.start, i), homes, me)
  {
    hide AfterAnswer, AfterReply, Answer, ObtainedBy, AddChild, RangeUnused, Selectable, FirstHole;
    var srv' := AfterAnswer(m.caps, tbl, offered, client, c, homes, me);
    ObtainedIs(m, tbl, offered, client, c, homes, me);
    ObtainFrame(m.caps, tbl, offered, srv', client, c, homes, me);
    assert RangeUnused(srv', client, c) by {
      RangeUnusedIff(m.caps, client, c);
      RangeUnusedIff(srv', client, c);
    }
    ObtainCorresponds(m.caps, tbl, offered, srv', client, c, homes, me, i);
  }

  // --------------------------------------------------------------- whole runs

  ghost predicate SaneRun(calls: seq<Call>) {
    forall i :: 0 <= i < |calls| ==> Sane(calls[i])
  }

  /** Every derivation of the run had its offset covered. */
  ghost predicate CoveredRun(m: Machine, calls: seq<Call>) {
    if |calls| == 0 then true
    else CoveredRun(m, calls[..|calls| - 1]) && Covered(PerformAll(m, calls[..|calls| - 1]).caps, calls[|calls| - 1])
  }

  lemma InitialInv(m: Machine)
    requires Initial(m)
    ensures Inv(m) && AllModest(m)
  {
    forall k | k in m.caps ensures Rooted(m, k) {
      if m.caps[k].obj.Memory? {
        assert Origin(m, k, [k]);
      }
    }
  }

  lemma {:induction false} RunInv(m: Machine, calls: seq<Call>)
    requires Initial(m) && SaneRun(calls)
    ensures Inv(PerformAll(m, calls))
    ensures AllModest(PerformAll(m, calls)) <==> CoveredRun(m, calls)
  {
    if |calls| == 0 {
      InitialInv(m);
    } else {
      var before := calls[..|calls| - 1];
      RunInv(m, before);
      hide Inv, AllModest, Perform;
      CallStep(PerformAll(m, before), calls[|calls| - 1]);
    }
  }

  lemma {:induction false} ChainConfines(m: Machine, path: seq<Key>)
    requires Inv(m) && Chain(m.caps, path) && m.caps[path[0]].obj.Memory?
    ensures m.caps[path[|path| - 1]].obj.Memory?
    ensures Inside(m.caps[path[0]].obj, m.caps[path[|path| - 1]].obj)
    ensures AllModest(m) ==> Within(Perms(m.caps[path[0]].obj), Perms(m.caps[path[|path| - 1]].obj))
    decreases |path|
  {
    assert Confined(m, path[0]);
    if |path| > 1 {
      var rest := path[1..];
      assert Modest(m, path[0]) || !AllModest(m);
      ChainConfines(m, rest);
      assert rest[|rest| - 1] == path[|path| - 1];
    }
  }

  /**
   After every run, each memory capability anywhere has a nonempty range that lies inside
   what reqmem allocated for the capability it descends from. If all offsets were covered
   it has no permission that was not asked for there.
   */
  lemma MemoryStaysInside(m: Machine, calls: seq<Call>, k: Key) returns (path: seq<Key>)
    requires Initial(m) && SaneRun(calls)
    requires k in PerformAll(m, calls).caps && PerformAll(m, calls).caps[k].obj.Memory?
    ensures var m' := PerformAll(m, calls);
            && Origin(m', k, path) && path[|path| - 1] in m'.roots
            && var a, obj := m'.roots[path[|path| - 1]], m'.caps[k].obj;
               && a.addr <= Start(obj) < End(obj) <= a.addr + a.size <= WORD
               && (CoveredRun(m, calls) ==> Within(Perms(obj), a.perms))
  {
    var m' := PerformAll(m, calls);
    RunInv(m, calls);
    assert Rooted(m', k) && Confined(m', k);
    path :| Origin(m', k, path);
    ChainConfines(m', path);
    assert Confined(m', path[|path| - 1]);
  }

  /**
   After every run, permissions only ever fall from ancestor to descendant exactly when
   no derivation used an offset whose low bits name a permission its source lacks.
   */
  lemma {:induction false} PermissionsFall(m: Machine, calls: seq<Call>)
    requires Initial(m) && SaneRun(calls)
    ensures var m' := PerformAll(m, calls);
            (forall path {:trigger Chain(m'.caps, path)} ::
               Chain(m'.caps, path) && m'.caps[path[0]].obj.Memory? && m'.caps[path[|path| - 1]].obj.Memory? ==>
                 Within(Perms(m'.caps[path[0]].obj), Perms(m'.caps[path[|path| - 1]].obj)))
            <==> CoveredRun(m, calls)
  {
    var m' := PerformAll(m, calls);
    RunInv(m, calls);
    hide PerformAll, CoveredRun;
    if AllModest(m') {
      forall path | Chain(m'.caps, path) && m'.caps[path[0]].obj.Memory? && m'.caps[path[|path| - 1]].obj.Memory?
        ensures Within(Perms(m'.caps[path[0]].obj), Perms(m'.caps[path[|path| - 1]].obj))
      {
        ChainConfines(m', path);
      }
    } else {
      var k :| k in m'.caps && !Modest(m', k);
      var path := [k, m'.caps[k].parent.value];
      assert Chain(m'.caps, path);
      assert !Within(Perms(m'.caps[path[0]].obj), Perms(m'.caps[path[|path| - 1]].obj));
    }
  }

  /** An offset that is a multiple of eight, as the memory objects assert, is always covered. */
  lemma AlignedIsCovered(caps: Caps, call: Call)
    requires call.Derive? && call.offset % 8 == 0
    ensures Covered(caps, call)
  {
    assert LowBits(call.offset) == 0;
  }

  /** A VPE as it is created: its own capability in slot 0, and its memory in slot 1. */
  const CREATED: Machine := Machine(
    map[Key(0, 0) := Cap(Vpe(0), None, []),
        Key(0, 1) := Cap(Memory(Label(0, 7), 0xFFFF_FFFF), None, [])],
    map[Key(0, 1) := Allocation(0, 0xFFFF_FFFF, 7)], [])

  /** A readable allocation, and eight bytes of it at offset 2, derived without permissions. */
  const UNCOVERED: seq<Call> := [Request(0, 2, 16, 1, Some(0)), Derive(0, 2, 3, 2, 8, 0)]

  /** The machine after the first of the two calls. */
  lemma UncoveredFirst()
    ensures UNCOVERED[..1][..0] == [] && |UNCOVERED[..1]| == 1
    ensures var m := PerformAll(CREATED, UNCOVERED[..1]);
            && Key(0, 2) in m.caps && m.caps[Key(0, 2)].obj == Memory(Label(0, 1), 16)
            && Key(0, 3) !in m.caps
  {
    var first := [Request(0, 2, 16, 1, Some(0))];
    assert UNCOVERED[..1] == first && first[..0] == [];
    assert PerformAll(CREATED, []) == CREATED;
    assert LowBits(0) == 0;
  }

  /** The derived capability can be written to, though its parent can only be read. */
  lemma UncoveredRun()
    ensures Initial(CREATED) && SaneRun(UNCOVERED)
    ensures var m := PerformAll(CREATED, UNCOVERED);
            && Key(0, 3) in m.caps && m.caps[Key(0, 3)].parent == Some(Key(0, 2)) && Key(0, 2) in m.caps
            && m.caps[Key(0, 3)].obj.Memory? && Perms(m.caps[Key(0, 3)].obj) == 2
            && m.caps[Key(0, 2)].obj.Memory? && Perms(m.caps[Key(0, 2)].obj) == 1
            && !CoveredRun(CREATED, UNCOVERED)
  {
    UncoveredFirst();
    var m1 := PerformAll(CREATED, UNCOVERED[..1]);
    assert PerformAll(CREATED, UNCOVERED) == Perform(m1, UNCOVERED[1]);
    hide PerformAll;
    assert LowBits(2) == 2;
  }
}

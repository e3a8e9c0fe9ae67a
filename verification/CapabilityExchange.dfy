/** What do_exchange does to the tables. */
module CapabilityExchange {
  import opened Common
  import opened Capabilities

  ghost predicate Selectable(caps: Caps) {
    forall k :: k in caps ==> k.sel < SELECTORS
  }

  /** Which round of an exchange from `start` on visits selector `sel`. */
  function Round(sel: nat, start: nat): nat
    requires sel < SELECTORS && start < SELECTORS
  {
    (sel + SELECTORS - start) % SELECTORS
  }

  lemma RoundOfSource(src: nat, start: nat, i: nat)
    requires start < SELECTORS && i < SELECTORS
    ensures Round(SrcKey(src, start, i).sel, start) == i
  {
  }

  lemma SourceOfRound(src: nat, start: nat, sel: nat)
    requires start < SELECTORS && sel < SELECTORS
    ensures SrcKey(src, start, Round(sel, start)) == Key(src, sel)
  {
  }

  /**
   Round `i` passes a capability on: its source slot holds one that can be cloned, or, in
   an exchange within one table, has been given one by an earlier round.
   */
  predicate Passes(caps: Caps, r: Route, i: nat) {
    var s := SrcKey(r.src, r.srcStart, i);
    if s in caps then Cloneable(caps[s].obj)
    else r.src == r.dst && r.dstStart <= s.sel < r.dstStart + i && Passes(caps, r, s.sel - r.dstStart)
  }

  function Passed(caps: Caps, r: Route, i: nat): (obj: Object)
    requires Passes(caps, r, i)
    ensures Cloneable(obj)
  {
    var s := SrcKey(r.src, r.srcStart, i);
    if s in caps then caps[s].obj else Passed(caps, r, s.sel - r.dstStart)
  }

  /** The destination slots that are filled after `n` rounds. */
  function Filled(caps: Caps, r: Route, n: nat): set<Key> {
    set i | 0 <= i < n && Passes(caps, r, i) :: DstKey(r.dst, r.dstStart, i)
  }

  /** What slot `k` held before, or was filled with. */
  function Given(caps: Caps, r: Route, n: nat, k: Key): Cap
    requires k in caps || k in Filled(caps, r, n)
  {
    if k in caps then caps[k]
    else Cap(Passed(caps, r, k.sel - r.dstStart), Some(SrcKey(r.src, r.srcStart, k.sel - r.dstStart)), [])
  }

  /** Slot `k` is the source of one of the first `n` rounds, and holds something by then. */
  predicate Visited(caps: Caps, r: Route, n: nat, k: Key)
    requires k.sel < SELECTORS && r.srcStart < SELECTORS
  {
    && k.tbl == r.src && Round(k.sel, r.srcStart) < n
    && (k in caps || k.sel - r.dstStart < Round(k.sel, r.srcStart))
  }

  /** What slot `k` holds after `n` rounds. */
  function SlotAfter(caps: Caps, r: Route, n: nat, k: Key): Cap
    requires k.sel < SELECTORS && r.srcStart < SELECTORS
    requires k in caps || k in Filled(caps, r, n)
  {
    var c := Given(caps, r, n, k);
    if Visited(caps, r, n, k) && Cloneable(c.obj) then
      c.(children := [DstKey(r.dst, r.dstStart, Round(k.sel, r.srcStart))] + c.children)
    else c
  }

  ghost predicate IsAfter(caps': Caps, caps: Caps, r: Route, n: nat)
    requires r.srcStart < SELECTORS && Selectable(caps')
  {
    && (forall k :: k in caps' <==> k in caps || k in Filled(caps, r, n))
    && (forall k :: k in caps' ==> caps'[k] == SlotAfter(caps, r, n, k))
  }

  lemma FilledStep(caps: Caps, r: Route, n: nat)
    ensures Filled(caps, r, n + 1)
            == Filled(caps, r, n) + if Passes(caps, r, n) then {DstKey(r.dst, r.dstStart, n)} else {}
    ensures DstKey(r.dst, r.dstStart, n) !in Filled(caps, r, n)
  {
  }

  lemma {:induction false} FilledIs(caps: Caps, r: Route, n: nat, k: Key)
    ensures k in Filled(caps, r, n) <==>
            k.tbl == r.dst && r.dstStart <= k.sel < r.dstStart + n && Passes(caps, r, k.sel - r.dstStart)
  {
    if k.tbl == r.dst && r.dstStart <= k.sel < r.dstStart + n {
      assert k == DstKey(r.dst, r.dstStart, k.sel - r.dstStart);
    }
  }

  lemma {:induction false} PassesIs(caps: Caps, r: Route, n: nat, s: Key)
    requires s == SrcKey(r.src, r.srcStart, n) && s.tbl == r.src
    ensures Passes(caps, r, n) <==> if s in caps then Cloneable(caps[s].obj) else s in Filled(caps, r, n)
    ensures Passes(caps, r, n) ==> Passed(caps, r, n) == Given(caps, r, n, s).obj
  {
    hide SrcKey, Filled, Passes, Passed;
    PassesOnce(caps, r, n, s);
    FilledIs(caps, r, n, s);
  }

  /** What Passes and Passed say of round `n`, whose source is `s`. */
  lemma PassesOnce(caps: Caps, r: Route, n: nat, s: Key)
    requires s == SrcKey(r.src, r.srcStart, n)
    ensures Passes(caps, r, n) <==>
            if s in caps then Cloneable(caps[s].obj)
            else r.src == r.dst && r.dstStart <= s.sel < r.dstStart + n && Passes(caps, r, s.sel - r.dstStart)
    ensures Passes(caps, r, n) ==>
              Passed(caps, r, n) == if s in caps then caps[s].obj else Passed(caps, r, s.sel - r.dstStart)
  {
    hide SrcKey;
  }

  /** Slot `k` has not been visited before its own round. */
  lemma NotYetVisited(caps: Caps, r: Route, n: nat)
    requires r.srcStart < SELECTORS && n < SELECTORS
    ensures SrcKey(r.src, r.srcStart, n).sel < SELECTORS
    ensures !Visited(caps, r, n, SrcKey(r.src, r.srcStart, n))
  {
    RoundOfSource(r.src, r.srcStart, n);
  }

  /** Round `n` visits its source, and no other slot. */
  lemma VisitedStep(caps: Caps, r: Route, n: nat, k: Key)
    requires r.srcStart < SELECTORS && n < SELECTORS && k.sel < SELECTORS
    ensures var s := SrcKey(r.src, r.srcStart, n);
            && (k != s ==> (Visited(caps, r, n + 1, k) <==> Visited(caps, r, n, k)))
            && (k == s ==> (Visited(caps, r, n + 1, k) <==> k in caps || k.sel - r.dstStart < n))
            && (k == s ==> Round(k.sel, r.srcStart) == n)
  {
    RoundOfSource(r.src, r.srcStart, n);
    if k.tbl == r.src {
      SourceOfRound(r.src, r.srcStart, k.sel);
    }
  }

  /** The source of round `n`, just before the round. */
  lemma {:induction false} SourceNow(caps: Caps, caps1: Caps, r: Route, n: nat)
    requires Selectable(caps1) && r.srcStart < SELECTORS && n < SELECTORS && IsAfter(caps1, caps, r, n)
    ensures var s := SrcKey(r.src, r.srcStart, n);
            && (s in caps1 && Cloneable(caps1[s].obj) <==> Passes(caps, r, n))
            && (s in caps1 ==> caps1[s] == Given(caps, r, n, s))
            && (Passes(caps, r, n) ==> caps1[s].obj == Passed(caps, r, n))
  {
    PassesIs(caps, r, n, SrcKey(r.src, r.srcStart, n));
    NotYetVisited(caps, r, n);
    hide Filled, Passes, Passed, SrcKey, Visited, Round;
  }

  lemma RoundStep(caps: Caps, caps1: Caps, r: Route, n: nat)
    requires Selectable(caps1) && r.srcStart < SELECTORS && n < SELECTORS && r.dstStart + n < SELECTORS
    requires DstKey(r.dst, r.dstStart, n) !in caps && IsAfter(caps1, caps, r, n)
    ensures var d, s := DstKey(r.dst, r.dstStart, n), SrcKey(r.src, r.srcStart, n);
            d !in caps1 && Selectable(Obtain(caps1, d, s)) && IsAfter(Obtain(caps1, d, s), caps, r, n + 1)
  {
    var d, s := DstKey(r.dst, r.dstStart, n), SrcKey(r.src, r.srcStart, n);
    FilledStep(caps, r, n);
    SourceNow(caps, caps1, r, n);
    hide Filled, Passes, Passed, SrcKey, Visited, Round;
    var caps2 := Obtain(caps1, d, s);
    forall k | k in caps2 ensures caps2[k] == SlotAfter(caps, r, n + 1, k) {
      SlotStep(caps, caps1, r, n, k);
    }
  }

  lemma {:induction false} SlotStep(caps: Caps, caps1: Caps, r: Route, n: nat, k: Key)
    requires Selectable(caps1) && r.srcStart < SELECTORS && n < SELECTORS && r.dstStart + n < SELECTORS
    requires DstKey(r.dst, r.dstStart, n) !in caps && IsAfter(caps1, caps, r, n)
    requires k in caps1 || (k == DstKey(r.dst, r.dstStart, n) && Passes(caps, r, n))
    ensures k in caps || k in Filled(caps, r, n + 1)
    ensures var d, s := DstKey(r.dst, r.dstStart, n), SrcKey(r.src, r.srcStart, n);
            SlotAfter(caps, r, n + 1, k) ==
            if k == d then Cap(Passed(caps, r, n), Some(s), [])
            else if k == s && Passes(caps, r, n) then caps1[k].(children := [d] + caps1[k].children)
            else caps1[k]
  {
    hide Filled, Passes, Passed, SrcKey, Visited, Round;
    FilledStep(caps, r, n);
    if k == DstKey(r.dst, r.dstStart, n) {
      NotVisitedNew(caps, r, n);
    } else if k == SrcKey(r.src, r.srcStart, n) {
      SourceStep(caps, caps1, r, n);
    } else {
      VisitedStep(caps, r, n, k);
    }
  }

  lemma {:induction false} SourceStep(caps: Caps, caps1: Caps, r: Route, n: nat)
    requires Selectable(caps1) && r.srcStart < SELECTORS && n < SELECTORS && r.dstStart + n < SELECTORS
    requires DstKey(r.dst, r.dstStart, n) !in caps && IsAfter(caps1, caps, r, n)
    requires SrcKey(r.src, r.srcStart, n) in caps1
    ensures var d, s := DstKey(r.dst, r.dstStart, n), SrcKey(r.src, r.srcStart, n);
            && (s in caps || s in Filled(caps, r, n + 1))
            && SlotAfter(caps, r, n + 1, s) ==
               if Passes(caps, r, n) then caps1[s].(children := [d] + caps1[s].children) else caps1[s]
  {
    hide Filled, Passes, Passed, SrcKey, Visited, Round;
    var s := SrcKey(r.src, r.srcStart, n);
    FilledStep(caps, r, n);
    FilledIs(caps, r, n, s);
    SourceNow(caps, caps1, r, n);
    VisitedStep(caps, r, n, s);
  }

  /** The slot that round `n` fills is not a source of this round or an earlier one. */
  lemma NotVisitedNew(caps: Caps, r: Route, n: nat)
    requires r.srcStart < SELECTORS && r.dstStart + n < SELECTORS && DstKey(r.dst, r.dstStart, n) !in caps
    ensures !Visited(caps, r, n + 1, DstKey(r.dst, r.dstStart, n))
  {
  }

  lemma {:induction false} RoundsAfter(caps: Caps, r: Route, n: nat)
    requires Selectable(caps) && r.srcStart < SELECTORS && r.dstStart < SELECTORS && r.dstStart + n <= SELECTORS
    requires n < SELECTORS
    requires forall i :: 0 <= i < n ==> DstKey(r.dst, r.dstStart, i) !in caps
    ensures Selectable(Exchanged(caps, r, n)) && IsAfter(Exchanged(caps, r, n), caps, r, n)
  {
    if n > 0 {
      RoundsAfter(caps, r, n - 1);
      RoundStep(caps, Exchanged(caps, r, n - 1), r, n - 1);
      hide IsAfter;
    }
  }

  /**
   An exchange that is refused changes nothing. One that is accepted fills the slot of
   every source capability that can be passed on, links it to that capability, and
   changes nothing else. All `c2.count` slots are filled exactly when every round passes
   a capability on.
   */
  lemma ExchangeAllOrNothing(caps: Caps, v1: nat, v2: nat, c1: Range, c2: Range, obtain: bool)
    requires Selectable(caps) && c1.Fits() && c2.Fits() && ForObjects(c1, c2)
    ensures var caps' := DoExchange(caps, v1, v2, c1, c2, obtain);
            var r := if obtain then Route(v1, c1.start, v2, c2.start) else Route(v2, c2.start, v1, c1.start);
            if Acceptable(caps, v1, v2, c1, c2, obtain) then
              && Selectable(caps') && IsAfter(caps', caps, r, c2.count)
              && ((forall i :: 0 <= i < c2.count ==> Fills(caps', r, i))
                  <==> forall i :: 0 <= i < c2.count ==> Succeeds(caps, r, i))
            else caps' == caps
  {
    hide Acceptable, Exchanged, IsAfter, Passes, Selectable;
    if Acceptable(caps, v1, v2, c1, c2, obtain) {
      var r := RouteOf(v1, v2, c1, c2, obtain);
      AcceptableFits(caps, v1, v2, c1, c2, obtain);
      RoundsAfter(caps, r, c2.count);
      AllFilled(caps, DoExchange(caps, v1, v2, c1, c2, obtain), r, c2.count);
    }
  }

  predicate Succeeds(caps: Caps, r: Route, i: nat) {
    Passes(caps, r, i)
  }

  /** Slot `i` of the destination range is in use. */
  predicate Fills(caps': Caps, r: Route, i: nat) {
    DstKey(r.dst, r.dstStart, i) in caps'
  }

  lemma AllFilled(caps: Caps, caps': Caps, r: Route, n: nat)
    requires Selectable(caps') && r.srcStart < SELECTORS && IsAfter(caps', caps, r, n)
    requires forall i :: 0 <= i < n ==> DstKey(r.dst, r.dstStart, i) !in caps
    ensures (forall i :: 0 <= i < n ==> Fills(caps', r, i))
            <==> forall i :: 0 <= i < n ==> Succeeds(caps, r, i)
  {
    hide SrcKey, SlotAfter, Filled;
    forall i | 0 <= i < n ensures Fills(caps', r, i) <==> Succeeds(caps, r, i) {
      FilledIs(caps, r, n, DstKey(r.dst, r.dstStart, i));
    }
  }

  /** Between different tables a round passes on what its source slot held before. */
  lemma {:induction false} PassesBetween(caps: Caps, r: Route, i: nat)
    requires r.src != r.dst
    ensures Passes(caps, r, i) <==>
            SrcKey(r.src, r.srcStart, i) in caps && Cloneable(caps[SrcKey(r.src, r.srcStart, i)].obj)
    ensures Passes(caps, r, i) ==> Passed(caps, r, i) == caps[SrcKey(r.src, r.srcStart, i)].obj
  {
  }

  /** A range is unused exactly when it ends below the last selector and all its slots are empty. */
  lemma RangeUnusedIff(caps: Caps, tbl: nat, r: Range)
    requires r.Fits()
    ensures RangeUnused(caps, tbl, r) <==>
            && (r.count == 0 || r.start + r.count < SELECTORS)
            && forall i :: 0 <= i < r.count ==> DstKey(tbl, r.start, i) !in caps
  {
    if forall i :: 0 <= i < r.count ==> DstKey(tbl, r.start, i) !in caps {
      forall j | r.start <= j < r.start + r.count ensures Key(tbl, j) !in caps {
        assert Key(tbl, j) == DstKey(tbl, r.start, j - r.start);
      }
    }
  }

  /**
   An obtain is accepted if the other side offers no more than was asked for, a delegation
   if both ranges are equally long; and the range to fill has to be of the same type, below
   the last selector and empty.
   */
  lemma AcceptableIff(caps: Caps, v1: nat, v2: nat, c1: Range, c2: Range, obtain: bool)
    requires c1.Fits() && c2.Fits()
    ensures Acceptable(caps, v1, v2, c1, c2, obtain) <==>
            && c1.typ == c2.typ
            && (obtain ==>
                  && c2.count <= c1.count && (c1.count == 0 || c1.start + c1.count < SELECTORS)
                  && forall i :: 0 <= i < c1.count ==> DstKey(v1, c1.start, i) !in caps)
            && (!obtain ==>
                  && c2.count == c1.count && (c2.count == 0 || c2.start + c2.count < SELECTORS)
                  && forall i :: 0 <= i < c2.count ==> DstKey(v2, c2.start, i) !in caps)
  {
    RangeUnusedIff(caps, v1, c1);
    RangeUnusedIff(caps, v2, c2);
    hide RangeUnused;
  }

  /**
   Slot `d` has become a clone of what slot `s` held, and is its first child, if that can
   be cloned, which everything can but a service; otherwise it is empty.
   */
  ghost predicate Copied(caps: Caps, caps': Caps, d: Key, s: Key) {
    if s in caps && !caps[s].obj.Service? then
      && d in caps' && caps'[d] == Cap(caps[s].obj, Some(s), [])
      && s in caps' && caps'[s] == caps[s].(children := [d] + caps[s].children)
    else d !in caps' && (s in caps ==> s in caps' && caps'[s] == caps[s])
  }

  /**
   Between two VPEs an accepted exchange copies slot by slot: an obtain from the other VPE's
   range `c2` to the caller's `c1`, a delegation from the caller's `c1` to the other's `c2`.
   */
  lemma {:induction false} ExchangeBetween(caps: Caps, v1: nat, v2: nat, c1: Range, c2: Range, obtain: bool, i: nat)
    requires Selectable(caps) && c1.Fits() && c2.Fits() && ForObjects(c1, c2) && v1 != v2
    requires Acceptable(caps, v1, v2, c1, c2, obtain) && i < c2.count
    ensures var caps' := DoExchange(caps, v1, v2, c1, c2, obtain);
            && (obtain ==>
                  Copied(caps, caps', Key(v1, c1.start + i), Key(v2, (c2.start + i) % SELECTORS)))
            && (!obtain ==>
                  Copied(caps, caps', Key(v2, c2.start + i), Key(v1, (c1.start + i) % SELECTORS)))
  {
    hide Copied, Acceptable, IsAfter, Exchanged, Selectable;
    var r := RouteOf(v1, v2, c1, c2, obtain);
    AcceptableFits(caps, v1, v2, c1, c2, obtain);
    RoundsAfter(caps, r, c2.count);
    RouteCopies(caps, Exchanged(caps, r, c2.count), r, c2.count, i);
  }

  lemma {:induction false} RouteCopies(caps: Caps, caps': Caps, r: Route, n: nat, i: nat)
    requires Selectable(caps') && r.srcStart < SELECTORS && IsAfter(caps', caps, r, n) && r.src != r.dst
    requires i < n < SELECTORS && DstKey(r.dst, r.dstStart, i) !in caps
    ensures Copied(caps, caps', DstKey(r.dst, r.dstStart, i), SrcKey(r.src, r.srcStart, i))
  {
    var d, s := DstKey(r.dst, r.dstStart, i), SrcKey(r.src, r.srcStart, i);
    PassesBetween(caps, r, i);
    FilledIs(caps, r, n, d);
    FilledIs(caps, r, n, s);
    RoundOfSource(r.src, r.srcStart, i);
    hide SrcKey, Round, Filled, Passes, Passed;
  }

  /** The slots that an accepted exchange fills are in range and empty. */
  lemma AcceptableFits(caps: Caps, v1: nat, v2: nat, c1: Range, c2: Range, obtain: bool)
    requires c1.Fits() && c2.Fits() && Acceptable(caps, v1, v2, c1, c2, obtain)
    ensures var r := RouteOf(v1, v2, c1, c2, obtain);
            && r.dstStart + c2.count <= SELECTORS
            && forall i :: 0 <= i < c2.count ==> DstKey(r.dst, r.dstStart, i) !in caps
  {
  }

  /** A service capability cannot be passed on: a range of it is accepted and fills nothing. */
  lemma ServiceNotPassed()
    ensures var caps: Caps := map[Key(1, 2) := Cap(Service(0), None, [])];
            var c1, c2 := Range(ObjRange, 5, 1), Range(ObjRange, 2, 1);
            && Acceptable(caps, 0, 1, c1, c2, true)
            && Key(0, 5) !in DoExchange(caps, 0, 1, c1, c2, true)
  {
    var caps: Caps := map[Key(1, 2) := Cap(Service(0), None, [])];
    var r := RouteOf(0, 1, Range(ObjRange, 5, 1), Range(ObjRange, 2, 1), true);
    assert SrcKey(1, 2, 0) == Key(1, 2);
    assert Exchanged(caps, r, 0) == caps;
    assert Exchanged(caps, r, 1) == caps;
  }
}

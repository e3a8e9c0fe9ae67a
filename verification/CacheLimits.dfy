/** How long a buffer stays where it is, and exactly how long the replacement is right. */
module CacheLimits {
  import opened Common
  import opened CacheSlots
  import opened CacheReplacement

  // -------------------------------------------------------- buffers stay put

  lemma {:induction false} DistinctSize(s: seq<nat>)
    requires Distinct(s)
    ensures |Elements(s)| == |s|
  {
    if |s| > 0 {
      var rest, x := s[..|s| - 1], s[|s| - 1];
      DistinctSize(rest);
      assert x !in Elements(rest);
      assert Elements(s) == Elements(rest) + {x} by {
        forall y | y in Elements(s) ensures y in Elements(rest) + {x} {
          var i :| 0 <= i < |s| && s[i] == y;
          assert i < |rest| ==> rest[i] == y;
        }
        forall y | y in Elements(rest) ensures y in Elements(s) {
          var i :| 0 <= i < |rest| && rest[i] == y;
          assert s[i] == y;
        }
      }
    }
  }

  /** In front of `b` are only blocks that were requested after it. */
  lemma {:induction false} InFrontOf(pre: seq<nat>, b: nat, suf: seq<nat>) returns (p: nat)
    ensures var r := Recent(pre + [b] + suf);
            && p < |r| && r[p] == b
            && forall i :: 0 <= i < p ==> r[i] in suf && r[i] != b
  {
    if |suf| == 0 {
      assert pre + [b] + suf == pre + [b];
      RecentStep(pre, b);
      p := 0;
    } else {
      var before, c := suf[..|suf| - 1], suf[|suf| - 1];
      var trace := pre + [b] + before;
      assert pre + [b] + suf == trace + [c];
      var p0 := InFrontOf(pre, b, before);
      p := MovesBy(trace, c, before, b, p0);
      assert suf == before + [c];
    }
  }

  lemma MovesBy(trace: seq<nat>, c: nat, before: seq<nat>, b: nat, p0: nat) returns (p: nat)
    requires p0 < |Recent(trace)| && Recent(trace)[p0] == b
    requires forall i :: 0 <= i < p0 ==> Recent(trace)[i] in before && Recent(trace)[i] != b
    ensures var r := Recent(trace + [c]);
            && p < |r| && r[p] == b
            && forall i :: 0 <= i < p ==> r[i] in before + [c] && r[i] != b
  {
    hide Recent;
    var r, r' := Recent(trace), Recent(trace + [c]);
    if c == b {
      RecentStep(trace, c);
      p := 0;
    } else if c in r {
      var q :| 0 <= q < |r| && r[q] == c;
      RecentHit(trace, c, q);
      p := if q < p0 then p0 else p0 + 1;
      forall i | 0 <= i < p ensures r'[i] in before + [c] && r'[i] != b {
        assert i > 0 ==> r'[i] == if i <= q then r[i - 1] else r[i];
      }
    } else {
      assert r[..|r|] == r;
      RecentMiss(trace, c, |r|);
      p := p0 + 1;
      forall i | 0 <= i < p ensures r'[i] in before + [c] && r'[i] != b {
        assert i > 0 ==> r'[i] == r[i - 1];
      }
    }
  }

  /** While fewer than `n` other blocks have been requested since, `b` is resident. */
  lemma {:induction false} StillResident(n: nat, pre: seq<nat>, b: nat, suf: seq<nat>)
    requires n > 0 && Blocks(pre + [b] + suf) && |pre| + 1 + |suf| <= WRAP
    requires |Elements(suf) - {b}| < n
    ensures Find(After(n, pre + [b] + suf).slots, b) < n
  {
    hide After, Find, Holds;
    var trace := pre + [b] + suf;
    var r := Recent(trace);
    var p := InFrontOf(pre, b, suf);
    hide Recent;
    RecentDistinct(trace);
    DistinctSize(r[..p]);
    SubsetSize(Elements(r[..p]), Elements(suf) - {b});
    AfterHolds(n, trace);
    assert trace[|pre|] == b;
    ResidentIffRecent(After(n, trace), n, trace, b);
    assert r[..Count(n, trace)][p] == b;
  }

  lemma {:induction false} SubsetSize(a: set<nat>, b: set<nat>)
    requires a <= b
    ensures |a| <= |b|
  {
    if x :| x in a {
      SubsetSize(a - {x}, b - {x});
    }
  }

  lemma {:induction false} AfterStep(n: nat, trace: seq<nat>, c: nat)
    requires n > 0
    ensures After(n, trace + [c]) == Touch(After(n, trace), c)
  {
    assert (trace + [c])[..|trace|] == trace;
  }

  lemma {:induction false} StaysAtFirst(n: nat, pre: seq<nat>, b: nat)
    requires n > 0
    ensures Find(After(n, pre + [b]).slots, b) == SlotFor(After(n, pre).slots, b)
  {
    AfterStep(n, pre, b);
    hide After, Find, SlotFor;
    TouchPlaced(After(n, pre), b);
    PlacedFind(After(n, pre), After(n, pre + [b]), b, SlotFor(After(n, pre).slots, b), b);
  }

  lemma {:induction false} StaysAnother(n: nat, trace: seq<nat>, b: nat, c: nat)
    requires n > 0 && Blocks(trace) && |trace| <= WRAP && b != 0
    requires Find(After(n, trace).slots, b) < n && Find(After(n, trace + [c]).slots, b) < n
    ensures Find(After(n, trace + [c]).slots, b) == Find(After(n, trace).slots, b)
  {
    AfterStep(n, trace, c);
    AfterHolds(n, trace);
    hide After, Find, SlotFor, Holds;
    OneMore(After(n, trace), n, trace, b, c);
  }

  /**
   The buffer that a request for `b` returns stays in its slot until as many other
   distinct blocks have been requested as the cache has slots.
   */
  lemma {:induction false} BufferStays(n: nat, pre: seq<nat>, b: nat, suf: seq<nat>)
    requires n > 0 && Blocks(pre + [b] + suf) && |pre| + 1 + |suf| <= WRAP
    requires |Elements(suf) - {b}| < n
    ensures Find(After(n, pre + [b] + suf).slots, b) == SlotFor(After(n, pre).slots, b)
  {
    hide After, Find, SlotFor, Elements;
    if |suf| == 0 {
      assert pre + [b] + suf == pre + [b];
      StaysAtFirst(n, pre, b);
    } else {
      var before, c := suf[..|suf| - 1], suf[|suf| - 1];
      var trace := pre + [b] + before;
      assert pre + [b] + suf == trace + [c];
      assert suf == before + [c];
      FewerElements(before, c, suf, b);
      assert Blocks(trace) by {
        assert forall i :: 0 <= i < |trace| ==> trace[i] == (trace + [c])[i];
      }
      assert b != 0 by { assert trace[|pre|] == b; }
      BufferStays(n, pre, b, before);
      StillResident(n, pre, b, before);
      StillResident(n, pre, b, suf);
      StaysAnother(n, trace, b, c);
    }
  }

  lemma FewerElements(before: seq<nat>, c: nat, suf: seq<nat>, b: nat)
    requires suf == before + [c]
    ensures |Elements(before) - {b}| <= |Elements(suf) - {b}|
  {
    forall x | x in Elements(before) ensures x in Elements(suf) {
      var i :| 0 <= i < |before| && before[i] == x;
      assert suf[i] == x;
    }
    SubsetSize(Elements(before) - {b}, Elements(suf) - {b});
  }

  lemma {:induction false} OneMore(t: Table, n: nat, trace: seq<nat>, b: nat, c: nat)
    requires Holds(t, n, trace) && b != 0 && Find(t.slots, b) < n && Find(Touch(t, c).slots, b) < n
    ensures Find(Touch(t, c).slots, b) == Find(t.slots, b)
  {
    hide Recent, SlotFor;
    var v := SlotFor(t.slots, c);
    TouchPlaced(t, c);
    if c == b || t.slots[v].bno != b {
      PlacedFind(t, Touch(t, c), c, v, b);
      if c == b {
        SlotForHit(t.slots, b);
      }
    }
  }

  lemma {:induction false} SlotForHit(slots: seq<Slot>, b: nat)
    requires Find(slots, b) < |slots|
    ensures SlotFor(slots, b) == Find(slots, b)
  {
  }

  // ------------------------------------------- exactly how long it is right

  /** The request number `i` of a trace on which the clock's wrap-around shows. */
  function Awkward(n: nat, i: nat): nat {
    if i < n then i + 1 else if i < WRAP then n else n + 1
  }

  function AwkwardTrace(n: nat, len: nat): seq<nat> {
    seq(len, (i: nat) => Awkward(n, i))
  }

  lemma AwkwardStep(n: nat, len: nat)
    ensures AwkwardTrace(n, len + 1) == AwkwardTrace(n, len) + [Awkward(n, len)]
  {
  }

  /** What slot `j` holds after the first `len` of these requests. */
  function AwkwardSlot(n: nat, len: nat, j: nat): Slot
    requires n > 0
  {
    if j >= len then Slot(0, 0)
    else if j < n - 1 || len < n then Slot(j + 1, j + 1)
    else if len <= WRAP then Slot(n, len % WRAP)
    else Slot(n + 1, len % WRAP)
  }

  ghost predicate Awkwardly(t: Table, n: nat, len: nat)
    requires n > 0
  {
    && t.clock == len % WRAP && |t.slots| == n
    && forall j :: 0 <= j < n ==> t.slots[j] == AwkwardSlot(n, len, j)
  }

  lemma AwkwardFree(t: Table, n: nat, len: nat)
    requires 2 <= n < WRAP && len < n && Awkwardly(t, n, len)
    ensures Awkwardly(Touch(t, Awkward(n, len)), n, len + 1)
  {
    FindIs(t.slots, len + 1, n);
    VictimFree(t.slots, 0, 0, LATEST, len);
  }

  lemma AwkwardAgain(t: Table, n: nat, len: nat)
    requires 2 <= n < WRAP && n <= len < WRAP && Awkwardly(t, n, len)
    ensures Awkwardly(Touch(t, Awkward(n, len)), n, len + 1)
  {
    FindIs(t.slots, n, n - 1);
  }

  /** The wrapped stamp makes the most recently requested block the oldest one. */
  lemma AwkwardWrap(t: Table, n: nat)
    requires 2 <= n < WRAP && Awkwardly(t, n, WRAP)
    ensures Awkwardly(Touch(t, n + 1), n, WRAP + 1)
  {
    FindIs(t.slots, n + 1, n);
    VictimOldest(t.slots, 0, 0, LATEST);
    assert t.slots[n - 1].stamp == 0;
  }

  lemma AwkwardAfter(t: Table, n: nat, len: nat)
    requires 2 <= n < WRAP < len && Awkwardly(t, n, len)
    ensures Awkwardly(Touch(t, n + 1), n, len + 1)
  {
    FindIs(t.slots, n + 1, n - 1);
  }

  lemma AwkwardTouch(t: Table, n: nat, len: nat)
    requires 2 <= n < WRAP && Awkwardly(t, n, len)
    ensures Awkwardly(Touch(t, Awkward(n, len)), n, len + 1)
  {
    hide Touch, Awkwardly;
    if len < n {
      AwkwardFree(t, n, len);
    } else if len < WRAP {
      AwkwardAgain(t, n, len);
    } else if len == WRAP {
      AwkwardWrap(t, n);
    } else {
      AwkwardAfter(t, n, len);
    }
  }

  lemma {:induction false} AwkwardNext(n: nat, len: nat)
    requires 2 <= n < WRAP && Awkwardly(After(n, AwkwardTrace(n, len)), n, len)
    ensures Awkwardly(After(n, AwkwardTrace(n, len + 1)), n, len + 1)
  {
    hide After, Touch, Awkwardly, Awkward, AwkwardTrace;
    AwkwardStep(n, len);
    AfterStep(n, AwkwardTrace(n, len), Awkward(n, len));
    AwkwardTouch(After(n, AwkwardTrace(n, len)), n, len);
  }

  lemma {:induction false} AwkwardStart(n: nat)
    requires 2 <= n < WRAP
    ensures Awkwardly(After(n, AwkwardTrace(n, 0)), n, 0)
  {
    assert AwkwardTrace(n, 0) == [];
  }

  lemma {:induction false} AwkwardRun(n: nat, len: nat)
    requires 2 <= n < WRAP
    ensures Awkwardly(After(n, AwkwardTrace(n, len)), n, len)
  {
    hide After, Touch, Awkwardly, Awkward, AwkwardTrace;
    if len == 0 {
      AwkwardStart(n);
    } else {
      AwkwardRun(n, len - 1);
      AwkwardNext(n, len - 1);
    }
  }

  ghost predicate LastTwo(trace: seq<nat>, a: nat, b: nat) {
    |Recent(trace)| >= 2 && Recent(trace)[0] == a && Recent(trace)[1] == b
  }

  lemma LastTwoNew(trace: seq<nat>, a: nat, b: nat)
    requires a !in trace + [b]
    ensures LastTwo(trace + [b] + [a], a, b)
  {
    hide Recent;
    RecentStep(trace, b);
    RecentStep(trace + [b], a);
    RecentDistinct(trace + [b]);
    WithoutDistinct(Recent(trace + [b]), a);
  }

  lemma LastTwoAgain(trace: seq<nat>, a: nat, b: nat)
    requires LastTwo(trace, a, b)
    ensures LastTwo(trace + [a], a, b)
  {
    RecentStep(trace, a);
    hide Recent, Without;
    RecentDistinct(trace);
    WithoutAt(Recent(trace), a, 0, 0);
  }

  lemma AwkwardTwo(n: nat)
    requires 2 <= n < WRAP
    ensures LastTwo(AwkwardTrace(n, WRAP + 1), n + 1, n)
  {
    var trace := AwkwardTrace(n, WRAP - 1);
    AwkwardStep(n, WRAP - 1);
    AwkwardStep(n, WRAP);
    assert forall i :: 0 <= i < |trace| ==> trace[i] <= n;
    hide AwkwardTrace, LastTwo;
    LastTwoNew(trace, n + 1, n);
  }

  lemma {:induction false} AwkwardRecent(n: nat, len: nat)
    requires 2 <= n < WRAP < len
    ensures LastTwo(AwkwardTrace(n, len), n + 1, n)
  {
    hide AwkwardTrace, LastTwo;
    if len == WRAP + 1 {
      AwkwardTwo(n);
    } else {
      AwkwardRecent(n, len - 1);
      AwkwardStep(n, len - 1);
      LastTwoAgain(AwkwardTrace(n, len - 1), n + 1, n);
    }
  }

  /**
   The cache holds the most recently requested blocks on every trace of a given length
   exactly when the length does not exceed the range of the clock.
   */
  lemma RightUntilTheClockWraps(n: nat, len: nat)
    requires 2 <= n < WRAP
    ensures (forall trace {:trigger Blocks(trace)} :: Blocks(trace) && |trace| == len ==>
               Residents(After(n, trace)) == MostRecent(n, trace))
            <==> len <= WRAP
  {
    if len <= WRAP {
      forall trace | Blocks(trace) && |trace| == len
        ensures Residents(After(n, trace)) == MostRecent(n, trace)
      {
        KeepsMostRecent(n, trace);
      }
    } else {
      var trace := AwkwardTrace(n, len);
      assert Blocks(trace);
      AwkwardRun(n, len);
      AwkwardRecent(n, len);
      hide After, Recent;
      assert n !in Residents(After(n, trace));
      assert n in MostRecent(n, trace) by {
        var r := Recent(trace);
        assert r[1] == n;
        assert r[..Min(n, |r|)][1] == n;
      }
    }
  }
}

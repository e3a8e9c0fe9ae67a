/** The cache keeps the most recently requested blocks, and for how long that is true. */
module CacheReplacement {
  import opened Common
  import opened CacheSlots

  // -------------------------------------------------------------- the victim

  lemma {:induction false} VictimOldest(slots: seq<Slot>, i: nat, lru: nat, oldest: nat)
    requires i <= |slots| && lru < |slots|
    requires forall j :: 0 <= j < |slots| ==> slots[j].bno != 0 && slots[j].stamp <= LATEST
    requires forall j :: 0 <= j < i ==> oldest <= slots[j].stamp
    requires slots[lru].stamp == oldest || oldest == LATEST
    ensures forall j :: 0 <= j < |slots| ==> slots[VictimFrom(slots, i, lru, oldest)].stamp <= slots[j].stamp
    decreases |slots| - i
  {
    if i < |slots| {
      if slots[i].stamp < oldest {
        VictimOldest(slots, i + 1, i, slots[i].stamp);
      } else {
        VictimOldest(slots, i + 1, lru, oldest);
      }
    }
  }

  lemma {:induction false} VictimFree(slots: seq<Slot>, i: nat, lru: nat, oldest: nat, k: nat)
    requires i <= k < |slots| && lru < |slots|
    requires forall j :: 0 <= j < |slots| ==> (slots[j].bno != 0 <==> j < k)
    ensures VictimFrom(slots, i, lru, oldest) == k
    decreases |slots| - i
  {
    if i < k {
      if slots[i].stamp < oldest {
        VictimFree(slots, i + 1, i, slots[i].stamp, k);
      } else {
        VictimFree(slots, i + 1, lru, oldest, k);
      }
    }
  }

  /** Slot `v` is the first empty one or, if there is none, the first with the smallest stamp. */
  ghost predicate IsVictim(slots: seq<Slot>, v: nat) {
    && v < |slots|
    && (slots[v].bno == 0 || forall j :: 0 <= j < |slots| ==> slots[j].bno != 0 && slots[v].stamp <= slots[j].stamp)
    && forall j :: 0 <= j < v ==> slots[j].bno != 0 && (slots[v].bno != 0 ==> slots[v].stamp < slots[j].stamp)
  }

  lemma {:induction false} VictimFromIs(slots: seq<Slot>, i: nat, lru: nat, oldest: nat)
    requires i <= |slots| && lru < |slots| && forall j :: 0 <= j < |slots| ==> slots[j].stamp <= LATEST
    requires forall j :: 0 <= j < i ==> slots[j].bno != 0 && oldest <= slots[j].stamp
    requires if oldest == LATEST then lru == 0
             else lru < i && slots[lru].stamp == oldest && forall j :: 0 <= j < lru ==> oldest < slots[j].stamp
    ensures IsVictim(slots, VictimFrom(slots, i, lru, oldest))
    decreases |slots| - i
  {
    if i < |slots| && slots[i].bno != 0 {
      if slots[i].stamp < oldest {
        VictimFromIs(slots, i + 1, i, slots[i].stamp);
      } else {
        VictimFromIs(slots, i + 1, lru, oldest);
      }
    }
  }

  /** Which slot a block that is not resident takes, in any table. */
  lemma {:induction false} VictimIs(slots: seq<Slot>)
    requires |slots| > 0 && forall j :: 0 <= j < |slots| ==> slots[j].stamp <= LATEST
    ensures IsVictim(slots, Victim(slots))
  {
    VictimFromIs(slots, 0, 0, LATEST);
  }

  // --------------------------------------------------- how recency moves on

  lemma {:induction false} RecentStep(trace: seq<nat>, b: nat)
    ensures Recent(trace + [b]) == [b] + Without(Recent(trace), b)
  {
    assert (trace + [b])[..|trace|] == trace;
  }

  /** The sequence `s` with position `p` left out, at position `j`. */
  function Skip(s: seq<nat>, p: nat, j: nat): nat
    requires p < |s| && j < |s| - 1
  {
    if j < p then s[j] else s[j + 1]
  }

  lemma {:induction false} WithoutAll(s: seq<nat>, b: nat, p: nat)
    requires Distinct(s) && p < |s| && s[p] == b
    ensures |Without(s, b)| == |s| - 1
    ensures forall j {:trigger Without(s, b)[j]} :: 0 <= j < |s| - 1 ==> Without(s, b)[j] == Skip(s, p, j)
  {
    WithoutDistinct(s, b);
    forall j | 0 <= j < |s| - 1 ensures Without(s, b)[j] == Skip(s, p, j) {
      WithoutAt(s, b, p, j);
    }
  }

  lemma InFront(b: nat, w: seq<nat>, j: nat)
    requires 0 < j <= |w|
    ensures ([b] + w)[j] == w[j - 1]
  {
  }

  /** A block that is not among the first `k` moves in front of them. */
  lemma {:induction false} RecentMiss(trace: seq<nat>, b: nat, k: nat)
    requires k <= |Recent(trace)| && b !in Recent(trace)[..k]
    ensures var r, r' := Recent(trace), Recent(trace + [b]);
            && |r'| >= k + 1 && |r'| >= |r|
            && (b !in r ==> |r'| == |r| + 1)
            && r'[0] == b && forall j :: 1 <= j <= k ==> r'[j] == r[j - 1]
  {
    hide Recent, Without;
    var r, r' := Recent(trace), Recent(trace + [b]);
    RecentStep(trace, b);
    RecentDistinct(trace);
    WithoutDistinct(r, b);
    assert forall j :: 0 <= j < k ==> r[..k][j] == r[j];
    if b in r {
      var p :| 0 <= p < |r| && r[p] == b;
      WithoutAll(r, b, p);
    }
    forall j | 1 <= j <= k ensures r'[j] == r[j - 1] {
      InFront(b, Without(r, b), j);
      assert Without(r, b)[j - 1] == r'[j];
    }
  }

  /** The block at position `p` moves to the front. */
  lemma {:induction false} RecentHit(trace: seq<nat>, b: nat, p: nat)
    requires p < |Recent(trace)| && Recent(trace)[p] == b
    ensures var r, r' := Recent(trace), Recent(trace + [b]);
            && |r'| == |r| && r'[0] == b
            && (forall j :: 1 <= j <= p ==> r'[j] == r[j - 1])
            && (forall j :: p < j < |r| ==> r'[j] == r[j])
  {
    hide Recent, Without;
    var r, r' := Recent(trace), Recent(trace + [b]);
    RecentStep(trace, b);
    RecentDistinct(trace);
    WithoutAll(r, b, p);
    forall j | 1 <= j < |r| ensures r'[j] == if j <= p then r[j - 1] else r[j] {
      InFront(b, Without(r, b), j);
      assert Without(r, b)[j - 1] == r'[j];
    }
  }

  // --------------------------------------------------------------- invariant

  function Count(n: nat, trace: seq<nat>): nat {
    Min(n, |Recent(trace)|)
  }

  /** The occupied slots are a prefix and hold the most recent blocks, each once. */
  ghost predicate Holds(t: Table, n: nat, trace: seq<nat>) {
    var r, k := Recent(trace), Count(n, trace);
    && |t.slots| == n > 0
    && (forall i :: 0 <= i < n ==> (t.slots[i].bno != 0 <==> i < k))
    && (forall i, j :: 0 <= i < j < k ==> t.slots[i].bno != t.slots[j].bno)
    && (forall i :: 0 <= i < k ==> t.slots[i].bno in r[..k])
    && (forall j :: 0 <= j < k ==> Find(t.slots, r[j]) < k)
  }

  function StampOf(t: Table, b: nat): nat
    requires Find(t.slots, b) < |t.slots|
  {
    t.slots[Find(t.slots, b)].stamp
  }

  /** More recently requested blocks carry later stamps. */
  ghost predicate Ordered(t: Table, n: nat, trace: seq<nat>)
    requires Holds(t, n, trace)
  {
    var r, k := Recent(trace), Count(n, trace);
    && t.clock == |trace| < WRAP
    && (forall i :: 0 <= i < k ==> t.slots[i].stamp <= t.clock)
    && (forall i, j :: 0 <= i < j < k ==> StampOf(t, r[i]) > StampOf(t, r[j]))
  }

  lemma {:induction false} FindIs(slots: seq<Slot>, b: nat, i: nat)
    requires i <= |slots| && (i < |slots| ==> slots[i].bno == b)
    requires forall j :: 0 <= j < i ==> slots[j].bno != b
    ensures Find(slots, b) == i
  {
  }

  /** Replacing slot `v`, every other resident block is found where it was. */
  lemma FindOther(slots: seq<Slot>, v: nat, s: Slot, x: nat)
    requires v < |slots| && x != s.bno && x != slots[v].bno
    ensures Find(slots[v := s], x) == Find(slots, x)
  {
    FindIs(slots[v := s], x, Find(slots, x));
  }

  lemma FindNew(slots: seq<Slot>, v: nat, s: Slot)
    requires v < |slots| && (Find(slots, s.bno) == |slots| || Find(slots, s.bno) == v)
    ensures Find(slots[v := s], s.bno) == v
  {
    FindIs(slots[v := s], s.bno, v);
  }

  // ------------------------------------------------------------- the three cases

  /** The table after slot `v` got block `b` at time `now`. */
  ghost predicate Placed(t: Table, t': Table, b: nat, v: nat) {
    && v < |t.slots| == |t'.slots|
    && t'.clock == (t.clock + 1) % WRAP
    && t'.slots == t.slots[v := Slot(b, t'.clock)]
    && (Find(t.slots, b) == |t.slots| || Find(t.slots, b) == v)
  }

  lemma {:induction false} PlacedFind(t: Table, t': Table, b: nat, v: nat, x: nat)
    requires Placed(t, t', b, v) && (x == b || x != t.slots[v].bno)
    ensures Find(t'.slots, x) == if x == b then v else Find(t.slots, x)
  {
    if x == b {
      FindNew(t.slots, v, Slot(b, t'.clock));
    } else {
      FindOther(t.slots, v, Slot(b, t'.clock), x);
    }
  }

  /** The request finds its block. */
  lemma {:induction false} HitHolds(t: Table, n: nat, trace: seq<nat>, b: nat, p: nat, t': Table)
    requires Holds(t, n, trace) && p < Count(n, trace) && Recent(trace)[p] == b
    requires Placed(t, t', b, Find(t.slots, b))
    ensures Holds(t', n, trace + [b])
  {
    hide Recent, Find;
    RecentHit(trace, b, p);
    var r, r', k := Recent(trace), Recent(trace + [b]), Count(n, trace);
    assert forall i :: 0 <= i < n ==> t'.slots[i].bno == t.slots[i].bno;
    forall i | 0 <= i < k ensures t'.slots[i].bno in r'[..k] {
      SameElements(r[..k], r'[..k], b, p, t.slots[i].bno);
    }
    forall j | 0 <= j < k ensures Find(t'.slots, r'[j]) < k {
      HitFound(t, n, trace, b, p, t', j);
    }
  }

  lemma {:induction false} HitFound(t: Table, n: nat, trace: seq<nat>, b: nat, p: nat, t': Table, j: nat)
    requires Holds(t, n, trace) && p < Count(n, trace) && Recent(trace)[p] == b
    requires Placed(t, t', b, Find(t.slots, b))
    requires j < Count(n, trace) && |Recent(trace + [b])| == |Recent(trace)|
    ensures Find(t'.slots, Recent(trace + [b])[j]) < Count(n, trace)
  {
    hide Recent, Find;
    RecentHit(trace, b, p);
    var i := if j == 0 then p else if j <= p then j - 1 else j;
    assert Recent(trace + [b])[j] == Recent(trace)[i];
    PlacedFind(t, t', b, Find(t.slots, b), Recent(trace)[i]);
  }

  /** A block that was at position `q` and is now at position `j` has kept its stamp. */
  lemma {:induction false} KeptStamp(t: Table, n: nat, trace: seq<nat>, b: nat, t': Table, v: nat, j: nat, q: nat)
    requires Holds(t, n, trace) && Holds(t', n, trace + [b]) && Placed(t, t', b, v)
    requires 0 < j < Count(n, trace + [b]) && q < Count(n, trace)
    requires Recent(trace + [b])[j] == Recent(trace)[q] && Recent(trace + [b])[0] == b
    requires Recent(trace)[q] != t.slots[v].bno || t.slots[v].bno == b
    requires Ordered(t, n, trace)
    ensures Recent(trace + [b])[j] != b
    ensures StampOf(t', Recent(trace + [b])[j]) == StampOf(t, Recent(trace)[q]) <= t.clock
  {
    hide Recent, Find;
    RecentDistinct(trace + [b]);
    PlacedFind(t, t', b, v, Recent(trace)[q]);
  }

  /** The old position of the block that is now at position `j`. */
  ghost predicate CameFrom(t: Table, n: nat, trace: seq<nat>, b: nat, v: nat, j: nat, q: nat) {
    && v < |t.slots| && 0 < j < |Recent(trace + [b])| && q < Count(n, trace)
    && Recent(trace + [b])[j] == Recent(trace)[q] && Recent(trace + [b])[0] == b
    && (Recent(trace)[q] != t.slots[v].bno || t.slots[v].bno == b)
  }

  lemma {:induction false} OrderedPair(t: Table, n: nat, trace: seq<nat>, b: nat, t': Table, v: nat,
                                       i: nat, j: nat, qi: nat, qj: nat)
    requires Holds(t, n, trace) && Holds(t', n, trace + [b]) && Placed(t, t', b, v)
    requires Ordered(t, n, trace) && |trace| + 1 < WRAP
    requires i < j < Count(n, trace + [b]) && CameFrom(t, n, trace, b, v, j, qj)
    requires i > 0 ==> CameFrom(t, n, trace, b, v, i, qi) && qi < qj
    ensures StampOf(t', Recent(trace + [b])[i]) > StampOf(t', Recent(trace + [b])[j])
  {
    hide Recent, Find, Holds;
    KeptStamp(t, n, trace, b, t', v, j, qj);
    if i == 0 {
      PlacedFind(t, t', b, v, b);
    } else {
      KeptStamp(t, n, trace, b, t', v, i, qi);
    }
  }

  lemma OrderedStep(t: Table, n: nat, trace: seq<nat>, b: nat, t': Table, v: nat, q: seq<nat>)
    requires Holds(t, n, trace) && Holds(t', n, trace + [b]) && Placed(t, t', b, v)
    requires Ordered(t, n, trace) && |trace| + 1 < WRAP
    requires |q| == Count(n, trace + [b])
    requires forall j :: 0 < j < |q| ==> CameFrom(t, n, trace, b, v, j, q[j])
    requires forall i, j :: 0 < i < j < |q| ==> q[i] < q[j]
    ensures Ordered(t', n, trace + [b])
  {
    hide Recent, Find;
    forall i, j | 0 <= i < j < |q|
      ensures StampOf(t', Recent(trace + [b])[i]) > StampOf(t', Recent(trace + [b])[j])
    {
      assert i > 0 ==> CameFrom(t, n, trace, b, v, i, q[i]);
      OrderedPair(t, n, trace, b, t', v, i, j, q[i], q[j]);
    }
    forall i | 0 <= i < |q| ensures t'.slots[i].stamp <= t'.clock {
      OldStamp(t, n, trace, v, i);
    }
  }

  lemma OldStamp(t: Table, n: nat, trace: seq<nat>, v: nat, i: nat)
    requires Holds(t, n, trace) && Ordered(t, n, trace) && i < n
    ensures t.slots[i].bno != 0 ==> t.slots[i].stamp <= t.clock
  {
  }

  lemma {:induction false} HitOrdered(t: Table, n: nat, trace: seq<nat>, b: nat, p: nat, t': Table)
    requires Holds(t, n, trace) && p < Count(n, trace) && Recent(trace)[p] == b
    requires Placed(t, t', b, Find(t.slots, b)) && Holds(t', n, trace + [b])
    requires Ordered(t, n, trace) && |trace| + 1 < WRAP
    ensures Ordered(t', n, trace + [b])
  {
    hide Recent, Find, Holds, Ordered, Placed;
    RecentHit(trace, b, p);
    PlacedIn(t, t', b, Find(t.slots, b));
    var q := seq(Count(n, trace), j => if 0 < j <= p then j - 1 else if j > 0 then j else 0);
    forall j | 0 < j < |q| ensures CameFrom(t, n, trace, b, Find(t.slots, b), j, q[j]) {
    }
    OrderedStep(t, n, trace, b, t', Find(t.slots, b), q);
  }

  lemma {:induction false} MissOrdered(t: Table, n: nat, trace: seq<nat>, b: nat, v: nat, t': Table)
    requires Holds(t, n, trace) && b !in Recent(trace)[..Count(n, trace)]
    requires |Recent(trace)| < n ==> b !in Recent(trace)
    requires Placed(t, t', b, v) && Holds(t', n, trace + [b])
    requires t.slots[v].bno == if |Recent(trace)| < n then 0 else Recent(trace)[n - 1]
    requires Ordered(t, n, trace) && |trace| + 1 < WRAP
    ensures Ordered(t', n, trace + [b])
  {
    hide Recent, Find, Ordered, Placed;
    var r := Recent(trace);
    RecentMiss(trace, b, Count(n, trace));
    RecentDistinct(trace);
    var q := seq(Count(n, trace + [b]), j => if j > 0 then j - 1 else 0);
    assert v < |t.slots| by { PlacedIn(t, t', b, v); }
    forall j | 0 < j < |q| ensures CameFrom(t, n, trace, b, v, j, q[j]) {
      assert t.slots[Find(t.slots, r[j - 1])].bno == r[j - 1];
    }
    OrderedStep(t, n, trace, b, t', v, q);
  }

  lemma PlacedIn(t: Table, t': Table, b: nat, v: nat)
    requires Placed(t, t', b, v)
    ensures v < |t.slots|
  {
  }

  /** The request does not find its block, and there is an empty slot. */
  lemma {:induction false} FreeHolds(t: Table, n: nat, trace: seq<nat>, b: nat, t': Table)
    requires Holds(t, n, trace) && b != 0 && |Recent(trace)| < n && b !in Recent(trace)
    requires Placed(t, t', b, |Recent(trace)|)
    ensures Holds(t', n, trace + [b])
  {
    hide Recent, Find;
    var r, r', k := Recent(trace), Recent(trace + [b]), |Recent(trace)|;
    RecentMiss(trace, b, k);
    assert r[..k] == r;
    forall i | 0 <= i <= k ensures t'.slots[i].bno in r'[..k + 1] {
      if i < k {
        var q :| 0 <= q < k && r[q] == t.slots[i].bno;
        assert r'[..k + 1][q + 1] == r[q];
      } else {
        assert r'[..k + 1][0] == b;
      }
    }
    forall j | 0 <= j <= k ensures Find(t'.slots, r'[j]) < k + 1 {
      if j > 0 {
        assert t.slots[Find(t.slots, r[j - 1])].bno == r[j - 1];
      }
      PlacedFind(t, t', b, k, r'[j]);
    }
  }

  /** The victim of a full table is the least recently requested resident block. */
  lemma {:induction false} FullVictim(t: Table, n: nat, trace: seq<nat>)
    requires Holds(t, n, trace) && Ordered(t, n, trace) && |Recent(trace)| >= n
    ensures t.slots[Victim(t.slots)].bno == Recent(trace)[n - 1]
  {
    hide Recent, Find;
    var r := Recent(trace);
    VictimOldest(t.slots, 0, 0, LATEST);
    var v := Victim(t.slots);
    var q :| 0 <= q < n && r[..n][q] == t.slots[v].bno;
    SlotOfResident(t, n, trace, v);
    var last := StampOf(t, r[n - 1]);
    assert forall i :: 0 <= i < n - 1 ==> StampOf(t, r[i]) > last;
  }

  lemma SlotOfResident(t: Table, n: nat, trace: seq<nat>, v: nat)
    requires Holds(t, n, trace) && v < Count(n, trace)
    ensures Find(t.slots, t.slots[v].bno) == v
  {
    FindIs(t.slots, t.slots[v].bno, v);
  }

  /** The request does not find its block, and the least recent one has to go. */
  lemma {:induction false} FullHolds(t: Table, n: nat, trace: seq<nat>, b: nat, v: nat, t': Table)
    requires Holds(t, n, trace) && b != 0 && |Recent(trace)| >= n && b !in Recent(trace)[..n]
    requires Placed(t, t', b, v) && t.slots[v].bno == Recent(trace)[n - 1]
    requires Find(t.slots, b) == n
    ensures Holds(t', n, trace + [b])
  {
    hide Recent, Find;
    var r, r' := Recent(trace), Recent(trace + [b]);
    RecentMiss(trace, b, n);
    RecentDistinct(trace);
    forall i | 0 <= i < n ensures t'.slots[i].bno in r'[..n] {
      if i == v {
        assert r'[..n][0] == b;
      } else {
        var q :| 0 <= q < n && r[..n][q] == t.slots[i].bno;
        assert q < n - 1;
        assert r'[..n][q + 1] == r[q];
      }
    }
    forall j | 0 <= j < n ensures Find(t'.slots, r'[j]) < n {
      PlacedFind(t, t', b, v, r'[j]);
    }
    forall i, j | 0 <= i < j < n ensures t'.slots[i].bno != t'.slots[j].bno {
      assert i == v || j == v || t'.slots[i].bno == t.slots[i].bno;
      FindAbsent(t.slots, b, i);
      FindAbsent(t.slots, b, j);
    }
  }

  lemma {:induction false} FindAbsent(slots: seq<Slot>, b: nat, i: nat)
    requires i < |slots| && Find(slots, b) == |slots|
    ensures slots[i].bno != b
  {
  }

  lemma SameElements(r: seq<nat>, r': seq<nat>, b: nat, p: nat, x: nat)
    requires |r| == |r'| && p < |r| && r[p] == b && r'[0] == b
    requires forall j :: 1 <= j <= p ==> r'[j] == r[j - 1]
    requires forall j :: p < j < |r| ==> r'[j] == r[j]
    requires x in r
    ensures x in r'
  {
    var j :| 0 <= j < |r| && r[j] == x;
    assert j < p ==> r'[j + 1] == x;
    assert j > p ==> r'[j] == x;
  }

  // ------------------------------------------------------------ whole traces

  lemma TouchPlaced(t: Table, b: nat)
    requires |t.slots| > 0
    ensures Placed(t, Touch(t, b), b, SlotFor(t.slots, b))
  {
  }

  lemma {:induction false} ResidentIffRecent(t: Table, n: nat, trace: seq<nat>, b: nat)
    requires Holds(t, n, trace) && b != 0
    ensures Find(t.slots, b) < n <==> b in Recent(trace)[..Count(n, trace)]
  {
    hide Recent;
    var r, k := Recent(trace), Count(n, trace);
    if b in r[..k] {
      var j :| 0 <= j < k && r[..k][j] == b;
    }
  }

  lemma TouchHolds(t: Table, n: nat, trace: seq<nat>, b: nat)
    requires Holds(t, n, trace) && Ordered(t, n, trace) && b != 0
    ensures Holds(Touch(t, b), n, trace + [b])
    ensures |trace| + 1 < WRAP ==> Ordered(Touch(t, b), n, trace + [b])
  {
    hide Recent, Find, Victim, Touch;
    var r, k, t' := Recent(trace), Count(n, trace), Touch(t, b);
    TouchPlaced(t, b);
    ResidentIffRecent(t, n, trace, b);
    if Find(t.slots, b) < n {
      var p :| 0 <= p < k && r[..k][p] == b;
      HitHolds(t, n, trace, b, p, t');
      if |trace| + 1 < WRAP {
        HitOrdered(t, n, trace, b, p, t');
      }
    } else {
      MissHolds(t, n, trace, b, t');
      if |trace| + 1 < WRAP {
        MissOrdered(t, n, trace, b, Victim(t.slots), t');
      }
    }
  }

  lemma {:induction false} MissHolds(t: Table, n: nat, trace: seq<nat>, b: nat, t': Table)
    requires Holds(t, n, trace) && Ordered(t, n, trace) && b != 0 && Find(t.slots, b) == n
    requires b !in Recent(trace)[..Count(n, trace)] && Placed(t, t', b, Victim(t.slots))
    ensures Holds(t', n, trace + [b])
    ensures t.slots[Victim(t.slots)].bno == if |Recent(trace)| < n then 0 else Recent(trace)[n - 1]
    ensures |Recent(trace)| < n ==> b !in Recent(trace)
  {
    hide Recent, Find, Ordered;
    var r := Recent(trace);
    if |r| < n {
      assert r[..|r|] == r;
      VictimFree(t.slots, 0, 0, LATEST, |r|);
      FreeHolds(t, n, trace, b, t');
    } else {
      FullVictim(t, n, trace);
      FullHolds(t, n, trace, b, Victim(t.slots), t');
    }
  }

  ghost predicate Blocks(trace: seq<nat>) {
    forall i :: 0 <= i < |trace| ==> trace[i] != 0
  }

  lemma {:induction false} AfterHolds(n: nat, trace: seq<nat>)
    requires n > 0 && Blocks(trace) && |trace| <= WRAP
    ensures Holds(After(n, trace), n, trace)
    ensures |trace| < WRAP ==> Ordered(After(n, trace), n, trace)
  {
    if |trace| > 0 {
      var before, b := trace[..|trace| - 1], trace[|trace| - 1];
      AfterHolds(n, before);
      TouchHolds(After(n, before), n, before, b);
      assert before + [b] == trace;
    }
  }

  /**
   After any trace of at most 2^32 requests the cache holds exactly the most recently
   requested distinct blocks, as many as it has slots.
   */
  lemma {:induction false} KeepsMostRecent(n: nat, trace: seq<nat>)
    requires n > 0 && Blocks(trace) && |trace| <= WRAP
    ensures Residents(After(n, trace)) == MostRecent(n, trace)
  {
    AfterHolds(n, trace);
    var t, r, k := After(n, trace), Recent(trace), Count(n, trace);
    hide Recent, Find, After;
    forall x ensures x in Residents(t) <==> x in Elements(r[..k]) {
      if x in Residents(t) {
        var i :| 0 <= i < n && t.slots[i].bno == x && x != 0;
        assert x in r[..k];
      }
      if x in Elements(r[..k]) {
        var j :| 0 <= j < k && r[..k][j] == x;
        assert t.slots[Find(t.slots, r[j])].bno == x;
      }
    }
  }

  /** A larger cache always holds at least what a smaller one holds. */
  lemma {:induction false} LargerHoldsMore(m: nat, n: nat, trace: seq<nat>)
    requires 0 < m <= n && Blocks(trace) && |trace| <= WRAP
    ensures Residents(After(m, trace)) <= Residents(After(n, trace))
  {
    KeepsMostRecent(m, trace);
    KeepsMostRecent(n, trace);
    var r := Recent(trace);
    forall x | x in Elements(r[..Min(m, |r|)]) ensures x in Elements(r[..Min(n, |r|)]) {
      var j :| 0 <= j < Min(m, |r|) && r[..Min(m, |r|)][j] == x;
      assert r[..Min(n, |r|)][j] == x;
    }
  }
}

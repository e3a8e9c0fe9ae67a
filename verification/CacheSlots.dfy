/**
 The slot table of the m3fs block cache: which slot a request uses, and what that makes of
 the table over a whole trace of requests. Block number 0 marks an empty slot; the clock
 is a 32-bit counter.
 */
module CacheSlots {
  import opened Common

  const WRAP: nat := 0x1_0000_0000
  const LATEST: nat := 0xFFFF_FFFF

  datatype Slot = Slot(bno: nat, stamp: nat)
  datatype Table = Table(clock: nat, slots: seq<Slot>)

  /** The first slot that holds `b`, or the number of slots. */
  function Find(slots: seq<Slot>, b: nat): (i: nat)
    ensures i <= |slots|
    ensures i < |slots| ==> slots[i].bno == b
    ensures forall j :: 0 <= j < i ==> slots[j].bno != b
  {
    if |slots| == 0 || slots[0].bno == b then 0 else Find(slots[1..], b) + 1
  }

  /** The search for a slot to replace, from slot `i` on. */
  function VictimFrom(slots: seq<Slot>, i: nat, lru: nat, oldest: nat): (v: nat)
    requires i <= |slots| && lru < |slots|
    ensures v < |slots|
    decreases |slots| - i
  {
    if i == |slots| then lru
    else if slots[i].bno == 0 then i
    else if slots[i].stamp < oldest then VictimFrom(slots, i + 1, i, slots[i].stamp)
    else VictimFrom(slots, i + 1, lru, oldest)
  }

  function Victim(slots: seq<Slot>): nat
    requires |slots| > 0
  {
    VictimFrom(slots, 0, 0, LATEST)
  }

  /** The slot that a request for `b` uses. */
  function SlotFor(slots: seq<Slot>, b: nat): (i: nat)
    requires |slots| > 0
    ensures i < |slots|
  {
    if Find(slots, b) < |slots| then Find(slots, b) else Victim(slots)
  }

  function Touch(t: Table, b: nat): Table
    requires |t.slots| > 0
  {
    var now := (t.clock + 1) % WRAP;
    Table(now, t.slots[SlotFor(t.slots, b) := Slot(b, now)])
  }

  function Empty(n: nat): Table {
    Table(0, seq(n, _ => Slot(0, 0)))
  }

  /** The table of a cache with `n` slots after the requests in `trace`. */
  function After(n: nat, trace: seq<nat>): (t: Table)
    requires n > 0
    ensures |t.slots| == n
  {
    if |trace| == 0 then Empty(n) else Touch(After(n, trace[..|trace| - 1]), trace[|trace| - 1])
  }

  function Residents(t: Table): set<nat> {
    set i | 0 <= i < |t.slots| && t.slots[i].bno != 0 :: t.slots[i].bno
  }

  // ----------------------------------------------------- recency, independently

  function Without(s: seq<nat>, b: nat): (r: seq<nat>)
    ensures forall x :: x in r <==> x in s && x != b
    ensures |r| <= |s|
  {
    if |s| == 0 then [] else if s[0] == b then Without(s[1..], b) else [s[0]] + Without(s[1..], b)
  }

  /** The requested blocks, each once, the most recently requested first. */
  function Recent(trace: seq<nat>): (r: seq<nat>)
    ensures forall x :: x in r <==> x in trace
  {
    if |trace| == 0 then [] else
      var b := trace[|trace| - 1];
      assert trace == trace[..|trace| - 1] + [b];
      [b] + Without(Recent(trace[..|trace| - 1]), b)
  }

  function Elements(s: seq<nat>): set<nat> {
    set i | 0 <= i < |s| :: s[i]
  }

  /** The `n` most recently requested distinct blocks, or all of them if there are fewer. */
  function MostRecent(n: nat, trace: seq<nat>): set<nat> {
    Elements(Recent(trace)[..Min(n, |Recent(trace)|)])
  }

  ghost predicate Distinct(s: seq<nat>) {
    forall i, j :: 0 <= i < j < |s| ==> s[i] != s[j]
  }

  lemma {:induction false} WithoutDistinct(s: seq<nat>, b: nat)
    requires Distinct(s)
    ensures Distinct(Without(s, b))
    ensures b !in s ==> Without(s, b) == s
    ensures b in s ==> |Without(s, b)| == |s| - 1
  {
    if |s| > 0 {
      assert s[0] !in s[1..];
      WithoutDistinct(s[1..], b);
    }
  }

  lemma {:induction false} RecentDistinct(trace: seq<nat>)
    ensures Distinct(Recent(trace))
  {
    if |trace| > 0 {
      RecentDistinct(trace[..|trace| - 1]);
      WithoutDistinct(Recent(trace[..|trace| - 1]), trace[|trace| - 1]);
    }
  }

  /** Where the elements of `s` are found when `b`, at position `p`, is taken out. */
  lemma {:induction false} WithoutAt(s: seq<nat>, b: nat, p: nat, i: nat)
    requires Distinct(s) && p < |s| && s[p] == b && i < |s| - 1
    ensures |Without(s, b)| == |s| - 1
    ensures Without(s, b)[i] == if i < p then s[i] else s[i + 1]
  {
    WithoutDistinct(s, b);
    if p == 0 {
      assert b !in s[1..];
      WithoutDistinct(s[1..], b);
    } else if i > 0 {
      WithoutAt(s[1..], b, p - 1, i - 1);
    }
  }
}

/**
 The tables that spread peers over receive endpoints: KernelcallHandler with
 MAX_MSG_INFLIGHT messages per peer, and SyscallHandler with one.
 */
module Endpoints {

  /** Message slots per endpoint, endpoints, messages per peer, and the first endpoint. */
  datatype Layout = Layout(slots: nat, gates: nat, inflight: nat, first: nat)

  predicate Proper(l: Layout) {
    l.slots > 0 && l.inflight > 0
  }

  /** The number of peers the table has room for. */
  function Room(l: Layout): nat
    requires Proper(l)
  {
    (l.slots * l.gates) / l.inflight
  }

  /** The endpoint of entry `i`, counted from the first. */
  function Gate(l: Layout, i: nat): nat
    requires Proper(l)
  {
    i * l.inflight / l.slots
  }

  function Endpoint(l: Layout, i: nat): nat
    requires Proper(l)
  {
    Gate(l, i) + l.first
  }

  // ------------------------------------------------------------------- range

  lemma DivBelow(a: nat, b: nat, c: nat)
    requires c > 0 && a < b * c
    ensures a / c < b
  {
    if a / c >= b {
      MulMono(b, a / c, c);
    }
  }

  lemma MulMono(a: nat, b: nat, c: nat)
    requires a <= b
    ensures a * c <= b * c
  {
  }

  lemma DivExact(a: nat, c: nat)
    requires c > 0
    ensures (a / c) * c + a % c == a && a % c < c
  {
  }

  /** Every entry's endpoint is one of the gates. */
  lemma EndpointInRange(l: Layout, i: nat)
    requires Proper(l) && i < Room(l)
    ensures Gate(l, i) < l.gates
    ensures l.first <= Endpoint(l, i) < l.first + l.gates
  {
    var total := l.slots * l.gates;
    DivExact(total, l.inflight);
    MulMono(i + 1, Room(l), l.inflight);
    assert (i + 1) * l.inflight == i * l.inflight + l.inflight;
    assert total == l.gates * l.slots;
    DivBelow(i * l.inflight, l.gates, l.slots);
  }

  /** The table has room for as many peers as the slots of all endpoints can take, and no more. */
  lemma RoomExact(l: Layout)
    requires Proper(l)
    ensures Room(l) * l.inflight <= l.slots * l.gates < (Room(l) + 1) * l.inflight
  {
    DivExact(l.slots * l.gates, l.inflight);
    assert (Room(l) + 1) * l.inflight == Room(l) * l.inflight + l.inflight;
  }

  // ---------------------------------------------------------------- capacity

  /** How many of the first `n` entries have endpoint number `g`, counted from the first. */
  function Load(l: Layout, n: nat, g: nat): nat
    requires Proper(l)
  {
    if n == 0 then 0 else Load(l, n - 1, g) + if Endpoint(l, n - 1) == l.first + g then 1 else 0
  }

  lemma {:induction false} LoadTotal(l: Layout, n: nat, g: nat)
    requires Proper(l)
    ensures Load(l, n, g) <= n
  {
    if n > 0 {
      LoadTotal(l, n - 1, g);
    }
  }

  /** When `q` peers fill an endpoint exactly, entry `i` is at gate i / q. */
  lemma GateExact(l: Layout, q: nat, i: nat)
    requires Proper(l) && l.slots == q * l.inflight && q > 0
    ensures Gate(l, i) == i / q
  {
    DivExact(i, q);
    var e, r := i / q, i % q;
    assert i * l.inflight == e * l.slots + r * l.inflight by {
      assert i == e * q + r;
      assert (e * q + r) * l.inflight == e * (q * l.inflight) + r * l.inflight;
    }
    assert r * l.inflight < l.slots by {
      MulMono(r + 1, q, l.inflight);
      assert (r + 1) * l.inflight == r * l.inflight + l.inflight;
    }
    DivUnique(i * l.inflight, l.slots, e, r * l.inflight);
  }

  lemma DivUnique(a: nat, c: nat, e: nat, r: nat)
    requires c > 0 && a == e * c + r && r < c
    ensures a / c == e
  {
    DivExact(a, c);
    if a / c > e {
      MulMono(e + 1, a / c, c);
    } else if a / c < e {
      MulMono(a / c + 1, e, c);
    }
  }

  function Clip(x: int, q: nat): nat {
    if x < 0 then 0 else if x > q then q else x
  }

  lemma MulApart(e: nat, g: nat, q: nat)
    ensures e < g ==> e * q + q <= g * q
    ensures e > g ==> g * q + q <= e * q
  {
    if e < g {
      MulMono(e + 1, g, q);
    } else if e > g {
      MulMono(g + 1, e, q);
    }
  }

  /** One more entry at gate `e`, the entry number e * q + r. */
  lemma ClipStep(e: nat, r: nat, g: nat, q: nat)
    requires r < q
    ensures Clip(e * q + r + 1 - g * q, q) == Clip(e * q + r - g * q, q) + if e == g then 1 else 0
  {
    MulApart(e, g, q);
  }

  lemma {:induction false} LoadExact(l: Layout, q: nat, n: nat, g: nat)
    requires Proper(l) && l.slots == q * l.inflight && q > 0
    ensures Load(l, n, g) == Clip(n - g * q, q)
  {
    if n == 0 {
      assert g * q >= 0;
    } else {
      hide Gate, Clip;
      LoadExact(l, q, n - 1, g);
      GateExact(l, q, n - 1);
      DivExact(n - 1, q);
      ClipStep((n - 1) / q, (n - 1) % q, g, q);
    }
  }

  lemma {:induction false} LoadOfFirst(l: Layout, n: nat)
    requires Proper(l) && (n == 0 || (n - 1) * l.inflight < l.slots)
    ensures Load(l, n, 0) == n
  {
    if n > 0 {
      if n > 1 {
        MulMono(n - 2, n - 1, l.inflight);
      }
      DivUnique((n - 1) * l.inflight, l.slots, 0, (n - 1) * l.inflight);
      assert Gate(l, n - 1) == 0;
      hide Gate;
      LoadOfFirst(l, n - 1);
    }
  }

  /** Every gate can take the messages of all peers that the first `n` reservations give it. */
  ghost predicate Fits(l: Layout, n: nat)
    requires Proper(l)
  {
    forall g :: Load(l, n, g) * l.inflight <= l.slots
  }

  /**
   However many peers are reserved, the messages of the peers of each endpoint fit its
   slots, exactly when the slots are a multiple of the messages per peer, or the table
   has no more room than one endpoint.
   */
  lemma CapacityIff(l: Layout)
    requires Proper(l)
    ensures (forall n :: 0 <= n <= Room(l) ==> Fits(l, n))
            <==> l.slots % l.inflight == 0 || Room(l) <= l.slots / l.inflight
  {
    var q := l.slots / l.inflight;
    DivExact(l.slots, l.inflight);
    if l.slots % l.inflight == 0 {
      forall n | 0 <= n <= Room(l) ensures Fits(l, n) {
        forall g: nat ensures Load(l, n, g) * l.inflight <= l.slots {
          FitsExactly(l, q, n, g);
        }
      }
    } else if Room(l) <= q {
      forall n | 0 <= n <= Room(l) ensures Fits(l, n) {
        forall g: nat ensures Load(l, n, g) * l.inflight <= l.slots {
          LoadTotal(l, n, g);
          MulMono(Load(l, n, g), q, l.inflight);
        }
      }
    } else {
      LoadOfFirst(l, q + 1);
      assert (q + 1) * l.inflight == q * l.inflight + l.inflight;
      assert Load(l, q + 1, 0) * l.inflight > l.slots;
      assert !Fits(l, q + 1);
    }
  }

  lemma {:induction false} FitsExactly(l: Layout, q: nat, n: nat, g: nat)
    requires Proper(l) && l.slots == q * l.inflight
    ensures Load(l, n, g) * l.inflight <= l.slots
  {
    if q == 0 {
      assert false;
    }
    LoadExact(l, q, n, g);
    MulMono(Load(l, n, g), q, l.inflight);
  }

  /** With five slots and two messages per peer, the first endpoint gets three peers. */
  lemma CapacityExceeded()
    ensures var l := Layout(5, 2, 2, 0); Room(l) == 5 && Load(l, 3, 0) == 3 && !Fits(l, 3)
  {
    var l := Layout(5, 2, 2, 0);
    LoadOfFirst(l, 3);
    assert Load(l, 3, 0) * l.inflight > l.slots;
  }

  // -------------------------------------------------------- reserving, finding

  const FREE := -1

  /** The first entry with `id`, or the length of the table. */
  function IndexOf(occ: seq<int>, id: int): (i: nat)
    ensures i <= |occ|
    ensures i < |occ| ==> occ[i] == id
    ensures forall j :: 0 <= j < i ==> occ[j] != id
  {
    if |occ| == 0 || occ[0] == id then 0 else 1 + IndexOf(occ[1..], id)
  }

  lemma {:induction false} IndexIs(occ: seq<int>, id: int, i: nat)
    requires i <= |occ| && (i < |occ| ==> occ[i] == id) && forall j :: 0 <= j < i ==> occ[j] != id
    ensures IndexOf(occ, id) == i
  {
  }

  function EpFor(l: Layout, occ: seq<int>, id: int): int
    requires Proper(l)
  {
    if IndexOf(occ, id) < |occ| then Endpoint(l, IndexOf(occ, id)) else -1
  }

  /** The table after reserving an entry for `id`; the endpoint is EpFor of a free entry. */
  function Reserve(occ: seq<int>, id: nat): seq<int> {
    if IndexOf(occ, FREE) < |occ| then occ[IndexOf(occ, FREE) := id] else occ
  }

  /** The table of `room` entries after reservations for `ids`, in this order. */
  function Reserved(room: nat, ids: seq<nat>): (occ: seq<int>)
    ensures |occ| == room
  {
    if |ids| == 0 then seq(room, _ => FREE) else Reserve(Reserved(room, ids[..|ids| - 1]), ids[|ids| - 1])
  }

  /** Reservations fill the table from the front and never move or free an entry. */
  lemma {:induction false} ReservedIs(room: nat, ids: seq<nat>)
    ensures var occ := Reserved(room, ids);
            && (forall i :: 0 <= i < room ==> occ[i] == if i < |ids| then ids[i] else FREE)
            && IndexOf(occ, FREE) == if |ids| < room then |ids| else room
  {
    if |ids| > 0 {
      ReservedIs(room, ids[..|ids| - 1]);
    }
    var occ := Reserved(room, ids);
    IndexIs(occ, FREE, if |ids| < room then |ids| else room);
  }

  /**
   Reservation number `k`, for an id that has no entry yet, fails exactly when the table is
   full; otherwise ep_for returns the endpoint it gave, now and after all later reservations.
   */
  lemma {:induction false} FoundForever(l: Layout, ids: seq<nat>, k: nat)
    requires Proper(l) && k < |ids| && forall j :: 0 <= j < k ==> ids[j] != ids[k]
    ensures var before := Reserved(Room(l), ids[..k]);
            && (EpFor(l, before, FREE) == -1 <==> k >= Room(l))
            && EpFor(l, Reserved(Room(l), ids), ids[k]) == EpFor(l, before, FREE)
            && (k < Room(l) ==> EpFor(l, before, FREE) == Endpoint(l, k))
  {
    ReservedIs(Room(l), ids[..k]);
    ReservedIs(Room(l), ids);
    var occ := Reserved(Room(l), ids);
    hide Room, Reserved;
    if k < Room(l) {
      IndexIs(occ, ids[k], k);
    } else {
      IndexIs(occ, ids[k], |occ|);
    }
  }

  class EndpointTable {
    const layout: Layout
    const occ: array<int>

    ghost predicate Valid()
      reads this, occ
    {
      Proper(layout) && occ.Length == Room(layout)
    }

    constructor (layout: Layout)
      requires Proper(layout)
      ensures Valid() && fresh(occ) && this.layout == layout && occ[..] == Reserved(Room(layout), [])
    {
      this.layout := layout;
      occ := new int[Room(layout)](_ => FREE);
    }

    /** reserve_ep. */
    method ReserveEp(id: nat) returns (ep: int)
      requires Valid()
      modifies occ
      ensures Valid() && occ[..] == Reserve(old(occ[..]), id)
      ensures ep == EpFor(layout, old(occ[..]), FREE)
      ensures ep != -1 ==> layout.first <= ep < layout.first + layout.gates
    {
      for i := 0 to occ.Length
        invariant occ[..] == old(occ[..])
        invariant forall j :: 0 <= j < i ==> occ[j] != FREE
      {
        if occ[i] == FREE {
          IndexIs(occ[..], FREE, i);
          EndpointInRange(layout, i);
          occ[i] := id;
          return Endpoint(layout, i);
        }
      }
      IndexIs(occ[..], FREE, occ.Length);
      return -1;
    }

    /** ep_for. */
    method EpForId(id: nat) returns (ep: int)
      requires Valid()
      ensures ep == EpFor(layout, occ[..], id)
    {
      for i := 0 to occ.Length
        invariant forall j :: 0 <= j < i ==> occ[j] != id
      {
        if occ[i] == id {
          IndexIs(occ[..], id, i);
          return Endpoint(layout, i);
        }
      }
      IndexIs(occ[..], id, occ.Length);
      return -1;
    }
  }
}

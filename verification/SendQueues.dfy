/**
 The credit-limited send queue of the kernel, with the heap buffers it takes over. The
 heap, the allocator's answers and what other code does to the heap are explicit.
 */
module SendQueues {
  import opened Common

  type Bytes = seq<bv8>

  /** A message as it goes out: the gate and the payload. */
  datatype Packet = Packet(gate: nat, payload: Bytes)

  /** A pending message; its payload is the heap buffer at `buffer`. */
  datatype Entry = Entry(gate: nat, buffer: nat)

  /**
   The queue with its surroundings: the heap, the packets sent so far, and as a history
   the packets submitted, the buffer each came or was copied in, and the buffers freed.
   */
  datatype Queue = Queue(
    capacity: int, inflight: int, pending: seq<Entry>,
    heap: map<nat, Bytes>, wire: seq<Packet>,
    submitted: seq<Packet>, buffers: seq<Option<nat>>, freed: seq<nat>, replies: nat)

  function New(capacity: int, heap: map<nat, Bytes>): Queue {
    Queue(capacity, 0, [], heap, [], [], [], [], 0)
  }

  /** do_send: transmit, free the buffer if there is one, and count the message. */
  function Transmitted(q: Queue, packet: Packet, buffer: Option<nat>): Queue {
    q.(wire := q.wire + [packet], inflight := q.inflight + 1,
       heap := if buffer.Some? then q.heap - {buffer.value} else q.heap,
       freed := q.freed + if buffer.Some? then [buffer.value] else [])
  }

  datatype Op =
    | SendCopy(gate: nat, payload: Bytes, spare: nat) // a message that is not on the heap
    | SendBuffer(gate: nat, buffer: nat)              // a message in a heap buffer
    | Reply
    | Elsewhere(heap: map<nat, Bytes>)                // other code uses the heap

  /** What the callers, the allocator and other code keep to. */
  ghost predicate Allowed(q: Queue, op: Op) {
    match op
    case SendCopy(_, _, spare) => spare !in q.heap
    case SendBuffer(_, buffer) => buffer in q.heap && !Owns(q, buffer)
    case Reply => q.inflight > 0
    case Elsewhere(heap) =>
      forall i :: 0 <= i < |q.pending| && q.pending[i].buffer in q.heap ==>
        q.pending[i].buffer in heap && heap[q.pending[i].buffer] == q.heap[q.pending[i].buffer]
  }

  ghost predicate Owns(q: Queue, buffer: nat) {
    exists i :: 0 <= i < |q.pending| && q.pending[i].buffer == buffer
  }

  function Submit(q: Queue, packet: Packet, buffer: Option<nat>): Queue {
    q.(submitted := q.submitted + [packet], buffers := q.buffers + [buffer])
  }

  function Enqueue(q: Queue, gate: nat, buffer: nat): Queue {
    q.(pending := q.pending + [Entry(gate, buffer)])
  }

  /** send, for a message that is not on the heap. */
  function AfterCopy(q: Queue, gate: nat, payload: Bytes, spare: nat): Queue {
    var packet := Packet(gate, payload);
    if q.inflight < q.capacity then Transmitted(Submit(q, packet, None), packet, None)
    else Enqueue(Submit(q, packet, Some(spare)).(heap := q.heap[spare := payload]), gate, spare)
  }

  /** send, for a message on the heap. */
  function AfterBuffer(q: Queue, gate: nat, buffer: nat): Queue
    requires buffer in q.heap
  {
    var packet := Packet(gate, q.heap[buffer]);
    var q' := Submit(q, packet, Some(buffer));
    if q.inflight < q.capacity then Transmitted(q', packet, Some(buffer)) else Enqueue(q', gate, buffer)
  }

  /** received_reply. By the invariant below, a pending message's buffer is on the heap. */
  function AfterReply(q: Queue): Queue {
    var q' := q.(inflight := q.inflight - 1, replies := q.replies + 1);
    if |q.pending| == 0 || q.pending[0].buffer !in q.heap then q'
    else
      var e := q.pending[0];
      Transmitted(q'.(pending := q.pending[1..]), Packet(e.gate, q.heap[e.buffer]), Some(e.buffer))
  }

  function Apply(q: Queue, op: Op): Queue {
    match op
    case SendCopy(gate, payload, spare) => AfterCopy(q, gate, payload, spare)
    case SendBuffer(gate, buffer) => if buffer in q.heap then AfterBuffer(q, gate, buffer) else q
    case Reply => AfterReply(q)
    case Elsewhere(heap) => q.(heap := heap)
  }

  // ------------------------------------------------------------- the invariant

  function Credit(q: Queue): nat {
    (if q.capacity < 0 then 0 else q.capacity) + q.replies
  }

  function Values(s: seq<Option<nat>>): seq<nat> {
    if |s| == 0 then [] else Values(s[..|s| - 1]) + match s[|s| - 1] case None => [] case Some(b) => [b]
  }

  /** The pending message number `i` is the submitted one it stands for, in its own buffer. */
  ghost predicate Waiting(q: Queue, i: nat)
    requires i < |q.pending| && |q.wire| + |q.pending| == |q.submitted| == |q.buffers|
  {
    var e := q.pending[i];
    && e.buffer in q.heap
    && q.submitted[|q.wire| + i] == Packet(e.gate, q.heap[e.buffer])
    && q.buffers[|q.wire| + i] == Some(e.buffer)
  }

  /** All pending messages are intact, in different buffers. */
  ghost predicate Intact(q: Queue)
    requires |q.wire| + |q.pending| == |q.submitted| == |q.buffers|
  {
    && (forall i {:trigger Waiting(q, i)} :: 0 <= i < |q.pending| ==> Waiting(q, i))
    && (forall i, j :: 0 <= i < j < |q.pending| ==> q.pending[i].buffer != q.pending[j].buffer)
  }

  ghost predicate Inv(q: Queue) {
    && |q.wire| + |q.pending| == |q.submitted| == |q.buffers|
    && |q.wire| == Min(|q.submitted|, Credit(q))
    && q.inflight == |q.wire| - q.replies && q.inflight >= 0
    && q.wire == q.submitted[..|q.wire|]
    && q.freed == Values(q.buffers[..|q.wire|])
    && Intact(q)
  }

  lemma {:induction false} ValuesAppend(s: seq<Option<nat>>, x: Option<nat>)
    ensures Values(s + [x]) == Values(s) + if x.Some? then [x.value] else []
  {
    assert (s + [x])[..|s|] == s;
  }

  /** Transmitting at once, when nothing waits. */
  lemma DirectInv(q: Queue, packet: Packet, buffer: Option<nat>)
    requires Inv(q) && q.inflight < q.capacity
    ensures Inv(Transmitted(Submit(q, packet, buffer), packet, buffer))
  {
    var q' := Transmitted(Submit(q, packet, buffer), packet, buffer);
    assert |q.pending| == 0;
    ValuesAppend(q.buffers, buffer);
    assert q.buffers[..|q.wire|] == q.buffers && q'.buffers[..|q'.wire|] == q'.buffers;
    assert q.submitted[..|q.wire|] == q.submitted && q'.submitted[..|q'.wire|] == q'.submitted;
  }

  /** Waiting for credit, in a buffer that nobody else in the queue has. */
  lemma EnqueueInv(q: Queue, heap: map<nat, Bytes>, gate: nat, buffer: nat)
    requires Inv(q) && q.inflight >= q.capacity && !Owns(q, buffer) && buffer in heap
    requires forall b :: b in q.heap && b != buffer ==> b in heap && heap[b] == q.heap[b]
    ensures Inv(Enqueue(Submit(q, Packet(gate, heap[buffer]), Some(buffer)).(heap := heap), gate, buffer))
  {
    var q' := Enqueue(Submit(q, Packet(gate, heap[buffer]), Some(buffer)).(heap := heap), gate, buffer);
    assert q'.wire == q'.submitted[..|q'.wire|];
    assert q'.buffers[..|q'.wire|] == q.buffers[..|q.wire|];
    forall i | 0 <= i < |q'.pending| ensures Waiting(q', i) {
      if i < |q.pending| {
        assert Waiting(q, i);
        assert q.pending[i].buffer != buffer;
      }
    }
  }

  lemma ReplyInv(q: Queue)
    requires Inv(q) && q.inflight > 0
    ensures Inv(AfterReply(q))
  {
    var q' := AfterReply(q);
    if |q.pending| > 0 {
      assert Waiting(q, 0);
      var n := |q.wire|;
      ValuesAppend(q.buffers[..n], q.buffers[n]);
      assert q.buffers[..n + 1] == q.buffers[..n] + [q.buffers[n]];
      assert q.submitted[..n + 1] == q.submitted[..n] + [q.submitted[n]];
      forall i | 0 <= i < |q'.pending| ensures Waiting(q', i) {
        assert Waiting(q, i + 1);
      }
    }
  }

  lemma ApplyInv(q: Queue, op: Op)
    requires Inv(q) && Allowed(q, op)
    ensures Inv(Apply(q, op))
  {
    match op {
      case SendCopy(gate, payload, spare) =>
        if q.inflight < q.capacity {
          DirectInv(q, Packet(gate, payload), None);
        } else {
          forall i | 0 <= i < |q.pending| ensures q.pending[i].buffer != spare {
            assert Waiting(q, i);
          }
          EnqueueInv(q, q.heap[spare := payload], gate, spare);
        }
      case SendBuffer(gate, buffer) =>
        if q.inflight < q.capacity {
          DirectInv(q, Packet(gate, q.heap[buffer]), Some(buffer));
        } else {
          EnqueueInv(q, q.heap, gate, buffer);
        }
      case Reply =>
        ReplyInv(q);
      case Elsewhere(heap) =>
        var q' := q.(heap := heap);
        forall i | 0 <= i < |q'.pending| ensures Waiting(q', i) {
          assert Waiting(q, i);
        }
    }
  }

  // --------------------------------------------------------------- whole runs

  function Run(q: Queue, ops: seq<Op>): Queue {
    if |ops| == 0 then q else Apply(Run(q, ops[..|ops| - 1]), ops[|ops| - 1])
  }

  ghost predicate AllowedRun(q: Queue, ops: seq<Op>) {
    |ops| == 0 || (AllowedRun(q, ops[..|ops| - 1]) && Allowed(Run(q, ops[..|ops| - 1]), ops[|ops| - 1]))
  }

  lemma {:induction false} RunInv(capacity: int, heap: map<nat, Bytes>, ops: seq<Op>)
    requires AllowedRun(New(capacity, heap), ops)
    ensures Inv(Run(New(capacity, heap), ops))
  {
    if |ops| > 0 {
      RunInv(capacity, heap, ops[..|ops| - 1]);
      hide Inv, Apply;
      ApplyInv(Run(New(capacity, heap), ops[..|ops| - 1]), ops[|ops| - 1]);
    }
  }

  function IsReply(op: Op): nat {
    if op.Reply? then 1 else 0
  }

  function IsSend(op: Op): nat {
    if op.SendCopy? || op.SendBuffer? then 1 else 0
  }

  function Sends(ops: seq<Op>): nat {
    if |ops| == 0 then 0 else Sends(ops[..|ops| - 1]) + IsSend(ops[|ops| - 1])
  }

  function Replies(ops: seq<Op>): nat {
    if |ops| == 0 then 0 else Replies(ops[..|ops| - 1]) + IsReply(ops[|ops| - 1])
  }

  lemma {:induction false} RunCounts(capacity: int, heap: map<nat, Bytes>, ops: seq<Op>)
    requires AllowedRun(New(capacity, heap), ops)
    ensures var q := Run(New(capacity, heap), ops);
            q.capacity == capacity && |q.submitted| == Sends(ops) && q.replies == Replies(ops)
  {
    if |ops| > 0 {
      RunCounts(capacity, heap, ops[..|ops| - 1]);
      hide Apply;
      ApplyCounts(Run(New(capacity, heap), ops[..|ops| - 1]), ops[|ops| - 1]);
    }
  }

  /** What an operation gives the queue to send, with the heap as it is. */
  function PacketOf(op: Op, heap: map<nat, Bytes>): seq<Packet> {
    match op
    case SendCopy(gate, payload, _) => [Packet(gate, payload)]
    case SendBuffer(gate, buffer) => if buffer in heap then [Packet(gate, heap[buffer])] else []
    case _ => []
  }

  /** What the operations of a run give it to send, in their order. */
  function Packets(q: Queue, ops: seq<Op>): seq<Packet> {
    if |ops| == 0 then []
    else
      var before := ops[..|ops| - 1];
      Packets(q, before) + PacketOf(ops[|ops| - 1], Run(q, before).heap)
  }

  lemma {:induction false} RunPackets(capacity: int, heap: map<nat, Bytes>, ops: seq<Op>)
    requires AllowedRun(New(capacity, heap), ops)
    ensures Run(New(capacity, heap), ops).submitted == Packets(New(capacity, heap), ops)
  {
    if |ops| > 0 {
      RunPackets(capacity, heap, ops[..|ops| - 1]);
      ApplyPackets(Run(New(capacity, heap), ops[..|ops| - 1]), ops[|ops| - 1]);
      hide Apply;
    }
  }

  lemma ApplyPackets(q: Queue, op: Op)
    requires Allowed(q, op)
    ensures Apply(q, op).submitted == q.submitted + PacketOf(op, q.heap)
  {
    assert q.submitted + [] == q.submitted;
  }

  /**
   The heap buffer that each message of a run is in: its own, or the one it is copied to if
   as many messages as there is capacity have not been replied to.
   */
  function Buffers(capacity: nat, ops: seq<Op>): seq<Option<nat>> {
    if |ops| == 0 then []
    else
      var before := ops[..|ops| - 1];
      Buffers(capacity, before) +
      match ops[|ops| - 1]
      case SendBuffer(_, buffer) => [Some(buffer)]
      case SendCopy(_, _, spare) => [if Sends(before) < capacity + Replies(before) then None else Some(spare)]
      case _ => []
  }

  lemma {:induction false} RunBuffers(capacity: nat, heap: map<nat, Bytes>, ops: seq<Op>)
    requires AllowedRun(New(capacity, heap), ops)
    ensures Run(New(capacity, heap), ops).buffers == Buffers(capacity, ops)
  {
    if |ops| > 0 {
      var before := ops[..|ops| - 1];
      RunBuffers(capacity, heap, before);
      RunInv(capacity, heap, before);
      RunCounts(capacity, heap, before);
      hide Intact, Values, New, Sends, Replies;
      var q := Run(New(capacity, heap), before);
      assert q.inflight < q.capacity <==> Sends(before) < capacity + Replies(before);
      assert q.buffers + [] == q.buffers;
    }
  }

  /**
   What an operation does to the heap: a message that has to wait is copied to the buffer
   that the allocator found, the buffers that are freed with it disappear, and all others
   keep what is in them.
   */
  lemma HeapFrame(q: Queue, op: Op)
    requires Inv(q) && Allowed(q, op) && !op.Elsewhere?
    ensures var q' := Apply(q, op);
            && q.freed <= q'.freed
            && (forall b :: b in q.heap && b !in q'.freed[|q.freed|..] ==> b in q'.heap && q'.heap[b] == q.heap[b])
            && (forall b :: b in q'.freed[|q.freed|..] ==> b in q.heap && b !in q'.heap)
            && (forall b :: b in q'.heap && b !in q.heap ==>
                  op.SendCopy? && b == op.spare && q.inflight >= q.capacity && q'.heap[b] == op.payload)
  {
    var q' := Apply(q, op);
    if op.Reply? && |q.pending| > 0 {
      assert Waiting(q, 0);
    }
    assert q'.freed[|q.freed|..] == if |q'.freed| == |q.freed| then [] else [q'.freed[|q.freed|]];
  }

  lemma ApplyCounts(q: Queue, op: Op)
    requires Allowed(q, op)
    ensures Apply(q, op).capacity == q.capacity
    ensures |Apply(q, op).submitted| == |q.submitted| + IsSend(op)
    ensures Apply(q, op).replies == q.replies + IsReply(op)
  {
  }

  /**
   After every run with `s` sends and `r` replies, exactly the first min(s, capacity + r)
   of the messages that the sends gave have been transmitted, in order and unchanged; messages wait only when all
   credits are in use; and exactly the heap buffers of the transmitted messages have been
   freed, each once and in the order of transmission. The buffers of the others are intact.
   */
  lemma {:induction false} ClosedForm(capacity: nat, heap: map<nat, Bytes>, ops: seq<Op>)
    requires AllowedRun(New(capacity, heap), ops)
    ensures var q := Run(New(capacity, heap), ops);
            var sent := Min(Sends(ops), capacity + Replies(ops));
            && |q.submitted| == |q.buffers| == Sends(ops)
            && q.submitted == Packets(New(capacity, heap), ops) && q.wire == q.submitted[..sent]
            && q.buffers == Buffers(capacity, ops)
            && |q.pending| == Sends(ops) - sent
            && q.inflight == sent - Replies(ops)
            && (|q.pending| > 0 ==> q.inflight == capacity)
            && Intact(q)
            && q.freed == Values(q.buffers[..sent])
  {
    hide Run, Values, Intact, AllowedRun, Sends, Replies, New, Packets, Buffers;
    RunInv(capacity, heap, ops);
    RunPackets(capacity, heap, ops);
    RunBuffers(capacity, heap, ops);
    RunCounts(capacity, heap, ops);
  }

  /** A negative capacity lets nothing through. */
  lemma {:induction false} NoCapacity(capacity: int, heap: map<nat, Bytes>, ops: seq<Op>)
    requires capacity <= 0 && AllowedRun(New(capacity, heap), ops)
    ensures Run(New(capacity, heap), ops).wire == [] && Replies(ops) == 0
  {
    RunInv(capacity, heap, ops);
    RunCounts(capacity, heap, ops);
    NoReplies(capacity, heap, ops);
  }

  lemma {:induction false} NoReplies(capacity: int, heap: map<nat, Bytes>, ops: seq<Op>)
    requires capacity <= 0 && AllowedRun(New(capacity, heap), ops)
    ensures Replies(ops) == 0
  {
    if |ops| > 0 {
      var before := ops[..|ops| - 1];
      NoReplies(capacity, heap, before);
      RunInv(capacity, heap, before);
      RunCounts(capacity, heap, before);
    }
  }

  // ------------------------------------------------------------- the class itself

  class SendQueue {
    var queue: seq<Entry>
    const capacity: int
    var inflight: int
    // the heap and the network, as far as this queue uses them
    var heap: map<nat, Bytes>
    var wire: seq<Packet>
    // history
    ghost var submitted: seq<Packet>
    ghost var buffers: seq<Option<nat>>
    ghost var freed: seq<nat>
    ghost var replies: nat

    ghost function Value(): Queue
      reads this
    {
      Queue(capacity, inflight, queue, heap, wire, submitted, buffers, freed, replies)
    }

    constructor (capacity: int, heap: map<nat, Bytes>)
      ensures Value() == New(capacity, heap) && Inv(Value())
    {
      this.capacity, this.heap := capacity, heap;
      queue, inflight, wire := [], 0, [];
      submitted, buffers, freed, replies := [], [], [], 0;
    }

    /** A buffer is only freed while it is allocated. */
    method Free(buffer: nat)
      requires buffer in heap
      modifies this`heap, this`freed
      ensures heap == old(heap) - {buffer} && freed == old(freed) + [buffer]
    {
      heap := heap - {buffer};
      freed := freed + [buffer];
    }

    method DoSend(packet: Packet, buffer: Option<nat>)
      requires buffer.Some? ==> buffer.value in heap
      modifies this
      ensures Value() == Transmitted(old(Value()), packet, buffer)
    {
      wire := wire + [packet];
      if buffer.Some? {
        Free(buffer.value);
      }
      inflight := inflight + 1;
    }

    /** send with a message that is not on the heap; `spare` is what Heap::alloc would return. */
    method SendCopy(gate: nat, payload: Bytes, spare: nat)
      requires Inv(Value()) && spare !in heap
      modifies this
      ensures Inv(Value()) && Value() == AfterCopy(old(Value()), gate, payload, spare)
    {
      ApplyInv(Value(), Op.SendCopy(gate, payload, spare));
      submitted := submitted + [Packet(gate, payload)];
      if inflight < capacity {
        buffers := buffers + [None];
        DoSend(Packet(gate, payload), None);
      } else {
        buffers := buffers + [Some(spare)];
        heap := heap[spare := payload];
        queue := queue + [Entry(gate, spare)];
      }
    }

    /** send with a message in a heap buffer, which the queue takes over. */
    method SendBuffer(gate: nat, buffer: nat)
      requires Inv(Value()) && buffer in heap && !Owns(Value(), buffer)
      modifies this
      ensures Inv(Value()) && Value() == AfterBuffer(old(Value()), gate, buffer)
    {
      ApplyInv(Value(), Op.SendBuffer(gate, buffer));
      submitted, buffers := submitted + [Packet(gate, heap[buffer])], buffers + [Some(buffer)];
      if inflight < capacity {
        DoSend(Packet(gate, heap[buffer]), Some(buffer));
      } else {
        queue := queue + [Entry(gate, buffer)];
      }
    }

    method ReceivedReply()
      requires Inv(Value()) && inflight > 0
      modifies this
      ensures Inv(Value()) && Value() == AfterReply(old(Value()))
    {
      ReplyInv(Value());
      inflight := inflight - 1;
      replies := replies + 1;
      if |queue| > 0 {
        var e := queue[0];
        assert Waiting(old(Value()), 0);
        queue := queue[1..];
        DoSend(Packet(e.gate, heap[e.buffer]), Some(e.buffer));
      }
    }
  }
}

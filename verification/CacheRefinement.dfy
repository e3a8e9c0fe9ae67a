/** The block cache refines a flat store of blocks, over every sequence of operations. */
module CacheRefinement {
  import opened CacheSlots
  import opened CacheReplacement
  import opened CacheLimits
  import opened CacheStore

  // -------------------------------------------------------- the other operations

  /** A store through the pointer to a resident block replaces exactly that block. */
  lemma PutContents(s: Store, i: nat, block: Block)
    requires Valid(s) && i < |s.data| && s.table.slots[i].bno != 0
    ensures Valid(Put(s, i, block))
    ensures Contents(Put(s, i, block)) == Contents(s)[s.table.slots[i].bno := block]
    ensures Synced(s) ==> (Synced(Put(s, i, block)) <==> s.dirty[i] || block == s.dram[s.table.slots[i].bno])
  {
    var s' := Put(s, i, block);
    FoundAt(s, i);
    hide Find;
    forall b | 0 <= b < |s.dram| ensures ContentOf(s', b) == Contents(s)[s.table.slots[i].bno := block][b] {
      assert Find(s.table.slots, b) == i ==> s.table.slots[i].bno == b;
    }
    if Synced(s) {
      assert Synced(s') ==> SyncedAt(s', i);
      forall j | 0 <= j < |s.data| && j != i ensures SyncedAt(s', j) {
        assert SyncedAt(s, j);
      }
    }
  }

  /** Marking a block makes exactly its slot dirty, if it has one, and changes nothing else. */
  lemma MarkContents(s: Store, b: nat)
    requires Valid(s) && b != 0
    ensures Valid(MarkDirty(s, b)) && Contents(MarkDirty(s, b)) == Contents(s)
    ensures MarkDirty(s, b).table == s.table && MarkDirty(s, b).data == s.data && MarkDirty(s, b).dram == s.dram
    ensures forall j :: 0 <= j < |s.data| ==>
              (MarkDirty(s, b).dirty[j] <==> s.dirty[j] || s.table.slots[j].bno == b)
    ensures forall j {:trigger SyncedAt(MarkDirty(s, b), j)} :: 0 <= j < |s.data| ==>
              (SyncedAt(MarkDirty(s, b), j) <==> SyncedAt(s, j) || s.table.slots[j].bno == b)
  {
    if Find(s.table.slots, b) < |s.data| {
      FoundAt(s, Find(s.table.slots, b));
    }
    hide Find;
  }

  /**
   Writing a block back changes no contents; in a synced store its DRAM copy is then up to
   date. If it is dirty, just its slot gets clean and just its DRAM copy is written.
   */
  lemma WriteBackContents(s: Store, b: nat)
    requires Valid(s)
    ensures Valid(WriteBack(s, b)) && Contents(WriteBack(s, b)) == Contents(s)
    ensures |WriteBack(s, b).dram| == |s.dram| && WriteBack(s, b).table == s.table && WriteBack(s, b).data == s.data
    ensures forall j :: 0 <= j < |s.data| ==>
              (WriteBack(s, b).dirty[j] <==> s.dirty[j] && s.table.slots[j].bno != b)
    ensures forall x :: 0 <= x < |s.dram| && x != b ==> WriteBack(s, b).dram[x] == s.dram[x]
    ensures (forall j :: 0 <= j < |s.data| && s.dirty[j] ==> s.table.slots[j].bno != b) ==> WriteBack(s, b) == s
    ensures Synced(s) ==> Synced(WriteBack(s, b))
    ensures Synced(s) && b < |s.dram| ==> WriteBack(s, b).dram[b] == Contents(s)[b]
  {
    var i := Find(s.table.slots, b);
    var s' := WriteBack(s, b);
    if i < |s.data| && s.dirty[i] {
      FlushSlotContents(s, i);
      FoundAt(s, i);
    }
    hide Find, FlushSlot;
    if Synced(s) {
      forall j | 0 <= j < |s.data| ensures SyncedAt(s', j) {
        assert SyncedAt(s, j);
      }
      assert i < |s.data| ==> SyncedAt(s, i);
    }
  }

  lemma {:induction false} FlushContents(s: Store, i: nat)
    requires Valid(s) && i <= |s.data|
    ensures Valid(FlushFrom(s, i)) && Contents(FlushFrom(s, i)) == Contents(s)
    ensures forall j :: i <= j < |s.data| ==> !FlushFrom(s, i).dirty[j]
    ensures forall j :: 0 <= j < i ==> FlushFrom(s, i).dirty[j] == s.dirty[j]
    ensures Synced(FlushFrom(s, i)) <==> Synced(s)
    decreases |s.data| - i
  {
    if i < |s.data| {
      EvictedContents(s, i);
      var s1 := Evicted(s, i);
      FlushContents(s1, i + 1);
      if s.dirty[i] {
        FlushSlotContents(s, i);
      }
      hide Contents, FlushSlot, Valid;
      assert Synced(s1) ==> Synced(s) by {
        if Synced(s1) {
          forall j | 0 <= j < |s.data| ensures SyncedAt(s, j) {
            assert SyncedAt(s1, j);
            assert s.dirty[i] ==> s1 == FlushSlot(s, i);
          }
        }
      }
    }
  }

  /** A flush writes exactly the dirty buffers, each to its block. */
  lemma {:induction false} FlushWrites(s: Store, i: nat, b: nat)
    requires Valid(s) && i <= |s.data| && b < |s.dram|
    ensures forall j :: i <= j < |s.data| && s.dirty[j] && s.table.slots[j].bno == b ==>
              FlushFrom(s, i).dram[b] == s.data[j]
    ensures (forall j :: i <= j < |s.data| && s.dirty[j] ==> s.table.slots[j].bno != b) ==>
              FlushFrom(s, i).dram[b] == s.dram[b]
    decreases |s.data| - i
  {
    if i < |s.data| {
      EvictedContents(s, i);
      FlushWrites(Evicted(s, i), i + 1, b);
      hide Contents, Synced;
    }
  }

  lemma SyncedClean(s: Store, b: nat)
    requires Valid(s) && Synced(s) && b < |s.dram|
    requires forall j :: 0 <= j < |s.data| ==> !s.dirty[j]
    ensures s.dram[b] == Contents(s)[b]
  {
    var i := Find(s.table.slots, b);
    hide Find;
    if b != 0 && i < |s.data| {
      assert SyncedAt(s, i);
    }
  }

  /** After a flush the DRAM holds the contents exactly when every unmarked buffer was in step. */
  lemma {:induction false} FlushReachesDram(s: Store)
    requires Valid(s)
    ensures FlushFrom(s, 0).dram == Contents(s) <==> Synced(s)
  {
    var s' := FlushFrom(s, 0);
    FlushContents(s, 0);
    hide FlushFrom, Find;
    if Synced(s) {
      forall b | 0 <= b < |s.dram| ensures s'.dram[b] == Contents(s)[b] {
        SyncedClean(s', b);
      }
    } else {
      var i :| 0 <= i < |s'.data| && !SyncedAt(s', i);
      FoundAt(s', i);
      assert Contents(s')[s'.table.slots[i].bno] == s'.data[i];
    }
  }

  /**
   A request keeps all contents exactly when the slot it takes was the block's own, or
   empty, or marked dirty, or in step with the DRAM.
   */
  lemma {:induction false} RequestKeepsContents(s: Store, b: nat, write: bool)
    requires Valid(s) && 0 < b < |s.dram|
    ensures var v := SlotFor(s.table.slots, b);
            Contents(Request(s, b, write)) == Contents(s)
            <==> Find(s.table.slots, b) < |s.data| || s.table.slots[v].bno == 0 || SyncedAt(s, v)
  {
    RequestContents(s, b, write);
    var v := SlotFor(s.table.slots, b);
    hide Request, SlotFor, Find;
    var x := s.table.slots[v].bno;
    if x != 0 {
      FoundAt(s, v);
      assert Contents(s)[x] == s.data[v];
      if !(Find(s.table.slots, b) < |s.data|) && !SyncedAt(s, v) {
        assert Reloaded(s, b)[x] == s.dram[x];
      }
    } else if !(Find(s.table.slots, b) < |s.data|) {
      assert Contents(s)[0] == s.dram[0];
    }
  }

  /**
   An unmarked store is lost with its slot: with one slot, block 1 is requested for reading
   and changed through its pointer, and then block 2 is requested.
   */
  lemma UnmarkedIsLost()
    ensures var s := Fresh([[]], [[], [], []]);
            && Valid(s) && Valid(Request(s, 1, false))
            && var s1 := Put(Request(s, 1, false), 0, [7]);
               && Valid(s1) && s1.table.slots[0].bno == 1 && !SyncedAt(s1, 0) && Contents(s1)[1] == [7]
               && |Request(s1, 2, false).data| == |Request(s1, 2, false).table.slots|
               && |Contents(Request(s1, 2, false))| == 3 && Contents(Request(s1, 2, false))[1] == []
  {
    var s := Fresh([[]], [[], [], []]);
    assert s.table.slots == [Slot(0, 0)];
    assert Find(s.table.slots, 1) == 1 && SlotFor(s.table.slots, 1) == 0;
    var s0 := Request(s, 1, false);
    assert s0.table.slots == [Slot(1, 1)] && s0.dirty == [false] && s0.data == [[]] && s0.dram == s.dram;
    var s1 := Put(s0, 0, [7]);
    assert Find(s1.table.slots, 2) == 1 && SlotFor(s1.table.slots, 2) == 0;
    var s2 := Request(s1, 2, false);
    assert s2.table.slots == [Slot(2, 2)] && s2.dram == s.dram;
  }

  // ------------------------------------------------------ runs of operations

  datatype Op =
    | Read(b: nat)                 // get_block(b, false)
    | Write(b: nat, block: Block)  // get_block(b, true) and a store through the pointer
    | Update(b: nat, block: Block) // get_block(b, false), a store and mark_dirty(b)
    | Sync(b: nat)                 // write_back(b)
    | SyncAll                      // flush()

  predicate InRange(op: Op, size: nat) {
    op.Sync? || op.SyncAll? || 0 < op.b < size
  }

  ghost predicate AllInRange(ops: seq<Op>, size: nat) {
    forall i :: 0 <= i < |ops| ==> InRange(ops[i], size)
  }

  function Apply(s: Store, op: Op): Store
    requires Valid(s) && InRange(op, |s.dram|)
  {
    match op
    case Read(b) => Request(s, b, false)
    case Write(b, block) =>
      RequestContents(s, b, true);
      Put(Request(s, b, true), SlotFor(s.table.slots, b), block)
    case Update(b, block) =>
      RequestContents(s, b, false);
      PutContents(Request(s, b, false), SlotFor(s.table.slots, b), block);
      MarkDirty(Put(Request(s, b, false), SlotFor(s.table.slots, b), block), b)
    case Sync(b) => WriteBack(s, b)
    case SyncAll => FlushFrom(s, 0)
  }

  /** The block the operation finds in the buffer it is given, if it asks for one. */
  function Answer(s: Store, op: Op): Block
    requires Valid(s) && InRange(op, |s.dram|)
  {
    if op.Sync? || op.SyncAll? then [] else
      RequestContents(s, op.b, op.Write?);
      Request(s, op.b, op.Write?).data[SlotFor(s.table.slots, op.b)]
  }

  function FlatApply(m: seq<Block>, op: Op): seq<Block>
    requires InRange(op, |m|)
  {
    if op.Write? || op.Update? then m[op.b := op.block] else m
  }

  function FlatAnswer(m: seq<Block>, op: Op): Block
    requires InRange(op, |m|)
  {
    if op.Sync? || op.SyncAll? then [] else m[op.b]
  }

  lemma WriteRefines(s: Store, b: nat, block: Block)
    requires Valid(s) && Synced(s) && 0 < b < |s.dram|
    ensures var s' := Apply(s, Write(b, block));
            Valid(s') && Synced(s') && Contents(s') == Contents(s)[b := block]
  {
    RequestContents(s, b, true);
    RequestKeepsContents(s, b, true);
    var v := SlotFor(s.table.slots, b);
    assert SyncedAt(s, v);
    hide Request, SlotFor, Find;
    PutContents(Request(s, b, true), v, block);
  }

  lemma UpdateRefines(s: Store, b: nat, block: Block)
    requires Valid(s) && Synced(s) && 0 < b < |s.dram|
    ensures var s' := Apply(s, Update(b, block));
            Valid(s') && Synced(s') && Contents(s') == Contents(s)[b := block]
  {
    RequestContents(s, b, false);
    RequestKeepsContents(s, b, false);
    var v := SlotFor(s.table.slots, b);
    assert SyncedAt(s, v);
    hide Request, SlotFor, Find;
    PutAndMark(Request(s, b, false), v, block);
  }

  /** A store through a pointer that is then marked is not lost. */
  lemma PutAndMark(s: Store, i: nat, block: Block)
    requires Valid(s) && Synced(s) && i < |s.data| && s.table.slots[i].bno != 0
    ensures Valid(Put(s, i, block))
    ensures var s' := MarkDirty(Put(s, i, block), s.table.slots[i].bno);
            Valid(s') && Synced(s') && Contents(s') == Contents(s)[s.table.slots[i].bno := block]
  {
    var b := s.table.slots[i].bno;
    PutContents(s, i, block);
    MarkContents(Put(s, i, block), b);
    var s' := MarkDirty(Put(s, i, block), b);
    hide Find, MarkDirty;
    forall j | 0 <= j < |s.data| ensures SyncedAt(s', j) {
      assert SyncedAt(s, j);
      assert j != i ==> SyncedAt(Put(s, i, block), j);
    }
  }

  lemma ApplyRefines(s: Store, op: Op)
    requires Valid(s) && Synced(s) && InRange(op, |s.dram|)
    ensures var s' := Apply(s, op);
            && Valid(s') && Synced(s') && |s'.dram| == |s.dram| && |s'.data| == |s.data|
            && Contents(s') == FlatApply(Contents(s), op)
            && Answer(s, op) == FlatAnswer(Contents(s), op)
  {
    match op {
      case Read(b) =>
        RequestContents(s, b, false);
        RequestKeepsContents(s, b, false);
        assert SyncedAt(s, SlotFor(s.table.slots, b));
      case Write(b, block) =>
        RequestContents(s, b, true);
        WriteRefines(s, b, block);
      case Update(b, block) =>
        RequestContents(s, b, false);
        UpdateRefines(s, b, block);
      case Sync(b) =>
        WriteBackContents(s, b);
      case SyncAll =>
        FlushContents(s, 0);
    }
  }

  function ApplyAll(s: Store, ops: seq<Op>): (s': Store)
    requires Valid(s) && Synced(s) && AllInRange(ops, |s.dram|)
    ensures Valid(s') && Synced(s') && |s'.dram| == |s.dram| && |s'.data| == |s.data|
  {
    if |ops| == 0 then s else
      var before := ApplyAll(s, ops[..|ops| - 1]);
      ApplyRefines(before, ops[|ops| - 1]);
      Apply(before, ops[|ops| - 1])
  }

  function Answers(s: Store, ops: seq<Op>): (r: seq<Block>)
    requires Valid(s) && Synced(s) && AllInRange(ops, |s.dram|)
    ensures |r| == |ops|
  {
    if |ops| == 0 then [] else
      Answers(s, ops[..|ops| - 1]) + [Answer(ApplyAll(s, ops[..|ops| - 1]), ops[|ops| - 1])]
  }

  function FlatAll(m: seq<Block>, ops: seq<Op>): (m': seq<Block>)
    requires AllInRange(ops, |m|)
    ensures |m'| == |m|
  {
    if |ops| == 0 then m else FlatApply(FlatAll(m, ops[..|ops| - 1]), ops[|ops| - 1])
  }

  /** What block `b` was last set to, if anything. */
  function LastWritten(m: seq<Block>, ops: seq<Op>, b: nat): Block
    requires b < |m|
  {
    if |ops| == 0 then m[b] else
      var op := ops[|ops| - 1];
      if (op.Write? || op.Update?) && op.b == b then op.block else LastWritten(m, ops[..|ops| - 1], b)
  }

  lemma {:induction false} FlatIsLastWritten(m: seq<Block>, ops: seq<Op>, b: nat)
    requires AllInRange(ops, |m|) && b < |m|
    ensures FlatAll(m, ops)[b] == LastWritten(m, ops, b)
  {
    if |ops| > 0 {
      FlatIsLastWritten(m, ops[..|ops| - 1], b);
    }
  }

  lemma {:induction false} AllRefines(s: Store, ops: seq<Op>)
    requires Valid(s) && Synced(s) && AllInRange(ops, |s.dram|)
    ensures Contents(ApplyAll(s, ops)) == FlatAll(Contents(s), ops)
  {
    if |ops| > 0 {
      AllRefines(s, ops[..|ops| - 1]);
      ApplyRefines(ApplyAll(s, ops[..|ops| - 1]), ops[|ops| - 1]);
      hide Apply, Contents, Valid, Synced;
    }
  }

  /**
   Through any sequence of hits, evictions and write-backs, operation `i` finds the value
   last written to its block.
   */
  lemma {:induction false} ReadsLastWritten(s: Store, ops: seq<Op>, i: nat)
    requires Valid(s) && Synced(s) && AllInRange(ops, |s.dram|)
    requires i < |ops| && !ops[i].Sync? && !ops[i].SyncAll?
    ensures Answers(s, ops)[i] == LastWritten(Contents(s), ops[..i], ops[i].b)
  {
    hide Synced, Apply, ApplyAll, Answer, Contents, FlatAll, LastWritten;
    var before := ops[..|ops| - 1];
    if i == |ops| - 1 {
      AllRefines(s, before);
      ApplyRefines(ApplyAll(s, before), ops[i]);
      FlatIsLastWritten(Contents(s), before, ops[i].b);
    } else {
      ReadsLastWritten(s, before, i);
      assert before[..i] == ops[..i];
    }
  }

  /** After a run that ends in a flush, the DRAM holds what was last written. */
  lemma {:induction false} FlushedRun(s: Store, ops: seq<Op>, b: nat)
    requires Valid(s) && Synced(s) && AllInRange(ops, |s.dram|) && b < |s.dram|
    ensures FlushFrom(ApplyAll(s, ops), 0).dram[b] == LastWritten(Contents(s), ops, b)
  {
    AllRefines(s, ops);
    FlatIsLastWritten(Contents(s), ops, b);
    FlushReachesDram(ApplyAll(s, ops));
  }

  // ----------------------------------------------- pointers held across requests

  function Requested(ops: seq<Op>): seq<nat> {
    if |ops| == 0 then [] else
      var op := ops[|ops| - 1];
      Requested(ops[..|ops| - 1]) + if op.Sync? || op.SyncAll? then [] else [op.b]
  }

  lemma {:induction false} RequestedBlocks(ops: seq<Op>, size: nat)
    requires AllInRange(ops, size)
    ensures Blocks(Requested(ops))
  {
    if |ops| > 0 {
      RequestedBlocks(ops[..|ops| - 1], size);
    }
  }

  lemma ApplyTable(s: Store, op: Op)
    requires Valid(s) && InRange(op, |s.dram|)
    ensures Apply(s, op).table == if op.Sync? || op.SyncAll? then s.table else Touch(s.table, op.b)
  {
    if !(op.Sync? || op.SyncAll?) {
      RequestContents(s, op.b, op.Write?);
    }
  }

  /** The slot table only depends on the requests. */
  lemma {:induction false} TableFollowsRequests(s: Store, pre: seq<nat>, ops: seq<Op>)
    requires Valid(s) && Synced(s) && AllInRange(ops, |s.dram|)
    requires s.table == After(|s.data|, pre)
    ensures ApplyAll(s, ops).table == After(|s.data|, pre + Requested(ops))
  {
    if |ops| == 0 {
      assert pre + Requested(ops) == pre;
    } else {
      var before, op := ops[..|ops| - 1], ops[|ops| - 1];
      TableFollowsRequests(s, pre, before);
      ApplyTable(ApplyAll(s, before), op);
      hide After, Touch, Valid, Synced, Apply;
      if op.Sync? || op.SyncAll? {
        assert Requested(ops) == Requested(before);
      } else {
        assert pre + Requested(ops) == pre + Requested(before) + [op.b];
        AfterStep(|s.data|, pre + Requested(before), op.b);
      }
    }
  }

  /** A request in a synced store keeps the contents and leaves the store synced. */
  lemma {:induction false} RequestSynced(s: Store, pre: seq<nat>, b: nat, write: bool)
    requires Valid(s) && Synced(s) && 0 < b < |s.dram| && s.table == After(|s.data|, pre)
    ensures var s' := Request(s, b, write);
            && Valid(s') && Synced(s') && |s'.dram| == |s.dram| && |s'.data| == |s.data|
            && Contents(s') == Contents(s) && s'.table == After(|s.data|, pre + [b])
  {
    RequestContents(s, b, write);
    RequestKeepsContents(s, b, write);
    AfterStep(|s.data|, pre, b);
    hide After, Touch, Find, Request, Contents;
    assert SyncedAt(s, SlotFor(s.table.slots, b));
  }

  /** After the operations the slot still holds the block. */
  lemma {:induction false} HeldSlot(n: nat, t: Table, pre: seq<nat>, b: nat, requested: seq<nat>)
    requires n > 0 && b != 0 && Blocks(pre) && Blocks(requested)
    requires |pre| + 1 + |requested| <= WRAP && |Elements(requested) - {b}| < n
    requires t == After(n, pre + [b] + requested)
    ensures t.slots[SlotFor(After(n, pre).slots, b)].bno == b
  {
    hide After, SlotFor, Elements;
    BufferStays(n, pre, b, requested);
  }

  /**
   A pointer to block `b` can be held across other operations, as long as they request
   fewer other blocks than there are slots: a store through it that is then marked dirty
   sets exactly block `b`.
   */
  lemma {:induction false} HeldPointer(s: Store, pre: seq<nat>, b: nat, write: bool, ops: seq<Op>, block: Block)
    requires Valid(s) && Synced(s) && 0 < b < |s.dram| && AllInRange(ops, |s.dram|)
    requires Blocks(pre) && s.table == After(|s.data|, pre)
    requires |pre| + 1 + |Requested(ops)| <= WRAP && |Elements(Requested(ops)) - {b}| < |s.data|
    ensures var i := SlotFor(s.table.slots, b);
            && var s0 := Request(s, b, write);
            && Valid(s0) && Synced(s0) && |s0.dram| == |s.dram| && |s0.data| == |s.data|
            && var s1 := ApplyAll(s0, ops);
            && Valid(Put(s1, i, block))
            && var s2 := MarkDirty(Put(s1, i, block), b);
            && Synced(s2) && |s2.data| == |s2.table.slots|
            && Contents(s2) == FlatAll(Contents(s), ops)[b := block]
  {
    var n := |s.data|;
    var i := SlotFor(s.table.slots, b);
    hide ApplyAll, Contents, Put, MarkDirty, FlatAll, Request, Elements, SlotFor, Find, After, Touch, Requested,
      Synced, Blocks, AllInRange;
    RequestSynced(s, pre, b, write);
    var s0 := Request(s, b, write);
    TableFollowsRequests(s0, pre + [b], ops);
    AllRefines(s0, ops);
    RequestedBlocks(ops, |s.dram|);
    var s1 := ApplyAll(s0, ops);
    HeldSlot(n, s1.table, pre, b, Requested(ops));
    PutAndMark(s1, i, block);
  }
}

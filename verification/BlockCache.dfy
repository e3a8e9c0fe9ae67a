/** Cache itself: the block table, the buffers and the DRAM, changed in place. */
module BlockCache {
  import opened CacheSlots
  import opened CacheReplacement
  import opened CacheStore
  import opened CacheRefinement

  datatype Line = Line(dirty: bool, bno: nat, stamp: nat)

  function SlotsOf(lines: seq<Line>): seq<Slot> {
    seq(|lines|, i requires 0 <= i < |lines| => Slot(lines[i].bno, lines[i].stamp))
  }

  function DirtyOf(lines: seq<Line>): seq<bool> {
    seq(|lines|, i requires 0 <= i < |lines| => lines[i].dirty)
  }

  /** The store after slot `v` was written back if need be and given to block `b`. */
  function Replaced(s: Store, v: nat, b: nat, write: bool): Store
    requires Valid(s) && v < |s.data| && b < |s.dram|
  {
    var s1 := Evicted(s, v);
    Store(Table(s.table.clock, s.table.slots[v := Slot(b, s.table.clock)]),
          s1.dirty[v := s1.dirty[v] || write], s1.data[v := s1.dram[b]], s1.dram)
  }

  function Ticked(s: Store): Store {
    s.(table := s.table.(clock := (s.table.clock + 1) % WRAP))
  }

  function Renewed(s: Store, i: nat, write: bool): Store
    requires i < |s.table.slots| == |s.dirty|
  {
    s.(table := s.table.(slots := s.table.slots[i := Slot(s.table.slots[i].bno, s.table.clock)]),
       dirty := s.dirty[i := s.dirty[i] || write])
  }

  lemma FoundSlot(s: Store, b: nat, write: bool, i: nat)
    requires Valid(s) && 0 < b < |s.dram| && i < |s.data| && s.table.slots[i].bno == b
    ensures SlotFor(s.table.slots, b) == i
    ensures Valid(Ticked(s)) && Request(s, b, write) == Renewed(Ticked(s), i, write)
  {
    FoundAt(s, i);
  }

  lemma AbsentSlot(s: Store, b: nat, write: bool)
    requires Valid(s) && 0 < b < |s.dram|
    requires forall j :: 0 <= j < |s.table.slots| ==> s.table.slots[j].bno != b
    ensures SlotFor(s.table.slots, b) == Victim(s.table.slots)
    ensures Valid(Ticked(s))
    ensures Request(s, b, write) == Replaced(Ticked(s), Victim(s.table.slots), b, write)
  {
    FindIs(s.table.slots, b, |s.data|);
  }

  lemma FlushStep(s: Store, i: nat)
    requires Valid(s) && i < |s.data|
    ensures Valid(Evicted(s, i)) && FlushFrom(s, i) == FlushFrom(Evicted(s, i), i + 1)
  {
    EvictedContents(s, i);
  }

  lemma {:induction false} FlushEnd(s: Store)
    requires Valid(s)
    ensures FlushFrom(s, |s.data|) == s
  {
  }

  class Cache {
    const blocks: array<Line>
    const data: array<Block>
    const dram: array<Block>
    var timestamp: nat

    ghost function Value(): Store
      reads this, blocks, data, dram
    {
      Store(Table(timestamp, SlotsOf(blocks[..])), DirtyOf(blocks[..]), data[..], dram[..])
    }

    ghost predicate Ready()
      reads this, blocks, data, dram
    {
      data != dram && Valid(Value())
    }

    constructor (memory: array<Block>, count: nat, buffers: array<Block>)
      requires count > 0 && buffers.Length == count && buffers != memory && memory.Length > 0
      ensures Ready() && dram == memory && data == buffers && fresh(blocks)
      ensures Value() == Fresh(buffers[..], memory[..])
    {
      blocks := new Line[count](_ => Line(false, 0, 0));
      data, dram, timestamp := buffers, memory, 0;
    }

    /** Cache::get_block; the result is the number of the slot whose buffer is returned. */
    method GetBlock(bno: nat, write: bool) returns (slot: nat)
      requires Ready() && 0 < bno < dram.Length
      modifies this, blocks, data, dram
      ensures Ready() && Value() == Request(old(Value()), bno, write)
      ensures slot == SlotFor(old(Value()).table.slots, bno)
      ensures data[slot] == Contents(old(Value()))[bno]
      ensures Value().dirty[slot] <==> write || (Resident(old(Value()), bno) && old(Value()).dirty[slot])
    {
      ghost var was := Value();
      RequestContents(was, bno, write);
      timestamp := (timestamp + 1) % WRAP;
      assert Value() == Ticked(was);
      hide Request, Resident, Find, SlotFor, Contents, Victim, Replaced, Renewed, Valid, SlotsOf, DirtyOf;
      for i := 0 to blocks.Length
        invariant Value() == Ticked(was)
        invariant forall j :: 0 <= j < i ==> blocks[j].bno != bno
      {
        if blocks[i].bno == bno {
          FoundSlot(was, bno, write, i);
          Renew(i, write);
          return i;
        }
      }
      AbsentSlot(was, bno, write);
      slot := Replace(bno, write);
    }

    /** The part of get_block that updates the slot of a resident block. */
    method Renew(i: nat, write: bool)
      requires i < blocks.Length && Ready()
      modifies blocks
      ensures Value() == Renewed(old(Value()), i, write)
    {
      blocks[i] := Line(blocks[i].dirty || write, blocks[i].bno, timestamp);
    }

    /** The part of get_block that makes room for a block which is not resident. */
    method Replace(bno: nat, write: bool) returns (slot: nat)
      requires Ready() && 0 < bno < dram.Length
      modifies blocks, data, dram
      ensures slot == Victim(SlotsOf(old(blocks[..])))
      ensures Value() == Replaced(old(Value()), slot, bno, write)
    {
      slot := FindLru();
      assert Value().table.slots[slot].bno == blocks[slot].bno;
      if blocks[slot].bno != 0 && blocks[slot].dirty {
        FlushBlock(slot);
      }
      ghost var s1 := Value();
      assert s1 == Evicted(old(Value()), slot);
      data[slot] := dram[bno];
      blocks[slot] := Line(blocks[slot].dirty || write, bno, timestamp);
    }

    /** The search for the slot to replace. */
    method FindLru() returns (lru: nat)
      requires blocks.Length > 0
      ensures lru == Victim(SlotsOf(blocks[..]))
    {
      var mints := LATEST;
      lru := 0;
      ghost var slots := SlotsOf(blocks[..]);
      for i := 0 to blocks.Length
        invariant lru < blocks.Length
        invariant VictimFrom(slots, i, lru, mints) == Victim(slots)
      {
        if blocks[i].bno == 0 {
          lru := i;
          break;
        } else if blocks[i].stamp < mints {
          lru := i;
          mints := blocks[i].stamp;
        }
      }
    }

    /** Cache::flush_block. */
    method FlushBlock(i: nat)
      requires i < blocks.Length == data.Length && blocks[i].bno < dram.Length && data != dram
      modifies blocks, dram
      ensures dram[..] == old(dram[..])[old(blocks[i].bno) := data[i]]
      ensures blocks[..] == old(blocks[..])[i := old(blocks[i]).(dirty := false)]
      ensures Value() == FlushSlot(old(Value()), i)
    {
      dram[blocks[i].bno] := data[i];
      blocks[i] := blocks[i].(dirty := false);
    }

    /** A store through the pointer that `GetBlock` returned. */
    method Overwrite(slot: nat, block: Block)
      requires Ready() && slot < data.Length
      modifies data
      ensures Ready() && Value() == Put(old(Value()), slot, block)
    {
      data[slot] := block;
    }

    method MarkDirty(bno: nat)
      requires Ready() && bno != 0
      modifies blocks
      ensures Ready() && Value() == CacheStore.MarkDirty(old(Value()), bno)
      ensures Contents(Value()) == old(Contents(Value()))
    {
      ghost var was := Value();
      MarkContents(was, bno);
      for i := 0 to blocks.Length
        invariant blocks[..] == old(blocks[..])
        invariant forall j :: 0 <= j < i ==> blocks[j].bno != bno
      {
        if blocks[i].bno == bno {
          FindIs(was.table.slots, bno, i);
          blocks[i] := blocks[i].(dirty := true);
          assert Value() == CacheStore.MarkDirty(was, bno);
          return;
        }
      }
      FindIs(was.table.slots, bno, blocks.Length);
    }

    method WriteBack(bno: nat)
      requires Ready()
      modifies blocks, dram
      ensures Ready() && Value() == CacheStore.WriteBack(old(Value()), bno)
      ensures Contents(Value()) == old(Contents(Value()))
    {
      ghost var was := Value();
      WriteBackContents(was, bno);
      for i := 0 to blocks.Length
        invariant blocks[..] == old(blocks[..]) && dram[..] == old(dram[..])
        invariant forall j :: 0 <= j < i ==> blocks[j].bno != bno || !blocks[j].dirty
      {
        if blocks[i].bno == bno && blocks[i].dirty {
          FoundAt(was, i);
          FlushBlock(i);
          return;
        }
      }
      assert CacheStore.WriteBack(was, bno) == was;
    }

    method Flush()
      requires Ready()
      modifies blocks, dram
      ensures Ready() && Value() == FlushFrom(old(Value()), 0)
      ensures Contents(Value()) == old(Contents(Value()))
      ensures Synced(old(Value())) ==> dram[..] == Contents(Value())
    {
      ghost var was := Value();
      FlushContents(was, 0);
      FlushReachesDram(was);
      hide FlushFrom, Contents, Synced;
      for i := 0 to blocks.Length
        invariant Ready() && FlushFrom(Value(), i) == FlushFrom(was, 0)
      {
        FlushStep(Value(), i);
        assert Value().table.slots[i].bno == blocks[i].bno;
        if blocks[i].dirty {
          FlushBlock(i);
        }
      }
      FlushEnd(Value());
    }

    /** A run of operations answers as the flat store of the contents would. */
    method Serve(ops: seq<Op>) returns (answers: seq<Block>)
      requires Ready() && Synced(Value()) && AllInRange(ops, dram.Length)
      modifies this, blocks, data, dram
      ensures Ready() && Value() == ApplyAll(old(Value()), ops) && answers == Answers(old(Value()), ops)
      ensures Contents(Value()) == FlatAll(old(Contents(Value())), ops)
    {
      ghost var was := Value();
      AllRefines(was, ops);
      answers := [];
      for i := 0 to |ops|
        invariant Ready() && AllInRange(ops[..i], |was.dram|)
        invariant Value() == ApplyAll(was, ops[..i]) && answers == Answers(was, ops[..i])
      {
        assert ops[..i + 1][..i] == ops[..i];
        ghost var now := Value();
        var answer := Perform(ops[i]);
        answers := answers + [answer];
      }
      assert ops[..|ops|] == ops;
    }

    method Perform(op: Op) returns (answer: Block)
      requires Ready() && Synced(Value()) && InRange(op, dram.Length)
      modifies this, blocks, data, dram
      ensures Ready() && Value() == Apply(old(Value()), op) && answer == Answer(old(Value()), op)
    {
      answer := [];
      match op {
        case Read(b) =>
          var slot := GetBlock(b, false);
          answer := data[slot];
        case Write(b, block) =>
          var slot := GetBlock(b, true);
          answer := data[slot];
          Overwrite(slot, block);
        case Update(b, block) =>
          var slot := GetBlock(b, false);
          answer := data[slot];
          Overwrite(slot, block);
          MarkDirty(b);
        case Sync(b) =>
          WriteBack(b);
        case SyncAll =>
          Flush();
      }
    }
  }
}

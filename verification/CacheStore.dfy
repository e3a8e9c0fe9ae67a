/**
 The m3fs block cache as a store of blocks: the slot table of CacheSlots, a dirty flag and
 a buffer per slot, and the DRAM behind them. It refines a flat store of blocks.
 */
module CacheStore {
  import opened CacheSlots
  import opened CacheReplacement
  import opened CacheLimits

  type Block = seq<bv8>

  datatype Store = Store(table: Table, dirty: seq<bool>, data: seq<Block>, dram: seq<Block>)

  ghost predicate Valid(s: Store) {
    && 0 < |s.table.slots| == |s.dirty| == |s.data|
    && (forall i {:trigger s.table.slots[i]} :: 0 <= i < |s.data| ==>
          s.table.slots[i].bno < |s.dram| && (s.dirty[i] ==> s.table.slots[i].bno != 0))
    && (forall i, j :: 0 <= i < j < |s.data| && s.table.slots[i].bno != 0 ==>
          s.table.slots[i].bno != s.table.slots[j].bno)
  }

  function Fresh(data: seq<Block>, dram: seq<Block>): Store {
    Store(Empty(|data|), seq(|data|, _ => false), data, dram)
  }

  /** What a reader of block `b` is meant to see. */
  function ContentOf(s: Store, b: nat): Block
    requires |s.data| == |s.table.slots| && b < |s.dram|
  {
    var i := Find(s.table.slots, b);
    if b != 0 && i < |s.data| then s.data[i] else s.dram[b]
  }

  function Contents(s: Store): (m: seq<Block>)
    requires |s.data| == |s.table.slots|
    ensures |m| == |s.dram|
    ensures forall b {:trigger m[b]} :: 0 <= b < |m| ==> m[b] == ContentOf(s, b)
  {
    seq(|s.dram|, b requires 0 <= b < |s.dram| => ContentOf(s, b))
  }

  /** The buffer in slot `i` and the DRAM agree, or the slot is marked for writing back. */
  ghost predicate SyncedAt(s: Store, i: nat)
    requires i < |s.data| == |s.table.slots| == |s.dirty|
  {
    var b := s.table.slots[i].bno;
    b != 0 && !s.dirty[i] ==> b < |s.dram| && s.data[i] == s.dram[b]
  }

  ghost predicate Synced(s: Store)
    requires |s.data| == |s.table.slots| == |s.dirty|
  {
    forall i :: 0 <= i < |s.data| ==> SyncedAt(s, i)
  }

  // ------------------------------------------------------------ the operations

  /** Cache::flush_block. */
  function FlushSlot(s: Store, i: nat): Store
    requires i < |s.data| == |s.table.slots| == |s.dirty| && s.table.slots[i].bno < |s.dram|
  {
    s.(dram := s.dram[s.table.slots[i].bno := s.data[i]], dirty := s.dirty[i := false])
  }

  /** Cache::get_block. */
  function Request(s: Store, b: nat, write: bool): Store
    requires Valid(s) && b < |s.dram|
  {
    var v := SlotFor(s.table.slots, b);
    var t := Touch(s.table, b);
    if Find(s.table.slots, b) < |s.data| then
      s.(table := t, dirty := s.dirty[v := s.dirty[v] || write])
    else
      var s1 := if s.dirty[v] then FlushSlot(s, v) else s;
      Store(t, s1.dirty[v := s1.dirty[v] || write], s1.data[v := s1.dram[b]], s1.dram)
  }

  /** A store through the pointer to slot `i`. */
  function Put(s: Store, i: nat, block: Block): Store
    requires i < |s.data|
  {
    s.(data := s.data[i := block])
  }

  /** Cache::mark_dirty. */
  function MarkDirty(s: Store, b: nat): Store
    requires Valid(s)
  {
    var i := Find(s.table.slots, b);
    if i < |s.data| then s.(dirty := s.dirty[i := true]) else s
  }

  /** Cache::write_back. */
  function WriteBack(s: Store, b: nat): Store
    requires Valid(s)
  {
    var i := Find(s.table.slots, b);
    if i < |s.data| && s.dirty[i] then FlushSlot(s, i) else s
  }

  /** Cache::flush, from slot `i` on. */
  function FlushFrom(s: Store, i: nat): (r: Store)
    requires Valid(s) && i <= |s.data|
    ensures |r.dirty| == |r.data| == |s.data| && r.table == s.table && r.data == s.data && |r.dram| == |s.dram|
    decreases |s.data| - i
  {
    if i == |s.data| then s else FlushFrom(if s.dirty[i] then FlushSlot(s, i) else s, i + 1)
  }

  // ------------------------------------------- what they do to the contents

  lemma FoundAt(s: Store, i: nat)
    requires Valid(s) && i < |s.data| && s.table.slots[i].bno != 0
    ensures Find(s.table.slots, s.table.slots[i].bno) == i
    ensures ContentOf(s, s.table.slots[i].bno) == s.data[i]
  {
    FindIs(s.table.slots, s.table.slots[i].bno, i);
  }

  /** Writing a slot back changes neither the contents nor what is in step with the DRAM. */
  lemma FlushSlotContents(s: Store, i: nat)
    requires Valid(s) && i < |s.data| && s.table.slots[i].bno != 0
    ensures Valid(FlushSlot(s, i)) && Contents(FlushSlot(s, i)) == Contents(s)
    ensures SyncedAt(FlushSlot(s, i), i)
    ensures forall j {:trigger SyncedAt(FlushSlot(s, i), j)} :: 0 <= j < |s.data| && j != i ==>
              (SyncedAt(FlushSlot(s, i), j) <==> SyncedAt(s, j))
  {
    hide Find;
    var s' := FlushSlot(s, i);
    FoundAt(s, i);
    forall b | 0 <= b < |s.dram| ensures ContentOf(s', b) == ContentOf(s, b) {
    }
  }

  /** A hit returns the block, and changes no contents. */
  lemma {:induction false} HitContents(s: Store, b: nat, write: bool)
    requires Valid(s) && 0 < b < |s.dram| && Find(s.table.slots, b) < |s.data|
    ensures var s' := Request(s, b, write);
            && Valid(s') && Contents(s') == Contents(s)
            && SlotFor(s.table.slots, b) == Find(s.table.slots, b)
            && s'.data[SlotFor(s.table.slots, b)] == Contents(s)[b]
            && (Synced(s) ==> Synced(s'))
  {
    var s' := Request(s, b, write);
    var v := Find(s.table.slots, b);
    SlotForHit(s.table.slots, b);
    TouchPlaced(s.table, b);
    hide Find, SlotFor, Touch;
    forall i | 0 <= i < |s.data| ensures s'.table.slots[i].bno == s.table.slots[i].bno {
    }
    forall x | 0 <= x < |s.dram| ensures ContentOf(s', x) == ContentOf(s, x) {
      SameFind(s.table.slots, s'.table.slots, x);
    }
    if Synced(s) {
      forall i | 0 <= i < |s.data| ensures SyncedAt(s', i) {
        assert SyncedAt(s, i);
      }
    }
  }

  lemma {:induction false} SameFind(slots: seq<Slot>, slots': seq<Slot>, x: nat)
    requires |slots| == |slots'| && forall i :: 0 <= i < |slots| ==> slots[i].bno == slots'[i].bno
    ensures Find(slots', x) == Find(slots, x)
  {
    FindIs(slots', x, Find(slots, x));
  }

  /** The slot `v` is given to block `b`, which was not resident, without writing anything back. */
  function Load(s: Store, v: nat, b: nat, write: bool): Store
    requires v < |s.data| == |s.dirty| && b < |s.dram| && |s.table.slots| > 0
  {
    Store(Touch(s.table, b), s.dirty[v := s.dirty[v] || write], s.data[v := s.dram[b]], s.dram)
  }

  lemma {:induction false} LoadValid(s: Store, b: nat, write: bool)
    requires Valid(s) && 0 < b < |s.dram| && Find(s.table.slots, b) == |s.data|
    requires !s.dirty[SlotFor(s.table.slots, b)]
    ensures Valid(Load(s, SlotFor(s.table.slots, b), b, write))
    ensures Synced(s) ==> Synced(Load(s, SlotFor(s.table.slots, b), b, write))
  {
    var v := SlotFor(s.table.slots, b);
    var s' := Load(s, v, b, write);
    TouchPlaced(s.table, b);
    hide Find, SlotFor, Touch;
    forall i | 0 <= i < |s.data| ensures s.table.slots[i].bno != b {
    }
    if Synced(s) {
      forall i | 0 <= i < |s.data| ensures SyncedAt(s', i) {
        assert SyncedAt(s, i);
      }
    }
  }

  /** What loading makes of block `x`: the block that was in the slot is read from DRAM again. */
  lemma {:induction false} LoadContent(s: Store, b: nat, write: bool, x: nat)
    requires Valid(s) && 0 < b < |s.dram| && Find(s.table.slots, b) == |s.data| && x < |s.dram|
    ensures var v := SlotFor(s.table.slots, b);
            ContentOf(Load(s, v, b, write), x)
            == if x == s.table.slots[v].bno then s.dram[x] else ContentOf(s, x)
  {
    var v := SlotFor(s.table.slots, b);
    var s' := Load(s, v, b, write);
    TouchPlaced(s.table, b);
    hide Find, SlotFor, Touch;
    if x == b || x != s.table.slots[v].bno {
      PlacedFind(s.table, s'.table, b, v, x);
    }
  }

  /** The content of the evicted block, if any, after a request for `b`. */
  function Reloaded(s: Store, b: nat): seq<Block>
    requires Valid(s) && b < |s.dram|
  {
    var v := SlotFor(s.table.slots, b);
    var old' := s.table.slots[v].bno;
    if Find(s.table.slots, b) < |s.data| || s.dirty[v] then Contents(s) else Contents(s)[old' := s.dram[old']]
  }

  /** The store whose slot `v` has been written back if it was dirty. */
  function Evicted(s: Store, v: nat): Store
    requires Valid(s) && v < |s.data|
  {
    if s.dirty[v] then FlushSlot(s, v) else s
  }

  lemma EvictedContents(s: Store, v: nat)
    requires Valid(s) && v < |s.data|
    ensures var s1 := Evicted(s, v);
            && Valid(s1) && s1.table == s.table && s1.data == s.data && |s1.dram| == |s.dram|
            && !s1.dirty[v]
            && Contents(s1) == Contents(s) && (Synced(s) ==> Synced(s1))
            && (s.dirty[v] ==> s1.dram[s.table.slots[v].bno] == Contents(s)[s.table.slots[v].bno])
            && (!s.dirty[v] ==> s1.dram == s.dram)
  {
    if s.dirty[v] {
      FlushSlotContents(s, v);
      FoundAt(s, v);
      hide Find, ContentOf;
      if Synced(s) {
        forall j | 0 <= j < |s.data| ensures SyncedAt(FlushSlot(s, v), j) {
          assert SyncedAt(s, j);
        }
      }
    }
  }

  lemma {:induction false} NotResident(s: Store, b: nat)
    requires Valid(s) && b < |s.dram| && Find(s.table.slots, b) == |s.data|
    ensures Contents(s)[b] == s.dram[b]
  {
  }

  lemma {:induction false} MissContents(s: Store, b: nat, write: bool)
    requires Valid(s) && 0 < b < |s.dram| && Find(s.table.slots, b) == |s.data|
    ensures var v := SlotFor(s.table.slots, b);
            var s' := Load(Evicted(s, v), v, b, write);
            && |s'.data| == |s'.table.slots| && |s'.dram| == |s.dram|
            && Contents(s') == Reloaded(s, b) && s'.data[v] == Contents(s)[b]
  {
    var v := SlotFor(s.table.slots, b);
    var s1 := Evicted(s, v);
    var s' := Load(s1, v, b, write);
    EvictedContents(s, v);
    NotResident(s1, b);
    assert |s'.table.slots| == |s'.data|;
    assert s'.data[v] == s1.dram[b];
    hide Find, SlotFor, Touch, ContentOf, FlushSlot, Evicted, Load, Valid;
    forall x | 0 <= x < |s.dram| ensures ContentOf(s', x) == Reloaded(s, b)[x] {
      LoadContent(s1, b, write, x);
      assert Contents(s1)[x] == Contents(s)[x] == ContentOf(s1, x);
    }
  }

  /** Some slot holds block `b`. */
  predicate Resident(s: Store, b: nat) {
    exists i :: 0 <= i < |s.table.slots| && s.table.slots[i].bno == b
  }

  /**
   What a request does to flags, buffers and DRAM: the slot of the block is dirty afterwards
   if it is requested for writing or was dirty with the block in it. Only its buffer
   changes. The DRAM changes only if a dirty block has to make room, and then just there.
   */
  lemma RequestFrame(s: Store, b: nat, write: bool)
    requires Valid(s) && 0 < b < |s.dram|
    ensures var s' := Request(s, b, write);
            var v := SlotFor(s.table.slots, b);
            && |s'.dirty| == |s'.data| == |s.data| && |s'.dram| == |s.dram|
            && (s'.dirty[v] <==> write || (Resident(s, b) && s.dirty[v]))
            && (forall j :: 0 <= j < |s.data| && j != v ==> s'.dirty[j] == s.dirty[j] && s'.data[j] == s.data[j])
            && (Resident(s, b) || !s.dirty[v] ==> s'.dram == s.dram)
            && (!Resident(s, b) && s.dirty[v] ==> s'.dram == s.dram[s.table.slots[v].bno := s.data[v]])
  {
    assert Resident(s, b) <==> Find(s.table.slots, b) < |s.data|;
    hide Find, SlotFor, Touch;
  }

  /**
   A request returns the block's content. The contents stay as they are, except that
   evicting a slot that is not marked dirty brings back the block's DRAM copy.
   */
  lemma RequestContents(s: Store, b: nat, write: bool)
    requires Valid(s) && 0 < b < |s.dram|
    ensures var s' := Request(s, b, write);
            var v := SlotFor(s.table.slots, b);
            && Valid(s') && |s'.dram| == |s.dram| && |s'.data| == |s.data|
            && s'.table == Touch(s.table, b)
            && Contents(s') == Reloaded(s, b)
            && s'.data[v] == Contents(s)[b] && s'.table.slots[v].bno == b
            && (s'.dirty[v] <==> write || (Resident(s, b) && s.dirty[v]))
            && (Synced(s) ==> Synced(s'))
  {
    var v := SlotFor(s.table.slots, b);
    TouchPlaced(s.table, b);
    RequestFrame(s, b, write);
    hide Resident;
    if Find(s.table.slots, b) < |s.data| {
      HitContents(s, b, write);
    } else {
      EvictedContents(s, v);
      MissContents(s, b, write);
      LoadValid(Evicted(s, v), b, write);
      assert Request(s, b, write) == Load(Evicted(s, v), v, b, write);
      hide Find, SlotFor, Touch, ContentOf, FlushSlot, Evicted;
    }
  }
}

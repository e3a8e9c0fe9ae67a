/**
 Capability tables, and the system calls that create capabilities from others: the
 exchange of a range of capabilities, the request of memory and the derivation of memory
 capabilities. Selectors and counts are 32 bits wide, sizes and offsets 64 bits.
 */
module Capabilities {
  import opened Common

  const SELECTORS: nat := 0x1_0000_0000
  const WORD: nat := 0x1_0000_0000_0000_0000

  /** A slot of a capability table; as a key it names the capability in it. */
  datatype Key = Key(tbl: nat, sel: nat)

  /** A memory label: the upper 61 bits, and the three that hold the permissions. */
  datatype Label = Label(high: nat, low: bv3)

  datatype Object =
    | Service(id: nat)
    | Session(id: nat)
    | Gate(id: nat)
    | Vpe(id: nat)
    | Memory(tag: Label, size: nat)

  datatype Cap = Cap(obj: Object, parent: Option<Key>, children: seq<Key>)

  type Caps = map<Key, Cap>

  datatype RangeType = ObjRange | MapRange
  datatype Range = Range(typ: RangeType, start: nat, count: nat)
  {
    ghost predicate Fits() {
      start < SELECTORS && count < SELECTORS
    }
  }

  datatype Code = NoError | InvalidArgs | OutOfMemory

  predicate Cloneable(obj: Object) {
    !obj.Service?
  }

  // --------------------------------------------------------- exchanging ranges

  predicate RangeValid(r: Range) {
    r.count == 0 || (r.start + r.count) % SELECTORS > r.start
  }

  predicate RangeUnused(caps: Caps, tbl: nat, r: Range) {
    RangeValid(r) && forall i | r.start <= i < r.start + r.count :: Key(tbl, i) !in caps
  }

  /** CapTable::obtain within one kernel: clone, link as child, fill the slot. */
  function Obtain(caps: Caps, dst: Key, src: Key): Caps {
    if src !in caps || !Cloneable(caps[src].obj) then caps
    else
      var parent := caps[src];
      caps[dst := Cap(parent.obj, Some(src), [])][src := parent.(children := [dst] + parent.children)]
  }

  function DstKey(dst: nat, start: nat, i: nat): Key {
    Key(dst, start + i)
  }

  /** The source selectors are not checked, so they may wrap around. */
  function SrcKey(src: nat, start: nat, i: nat): Key {
    Key(src, (start + i) % SELECTORS)
  }

  /** From where an exchange copies, and to where. */
  datatype Route = Route(dst: nat, dstStart: nat, src: nat, srcStart: nat)

  function RouteOf(v1: nat, v2: nat, c1: Range, c2: Range, obtain: bool): Route {
    if obtain then Route(v1, c1.start, v2, c2.start) else Route(v2, c2.start, v1, c1.start)
  }

  /** The tables after the first `n` rounds of the loop of do_exchange. */
  function Exchanged(caps: Caps, r: Route, n: nat): Caps {
    if n == 0 then caps
    else Obtain(Exchanged(caps, r, n - 1), DstKey(r.dst, r.dstStart, n - 1), SrcKey(r.src, r.srcStart, n - 1))
  }

  /** At least one of the ranges is of object capabilities. */
  predicate ForObjects(c1: Range, c2: Range) {
    c1.typ == ObjRange || c2.typ == ObjRange
  }

  /** Whether do_exchange accepts its arguments. */
  predicate Acceptable(caps: Caps, v1: nat, v2: nat, c1: Range, c2: Range, obtain: bool) {
    && c1.typ == c2.typ
    && (if obtain then c2.count <= c1.count else c2.count == c1.count)
    && RangeUnused(caps, if obtain then v1 else v2, if obtain then c1 else c2)
  }

  /** SyscallHandler::do_exchange on object capabilities. */
  function DoExchange(caps: Caps, v1: nat, v2: nat, c1: Range, c2: Range, obtain: bool): Caps
    requires ForObjects(c1, c2)
  {
    if !Acceptable(caps, v1, v2, c1, c2, obtain) then caps
    else Exchanged(caps, RouteOf(v1, v2, c1, c2, obtain), c2.count)
  }

  // ------------------------------------------------------------------- memory

  function LowBits(x: nat): bv3 {
    (x % 8) as bv3
  }

  /** The label of a memory object: the address with the permissions in its low bits. */
  function MakeLabel(addr: nat, perms: bv3): Label {
    Label(addr / 8, LowBits(addr) | perms)
  }

  function Start(obj: Object): nat
    requires obj.Memory?
  {
    obj.tag.high * 8
  }

  function End(obj: Object): nat
    requires obj.Memory?
  {
    Start(obj) + obj.size
  }

  function Perms(obj: Object): bv3
    requires obj.Memory?
  {
    obj.tag.low
  }

  predicate Within(a: bv3, b: bv3) {
    a & b == a
  }

  /** What a memory object is built from: an aligned range of the address space. */
  predicate Sound(addr: nat, size: nat) {
    addr % 8 == 0 && addr + size <= WORD
  }

  predicate MayRequest(caps: Caps, tbl: nat, sel: nat, size: nat, perms: int) {
    Key(tbl, sel) !in caps && size != 0 && size % 8 == 0 && 0 < perms < 8
  }

  /** SyscallHandler::reqmem, given the address that the allocator finds, if any. */
  function ReqMem(caps: Caps, tbl: nat, sel: nat, size: nat, perms: int, alloc: Option<nat>): Caps {
    if !MayRequest(caps, tbl, sel, size, perms) || alloc.None? then caps
    else caps[Key(tbl, sel) := Cap(Memory(MakeLabel(alloc.value, perms as bv3), size), None, [])]
  }

  predicate MayDerive(caps: Caps, tbl: nat, src: nat, dst: nat, offset: nat, size: nat, perms: int) {
    && Key(tbl, src) in caps && caps[Key(tbl, src)].obj.Memory? && Key(tbl, dst) !in caps
    && (offset + size) % WORD >= offset && (offset + size) % WORD <= caps[Key(tbl, src)].obj.size
    && size != 0 && 0 <= perms < 8
  }

  function DerivedObject(obj: Object, offset: nat, size: nat, perms: bv3): Object
    requires obj.Memory?
  {
    Memory(MakeLabel((Start(obj) + offset) % WORD, perms & Perms(obj)), size)
  }

  /** SyscallHandler::derivemem. */
  function DeriveMem(caps: Caps, tbl: nat, src: nat, dst: nat, offset: nat, size: nat, perms: int): Caps {
    if !MayDerive(caps, tbl, src, dst, offset, size, perms) then caps
    else
      var c := Obtain(caps, Key(tbl, dst), Key(tbl, src));
      c[Key(tbl, dst) := c[Key(tbl, dst)].(obj := DerivedObject(caps[Key(tbl, src)].obj, offset, size, perms as bv3))]
  }
}

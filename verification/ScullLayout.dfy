/**
How a scull device lays out its bytes in kernel memory.

Kernel memory is a map from addresses to live blocks; address 0 is NULL. A device owns a
linked list of nodes, each of which may point to an array of `qset` slots, each of which may
point to a quantum of `quantum` bytes. The ghost map `owner` records for which place of which
device a block was allocated; the shape invariant ties it to the pointers in both directions,
which makes the live blocks of a device exactly the ones reachable from it.
*/
module ScullLayout {
  import opened Addressing
  import opened Kernel

  type Ptr = nat

  const NULL: Ptr := 0

  datatype Block =
    | Node(data: Ptr, next: Ptr)
    | Slots(ptrs: seq<Ptr>)
    | Quantum(bytes: seq<byte>)

  datatype Place = NodeAt(item: nat) | SlotsAt(item: nat) | QuantumAt(item: nat, slot: nat)

  datatype Owner = Owner(dev: object, place: Place)

  /** Everything the contents of device `me` depend on; `nodes` lists its nodes in order. */
  datatype Layout = Layout(
    blocks: map<Ptr, Block>, owner: map<Ptr, Owner>,
    me: object, nodes: seq<Ptr>, quantum: nat, qset: nat)

  // Shape

  function NodeData(blocks: map<Ptr, Block>, p: Ptr): Ptr {
    if p in blocks && blocks[p].Node? then blocks[p].data else NULL
  }

  function SlotOf(blocks: map<Ptr, Block>, p: Ptr, slot: nat): Ptr {
    if p in blocks && blocks[p].Slots? && slot < |blocks[p].ptrs| then blocks[p].ptrs[slot] else NULL
  }

  function NextOf(nodes: seq<Ptr>, i: nat): Ptr {
    if i + 1 < |nodes| then nodes[i + 1] else NULL
  }

  /** The quantum of a slot, NULL if the device has none there. */
  function QuantumPtr(l: Layout, item: nat, slot: nat): Ptr {
    if item < |l.nodes| then SlotOf(l.blocks, NodeData(l.blocks, l.nodes[item]), slot) else NULL
  }

  ghost predicate Owned(l: Layout, p: Ptr, place: Place) {
    p in l.blocks && p in l.owner && l.owner[p] == Owner(l.me, place)
  }

  ghost predicate NodeOk(l: Layout, i: nat)
    requires i < |l.nodes|
  {
    var p := l.nodes[i];
    && Owned(l, p, NodeAt(i))
    && l.blocks[p].Node? && l.blocks[p].next == NextOf(l.nodes, i)
  }

  ghost predicate SlotsOk(l: Layout, i: nat)
    requires i < |l.nodes|
  {
    var d := NodeData(l.blocks, l.nodes[i]);
    d != NULL ==> Owned(l, d, SlotsAt(i)) && l.blocks[d].Slots? && |l.blocks[d].ptrs| == l.qset
  }

  ghost predicate QuantumOk(l: Layout, i: nat, slot: nat) {
    var q := QuantumPtr(l, i, slot);
    q != NULL ==> Owned(l, q, QuantumAt(i, slot)) && l.blocks[q].Quantum? && |l.blocks[q].bytes| == l.quantum
  }

  /** The device's own pointers lead to `p` at the place it was allocated for. */
  ghost predicate Reached(l: Layout, p: Ptr, place: Place) {
    match place
    case NodeAt(i) => i < |l.nodes| && l.nodes[i] == p
    case SlotsAt(i) => i < |l.nodes| && NodeData(l.blocks, l.nodes[i]) == p
    case QuantumAt(i, slot) => QuantumPtr(l, i, slot) == p
  }

  ghost predicate NothingLeaked(l: Layout) {
    forall p :: p in l.blocks && p in l.owner && l.owner[p].dev == l.me ==> Reached(l, p, l.owner[p].place)
  }

  /** Every pointer is good, every block has its proper length, and no block is lost. */
  ghost predicate Shape(l: Layout) {
    && l.quantum > 0 && l.qset > 0
    && NULL !in l.blocks && l.owner.Keys == l.blocks.Keys
    && (forall i :: 0 <= i < |l.nodes| ==> NodeOk(l, i))
    && (forall i :: 0 <= i < |l.nodes| ==> SlotsOk(l, i))
    && (forall i: nat, slot: nat :: QuantumOk(l, i, slot))
    && NothingLeaked(l)
  }

  /** The byte stored at an address, if its quantum exists. */
  function ByteAt(l: Layout, a: Address): Option<byte> {
    var q := QuantumPtr(l, a.item, a.slot);
    if q in l.blocks && l.blocks[q].Quantum? && a.offset < |l.blocks[q].bytes|
    then Some(l.blocks[q].bytes[a.offset])
    else None
  }

  ghost predicate SameBytes(l: Layout, l': Layout) {
    && l'.quantum == l.quantum && l'.qset == l.qset
    && forall a :: ByteAt(l', a) == ByteAt(l, a)
  }

  /** Blocks of other devices are left alone, and no new block belongs to another device. */
  ghost predicate OthersKept(l: Layout, l': Layout) {
    && (forall p :: p in l.blocks && p in l.owner && l.owner[p].dev != l.me ==>
          p in l'.blocks && p in l'.owner && l'.blocks[p] == l.blocks[p] && l'.owner[p] == l.owner[p])
    && (forall p :: p in l'.blocks && p in l'.owner && l'.owner[p].dev != l.me ==>
          p in l.blocks && p in l.owner && l.owner[p] == l'.owner[p])
  }

  lemma OthersKeptTransitive(l: Layout, l': Layout, l'': Layout)
    requires OthersKept(l, l') && OthersKept(l', l'') && l'.me == l.me
    ensures OthersKept(l, l'')
  {
  }

  ghost predicate Fresh(l: Layout, p: Ptr) {
    p != NULL && p !in l.blocks
  }

  // Growing a device, one allocation at a time

  /** A zeroed node is allocated at `p` and linked behind the last one. */
  function AppendNode(l: Layout, p: Ptr): Layout {
    var linked :=
      if l.nodes == [] then l.blocks
      else
        var last := l.nodes[|l.nodes| - 1];
        l.blocks[last := Node(NodeData(l.blocks, last), p)];
    l.(blocks := linked[p := Node(NULL, NULL)],
       owner := l.owner[p := Owner(l.me, NodeAt(|l.nodes|))],
       nodes := l.nodes + [p])
  }

  /** A zeroed slot array is allocated at `p` for list item `i`. */
  function AttachSlots(l: Layout, i: nat, p: Ptr): Layout
    requires i < |l.nodes|
  {
    l.(blocks := l.blocks[p := Slots(seq(l.qset, _ => NULL))][l.nodes[i] := Node(p, NextOf(l.nodes, i))],
       owner := l.owner[p := Owner(l.me, SlotsAt(i))])
  }

  /** A quantum holding `junk` is allocated at `p` for slot `slot` of item `i`. */
  function AttachQuantum(l: Layout, i: nat, slot: nat, p: Ptr, junk: seq<byte>): Layout
    requires i < |l.nodes|
    requires var d := NodeData(l.blocks, l.nodes[i]); d in l.blocks && l.blocks[d].Slots? && slot < |l.blocks[d].ptrs|
  {
    var d := NodeData(l.blocks, l.nodes[i]);
    l.(blocks := l.blocks[p := Quantum(junk)][d := Slots(l.blocks[d].ptrs[slot := p])],
       owner := l.owner[p := Owner(l.me, QuantumAt(i, slot))])
  }

  lemma AppendNodeKeepsPointers(l: Layout, p: Ptr, i: nat, slot: nat)
    requires Shape(l) && Fresh(l, p)
    ensures QuantumPtr(AppendNode(l, p), i, slot) == QuantumPtr(l, i, slot)
    ensures i <= |l.nodes| ==> NodeOk(AppendNode(l, p), i) && SlotsOk(AppendNode(l, p), i)
    ensures QuantumOk(AppendNode(l, p), i, slot)
  {
    if l.nodes != [] {
      assert NodeOk(l, |l.nodes| - 1);
    }
    assert QuantumOk(l, i, slot);
    if i < |l.nodes| {
      assert NodeOk(l, i) && SlotsOk(l, i);
    }
  }

  lemma AppendNodeLeaksNothing(l: Layout, p: Ptr)
    requires Shape(l) && Fresh(l, p)
    requires forall i: nat, slot: nat :: QuantumPtr(AppendNode(l, p), i, slot) == QuantumPtr(l, i, slot)
    ensures NothingLeaked(AppendNode(l, p)) && OthersKept(l, AppendNode(l, p))
  {
    var l' := AppendNode(l, p);
    if l.nodes != [] {
      assert NodeOk(l, |l.nodes| - 1);
    }
    forall q | q in l'.blocks && q in l'.owner && l'.owner[q].dev == l.me
      ensures Reached(l', q, l'.owner[q].place)
    {
      if q != p {
        assert Reached(l, q, l.owner[q].place);
        if l.owner[q].place.SlotsAt? {
          assert NodeOk(l, l.owner[q].place.item);
        }
      }
    }
  }

  lemma AppendNodeKeepsShape(l: Layout, p: Ptr)
    requires Shape(l) && Fresh(l, p)
    ensures Shape(AppendNode(l, p)) && SameBytes(l, AppendNode(l, p)) && OthersKept(l, AppendNode(l, p))
  {
    var l' := AppendNode(l, p);
    forall i: nat, slot: nat
      ensures QuantumPtr(l', i, slot) == QuantumPtr(l, i, slot) && QuantumOk(l', i, slot)
    {
      AppendNodeKeepsPointers(l, p, i, slot);
    }
    forall i | 0 <= i < |l'.nodes|
      ensures NodeOk(l', i) && SlotsOk(l', i)
    {
      AppendNodeKeepsPointers(l, p, i, 0);
    }
    AppendNodeLeaksNothing(l, p);
    if l.nodes != [] {
      assert NodeOk(l, |l.nodes| - 1);
    }
    forall a: Address
      ensures ByteAt(l', a) == ByteAt(l, a)
    {
      assert QuantumOk(l, a.item, a.slot);
    }
  }

  lemma AttachSlotsKeepsPointers(l: Layout, i: nat, p: Ptr, j: nat, slot: nat)
    requires Shape(l) && Fresh(l, p) && i < |l.nodes| && NodeData(l.blocks, l.nodes[i]) == NULL
    ensures QuantumPtr(AttachSlots(l, i, p), j, slot) == QuantumPtr(l, j, slot)
    ensures j < |l.nodes| ==> NodeOk(AttachSlots(l, i, p), j) && SlotsOk(AttachSlots(l, i, p), j)
    ensures QuantumOk(AttachSlots(l, i, p), j, slot)
  {
    assert NodeOk(l, i) && QuantumOk(l, j, slot);
    if j < |l.nodes| {
      assert NodeOk(l, j) && SlotsOk(l, j);
    }
  }

  lemma AttachSlotsKeepsShape(l: Layout, i: nat, p: Ptr)
    requires Shape(l) && Fresh(l, p) && i < |l.nodes| && NodeData(l.blocks, l.nodes[i]) == NULL
    ensures Shape(AttachSlots(l, i, p)) && SameBytes(l, AttachSlots(l, i, p)) && OthersKept(l, AttachSlots(l, i, p))
  {
    var l' := AttachSlots(l, i, p);
    assert NodeOk(l, i);
    forall j: nat, slot: nat
      ensures QuantumPtr(l', j, slot) == QuantumPtr(l, j, slot) && QuantumOk(l', j, slot)
    {
      AttachSlotsKeepsPointers(l, i, p, j, slot);
    }
    forall j | 0 <= j < |l.nodes|
      ensures NodeOk(l', j) && SlotsOk(l', j)
    {
      AttachSlotsKeepsPointers(l, i, p, j, 0);
    }
    forall q | q in l'.blocks && l'.owner[q].dev == l.me
      ensures Reached(l', q, l'.owner[q].place)
    {
      if q != p {
        assert Reached(l, q, l.owner[q].place);
      }
    }
    forall a: Address
      ensures ByteAt(l', a) == ByteAt(l, a)
    {
      assert QuantumOk(l, a.item, a.slot);
    }
  }

  lemma AttachQuantumKeepsPointers(l: Layout, i: nat, slot: nat, p: Ptr, junk: seq<byte>, j: nat, t: nat)
    requires Shape(l) && Fresh(l, p) && i < |l.nodes| && slot < l.qset && |junk| == l.quantum
    requires NodeData(l.blocks, l.nodes[i]) != NULL && QuantumPtr(l, i, slot) == NULL
    ensures SlotsOk(l, i)
    ensures
      var l' := AttachQuantum(l, i, slot, p, junk);
      && QuantumPtr(l', j, t) == (if j == i && t == slot then p else QuantumPtr(l, j, t))
      && (j < |l.nodes| ==>
            && NodeOk(l', j) && SlotsOk(l', j)
            && NodeData(l'.blocks, l'.nodes[j]) == NodeData(l.blocks, l.nodes[j]))
      && QuantumOk(l', j, t)
  {
    assert NodeOk(l, i) && SlotsOk(l, i) && QuantumOk(l, j, t);
    if j < |l.nodes| {
      assert NodeOk(l, j) && SlotsOk(l, j);
    }
  }

  lemma AttachQuantumKeepsShape(l: Layout, i: nat, slot: nat, p: Ptr, junk: seq<byte>)
    requires Shape(l) && Fresh(l, p) && i < |l.nodes| && slot < l.qset && |junk| == l.quantum
    requires NodeData(l.blocks, l.nodes[i]) != NULL && QuantumPtr(l, i, slot) == NULL
    ensures SlotsOk(l, i)
    ensures
      var l' := AttachQuantum(l, i, slot, p, junk);
      && Shape(l') && OthersKept(l, l') && QuantumPtr(l', i, slot) == p
      && forall a :: ByteAt(l', a) == ByteAt(l, a) || (ByteAt(l, a) == None && a.item == i && a.slot == slot)
  {
    assert NodeOk(l, i) && SlotsOk(l, i);
    var l' := AttachQuantum(l, i, slot, p, junk);
    forall j: nat, t: nat
      ensures QuantumPtr(l', j, t) == (if j == i && t == slot then p else QuantumPtr(l, j, t)) && QuantumOk(l', j, t)
    {
      AttachQuantumKeepsPointers(l, i, slot, p, junk, j, t);
    }
    forall j | 0 <= j < |l.nodes|
      ensures NodeOk(l', j) && SlotsOk(l', j) && NodeData(l'.blocks, l'.nodes[j]) == NodeData(l.blocks, l.nodes[j])
    {
      AttachQuantumKeepsPointers(l, i, slot, p, junk, j, 0);
    }
    forall q | q in l'.blocks && l'.owner[q].dev == l.me
      ensures Reached(l', q, l'.owner[q].place)
    {
      if q != p {
        assert Reached(l, q, l.owner[q].place);
      }
    }
    forall a: Address
      ensures ByteAt(l', a) == ByteAt(l, a) || (ByteAt(l, a) == None && a.item == i && a.slot == slot)
    {
      assert QuantumOk(l, a.item, a.slot);
    }
  }

  /** The quantum at `a` exists and `len` bytes from there on lie inside it. */
  ghost predicate Storable(l: Layout, a: Address, len: nat) {
    var q := QuantumPtr(l, a.item, a.slot);
    && q != NULL && q in l.blocks && l.blocks[q].Quantum?
    && |l.blocks[q].bytes| == l.quantum && a.offset + len <= l.quantum
  }

  /** Bytes are stored into an existing quantum. */
  function StoreAt(l: Layout, a: Address, data: seq<byte>): Layout
    requires Storable(l, a, |data|)
  {
    var q := QuantumPtr(l, a.item, a.slot);
    var b := l.blocks[q].bytes;
    l.(blocks := l.blocks[q := Quantum(Overlay(b, a.offset, data))])
  }

  lemma StoreKeepsPointers(l: Layout, a: Address, data: seq<byte>, i: nat, slot: nat)
    requires Shape(l) && Storable(l, a, |data|)
    ensures QuantumPtr(StoreAt(l, a, data), i, slot) == QuantumPtr(l, i, slot)
    ensures i < |l.nodes| ==> NodeOk(StoreAt(l, a, data), i) && SlotsOk(StoreAt(l, a, data), i)
    ensures QuantumOk(StoreAt(l, a, data), i, slot)
  {
    assert QuantumOk(l, i, slot);
    if i < |l.nodes| {
      assert NodeOk(l, i) && SlotsOk(l, i);
    }
  }

  /** A store keeps the shape of the device. */
  lemma StoreKeepsShape(l: Layout, a: Address, data: seq<byte>)
    requires Shape(l) && Storable(l, a, |data|)
    ensures Shape(StoreAt(l, a, data)) && OthersKept(l, StoreAt(l, a, data))
  {
    var l' := StoreAt(l, a, data);
    assert QuantumOk(l, a.item, a.slot);
    forall i: nat, slot: nat
      ensures QuantumPtr(l', i, slot) == QuantumPtr(l, i, slot) && QuantumOk(l', i, slot)
    {
      StoreKeepsPointers(l, a, data, i, slot);
    }
    forall i | 0 <= i < |l.nodes|
      ensures NodeOk(l', i) && SlotsOk(l', i)
    {
      StoreKeepsPointers(l, a, data, i, 0);
    }
    forall p | p in l'.blocks && l'.owner[p].dev == l.me
      ensures Reached(l', p, l'.owner[p].place)
    {
      assert Reached(l, p, l.owner[p].place);
    }
  }

  /** A store changes the bytes of its range and nothing else: no two slots share a quantum. */
  lemma StoreChangesExactly(l: Layout, a: Address, data: seq<byte>, b: Address)
    requires Shape(l) && Storable(l, a, |data|)
    ensures
      ByteAt(StoreAt(l, a, data), b) ==
      if b.item == a.item && b.slot == a.slot && a.offset <= b.offset < a.offset + |data|
      then Some(data[b.offset - a.offset]) else ByteAt(l, b)
  {
    assert QuantumOk(l, a.item, a.slot) && QuantumOk(l, b.item, b.slot);
    StoreKeepsPointers(l, a, data, b.item, b.slot);
  }

  /** An operation on one device keeps the shape and every byte of any other device. */
  lemma OtherDeviceKept(l: Layout, l': Layout, b: Layout)
    requires OthersKept(l, l') && NULL !in l'.blocks && l'.owner.Keys == l'.blocks.Keys
    requires b.blocks == l.blocks && b.owner == l.owner && b.me != l.me && Shape(b)
    ensures
      var b' := b.(blocks := l'.blocks, owner := l'.owner);
      Shape(b') && SameBytes(b, b')
  {
    var b' := b.(blocks := l'.blocks, owner := l'.owner);
    forall i | 0 <= i < |b.nodes|
      ensures NodeOk(b', i) && SlotsOk(b', i)
    {
      assert NodeOk(b, i) && SlotsOk(b, i);
    }
    forall i: nat, slot: nat
      ensures QuantumPtr(b', i, slot) == QuantumPtr(b, i, slot) && QuantumOk(b', i, slot)
      ensures QuantumPtr(b, i, slot) != NULL ==> b'.blocks[QuantumPtr(b, i, slot)] == b.blocks[QuantumPtr(b, i, slot)]
    {
      assert QuantumOk(b, i, slot);
      if i < |b.nodes| {
        assert NodeOk(b, i) && SlotsOk(b, i);
      }
    }
    forall p | p in b'.blocks && b'.owner[p].dev == b.me
      ensures Reached(b', p, b'.owner[p].place)
    {
      assert Reached(b, p, b.owner[p].place);
      if b.owner[p].place.SlotsAt? {
        assert NodeOk(b, b.owner[p].place.item);
      }
    }
  }

  /**
  From `l` to `l'` the device may only have grown: old nodes stay in place, all bytes are
  kept, and new bytes appear in the quantum of the given slot alone.
  */
  ghost predicate Grown(l: Layout, l': Layout, item: nat, slot: nat) {
    && Shape(l') && OthersKept(l, l')
    && l'.me == l.me && l'.quantum == l.quantum && l'.qset == l.qset && l.nodes <= l'.nodes
    && forall a :: ByteAt(l', a) == ByteAt(l, a) || (ByteAt(l, a) == None && a.item == item && a.slot == slot)
  }

  lemma GrownTransitive(l: Layout, l': Layout, l'': Layout, item: nat, slot: nat)
    requires Grown(l, l', item, slot) && Grown(l', l'', item, slot)
    ensures Grown(l, l'', item, slot)
  {
    forall a: Address
      ensures ByteAt(l'', a) == ByteAt(l, a) || (ByteAt(l, a) == None && a.item == item && a.slot == slot)
    {
      assert ByteAt(l', a) == ByteAt(l, a) || (ByteAt(l, a) == None && a.item == item && a.slot == slot);
    }
  }

  /** What the code learns when it looks at a node. */
  lemma NodeFacts(l: Layout, i: nat)
    requires Shape(l) && i < |l.nodes|
    ensures
      var p := l.nodes[i];
      && p != NULL && p in l.blocks && l.blocks[p].Node?
      && l.blocks[p].next == NextOf(l.nodes, i)
      && (l.blocks[p].next == NULL <==> i + 1 == |l.nodes|)
      && (l.blocks[p].data != NULL ==>
            && l.blocks[p].data in l.blocks && l.blocks[l.blocks[p].data].Slots?
            && |l.blocks[l.blocks[p].data].ptrs| == l.qset)
  {
    assert NodeOk(l, i) && SlotsOk(l, i);
    assert i + 1 < |l.nodes| ==> NodeOk(l, i + 1);
  }

  lemma OwnedIsReached(l: Layout, p: Ptr)
    requires Shape(l) && p in l.blocks && l.owner[p].dev == l.me
    ensures Reached(l, p, l.owner[p].place)
  {
  }

  /** Whatever a device's pointers lead to is a live block. */
  lemma ReachedIsLive(l: Layout, p: Ptr, place: Place)
    requires Shape(l) && p != NULL && Reached(l, p, place)
    ensures p in l.blocks
  {
    match place {
      case NodeAt(i) => assert NodeOk(l, i);
      case SlotsAt(i) => assert SlotsOk(l, i);
      case QuantumAt(i, slot) => assert QuantumOk(l, i, slot);
    }
  }

  /** What the code learns when it looks at a slot. */
  lemma SlotFacts(l: Layout, i: nat, slot: nat)
    requires Shape(l) && QuantumPtr(l, i, slot) != NULL
    ensures
      var q := QuantumPtr(l, i, slot);
      q in l.blocks && l.blocks[q].Quantum? && |l.blocks[q].bytes| == l.quantum
  {
    assert QuantumOk(l, i, slot);
  }

  // Tearing a device down

  /** The blocks freed once items before `i` and the first `slot` quanta of item `i` are gone. */
  ghost function Freed(l: Layout, i: nat, slot: nat): set<Ptr> {
    set p | p in l.blocks && p in l.owner && l.owner[p].dev == l.me &&
            (var at := l.owner[p].place; at.item < i || (at.QuantumAt? && at.item == i && at.slot < slot))
  }

  /** All blocks of the device. */
  ghost function Footprint(l: Layout): set<Ptr> {
    set p | p in l.blocks && p in l.owner && l.owner[p].dev == l.me
  }

  /** The next quantum to free is still live, and is the only block that goes. */
  lemma FreeQuantum(l: Layout, i: nat, slot: nat)
    requires Shape(l)
    ensures
      var q := QuantumPtr(l, i, slot);
      && q !in Freed(l, i, slot) && (q == NULL || q in l.blocks)
      && Freed(l, i, slot + 1) == Freed(l, i, slot) + (if q == NULL then {} else {q})
  {
    var q := QuantumPtr(l, i, slot);
    assert QuantumOk(l, i, slot);
    forall p | p in Freed(l, i, slot + 1) && p !in Freed(l, i, slot)
      ensures p == q && q != NULL
    {
      assert Reached(l, p, l.owner[p].place);
    }
  }

  /** An item without a slot array has no quanta, and no item has more than `qset`. */
  lemma NoMoreQuanta(l: Layout, i: nat)
    requires Shape(l) && i < |l.nodes|
    ensures
      var d := NodeData(l.blocks, l.nodes[i]);
      && (d == NULL ==> Freed(l, i, l.qset) == Freed(l, i, 0))
      && Freed(l, i + 1, 0) == Freed(l, i, l.qset) + {l.nodes[i]} + (if d == NULL then {} else {d})
      && l.nodes[i] !in Freed(l, i, l.qset) && d !in Freed(l, i, l.qset)
      && l.nodes[i] != d && l.nodes[i] in l.blocks && (d == NULL || d in l.blocks)
  {
    var d := NodeData(l.blocks, l.nodes[i]);
    assert NodeOk(l, i) && SlotsOk(l, i);
    forall p | p in Freed(l, i + 1, 0)
      ensures p in Freed(l, i, l.qset) || p == l.nodes[i] || (p == d && d != NULL)
    {
      assert Reached(l, p, l.owner[p].place);
    }
    if d == NULL {
      forall p | p in Freed(l, i, l.qset)
        ensures p in Freed(l, i, 0)
      {
        assert Reached(l, p, l.owner[p].place);
      }
    }
  }

  /** After the last item, all blocks of the device are gone. */
  lemma AllFreed(l: Layout)
    requires Shape(l)
    ensures Freed(l, |l.nodes|, 0) == Footprint(l) && Freed(l, 0, 0) == {}
  {
    forall p | p in Footprint(l)
      ensures p in Freed(l, |l.nodes|, 0)
    {
      assert Reached(l, p, l.owner[p].place);
    }
  }
}

/**
The scull device over kernel memory that may run out at any allocation. Each operation runs
under the device lock and is proved to be a step of the sparse file of `ScullFile`, to keep
the memory layout in shape, and to leave the blocks of every other device alone.
*/
module ScullDevice {
  import opened Addressing
  import opened Arithmetic
  import opened Kernel
  import opened ScullLayout
  import F = ScullFile

  /** The kernel allocator. An allocation may fail at any time; only live blocks may be freed. */
  class Memory {
    var blocks: map<Ptr, Block>
    var unused: Ptr
    ghost var owner: map<Ptr, Owner>
    ghost var failures: nat  // how many allocations have failed so far

    ghost predicate Valid()
      reads this
    {
      && NULL !in blocks && owner.Keys == blocks.Keys && unused != NULL
      && forall p :: p in blocks ==> p < unused
    }

    constructor ()
      ensures Valid() && blocks == map[]
    {
      blocks, unused, owner, failures := map[], 1, map[], 0;
    }

    method Kmalloc(b: Block, ghost o: Owner) returns (p: Ptr)
      requires Valid()
      modifies this
      ensures Valid()
      ensures p == NULL ==> blocks == old(blocks) && owner == old(owner)
      ensures p != NULL ==> p !in old(blocks) && blocks == old(blocks)[p := b] && owner == old(owner)[p := o]
      ensures failures == old(failures) + (if p == NULL then 1 else 0)
    {
      var fails: bool := *;
      if fails {
        failures := failures + 1;
        return NULL;
      }
      p := unused;
      unused := unused + 1;
      blocks, owner := blocks[p := b], owner[p := o];
    }

    method Kfree(p: Ptr)
      requires Valid() && (p == NULL || p in blocks)
      modifies this
      ensures Valid() && failures == old(failures)
      ensures blocks == old(blocks) - {p} && owner == old(owner) - {p}
    {
      if p != NULL {
        blocks, owner := blocks - {p}, owner - {p};
      }
      assert blocks == old(blocks) - {p};
    }

    /** Overwrites a live block. */
    method Put(p: Ptr, b: Block)
      requires Valid() && p in blocks
      modifies this`blocks
      ensures Valid() && blocks == old(blocks)[p := b]
    {
      blocks := blocks[p := b];
    }
  }

  /** The byte of a position, found by the driver's addressing. */
  ghost function FileByte(l: Layout, pos: nat): Option<byte>
    requires l.quantum > 0 && l.qset > 0
  {
    ByteAt(l, Locate(l.quantum, l.qset, pos))
  }

  /** The file a layout of `size` bytes stands for. */
  ghost function View(l: Layout, size: nat): F.File
    requires l.quantum > 0 && l.qset > 0
  {
    F.File(size, imap p: nat | FileByte(l, p).Some? :: FileByte(l, p).value, l.quantum)
  }

  /** In a layout that grew around `pos`, a position kept its byte or is a new one next to `pos`. */
  lemma GrownByte(l: Layout, l': Layout, pos: nat, p: nat)
    requires Shape(l) && Shape(l')
    requires var a := Locate(l.quantum, l.qset, pos); Grown(l, l', a.item, a.slot)
    ensures FileByte(l', p) == FileByte(l, p) || (FileByte(l, p) == None && F.InQuantum(l.quantum, pos, p))
  {
    SameSlotIff(l.quantum, l.qset, pos, p);
    var b := Locate(l.quantum, l.qset, p);
    assert ByteAt(l', b) == ByteAt(l, b) || ByteAt(l, b) == None;
  }

  lemma StoredByte(l: Layout, pos: nat, data: seq<byte>, p: nat)
    requires Shape(l) && Storable(l, Locate(l.quantum, l.qset, pos), |data|)
    ensures
      var l' := StoreAt(l, Locate(l.quantum, l.qset, pos), data);
      FileByte(l', p) == if pos <= p < pos + |data| then Some(data[p - pos]) else FileByte(l, p)
    ensures pos <= p < pos + |data| ==> F.InQuantum(l.quantum, pos, p)
  {
    var a := Locate(l.quantum, l.qset, pos);
    var b := Locate(l.quantum, l.qset, p);
    SameSlotIff(l.quantum, l.qset, pos, p);
    StoreChangesExactly(l, a, data, b);
  }

  lemma GrowthIsFailedWrite(l: Layout, l': Layout, size: nat, pos: nat, buf: seq<byte>)
    requires Shape(l) && Shape(l')
    requires var a := Locate(l.quantum, l.qset, pos); Grown(l, l', a.item, a.slot)
    ensures F.WriteStep(View(l, size), pos, buf, Err(ENOMEM), View(l', size))
  {
    forall p: nat
      ensures FileByte(l', p) == FileByte(l, p) || (FileByte(l, p) == None && F.InQuantum(l.quantum, pos, p))
    {
      GrownByte(l, l', pos, p);
    }
  }

  lemma StoreIsStored(l: Layout, size: nat, pos: nat, data: seq<byte>)
    requires Shape(l) && Storable(l, Locate(l.quantum, l.qset, pos), |data|)
    ensures
      var l' := StoreAt(l, Locate(l.quantum, l.qset, pos), data);
      forall size' :: F.Stored(View(l, size), pos, data, View(l', size'))
  {
    var l' := StoreAt(l, Locate(l.quantum, l.qset, pos), data);
    forall p: nat
      ensures FileByte(l', p) == if pos <= p < pos + |data| then Some(data[p - pos]) else FileByte(l, p)
    {
      StoredByte(l, pos, data, p);
    }
  }

  /** Growing around `pos` and then storing there is one write, complete or cut short by a fault. */
  lemma StoreIsWrite(l: Layout, l': Layout, size: nat, pos: nat, buf: seq<byte>, copied: nat)
    requires Shape(l) && Shape(l')
    requires
      var a := Locate(l.quantum, l.qset, pos);
      Grown(l, l', a.item, a.slot) && Storable(l', a, copied)
    requires copied <= F.Reach(l.quantum, pos, |buf|)
    ensures
      var n := F.Reach(l.quantum, pos, |buf|);
      var l'' := StoreAt(l', Locate(l.quantum, l.qset, pos), buf[..copied]);
      && l''.quantum > 0 && l''.qset > 0
      && (copied < n ==> F.WriteStep(View(l, size), pos, buf, Err(EFAULT), View(l'', size)))
      && (copied == n ==> F.WriteStep(View(l, size), pos, buf, Done(n), View(l'', Max(size, pos + n))))
  {
    var n := F.Reach(l.quantum, pos, |buf|);
    var l'' := StoreAt(l', Locate(l.quantum, l.qset, pos), buf[..copied]);
    GrowthIsFailedWrite(l, l', size, pos, buf);
    StoreIsStored(l', size, pos, buf[..copied]);
    var size' := if copied < n then size else Max(size, pos + n);
    F.MakeRoomThenStore(View(l, size), View(l', size), pos, buf, copied, View(l'', size'));
  }

  lemma SlotInRange(quantum: nat, qset: nat, pos: nat)
    requires quantum > 0 && qset > 0
    ensures Locate(quantum, qset, pos).slot < qset && Locate(quantum, qset, pos).offset < quantum
  {
    PositionLocate(quantum, qset, pos);
  }

  /** How far one call reaches, in terms of addresses. */
  lemma ReachIs(quantum: nat, qset: nat, pos: nat, a: Address, count: nat)
    requires quantum > 0 && qset > 0 && a == Locate(quantum, qset, pos)
    ensures a.slot < qset && a.offset < quantum && Min(count, quantum - a.offset) == F.Reach(quantum, pos, count)
  {
    PositionLocate(quantum, qset, pos);
  }

  /** The outcome of a write that found its quantum, in the terms the code uses. */
  lemma WriteOutcome(l: Layout, l': Layout, size: nat, pos: nat, a: Address, buf: seq<byte>, count: nat, copied: nat)
    requires Shape(l) && Shape(l') && a == Locate(l.quantum, l.qset, pos)
    requires Grown(l, l', a.item, a.slot) && Storable(l', a, copied)
    requires a.offset <= l.quantum && count == Min(|buf|, l.quantum - a.offset) && copied <= count
    requires Covers(|l.nodes|, l.quantum, l.qset, size) && a.item < |l'.nodes|
    ensures
      var l'' := StoreAt(l', a, buf[..copied]);
      && l''.quantum > 0 && l''.qset > 0
      && (copied < count ==> F.WriteStep(View(l, size), pos, buf, Err(EFAULT), View(l'', size)))
      && (copied == count ==> F.WriteStep(View(l, size), pos, buf, Done(count), View(l'', Max(size, pos + count))))
    ensures Covers(|l'.nodes|, l.quantum, l.qset, size) && Covers(|l'.nodes|, l.quantum, l.qset, pos + count)
  {
    SameSlotIff(l.quantum, l.qset, pos, pos);
    StoreIsWrite(l, l', size, pos, buf, copied);
    CoversLonger(|l.nodes|, |l'.nodes|, l.quantum, l.qset, size);
    CoversWrite(|l'.nodes|, l.quantum, l.qset, pos, count);
  }

  /** A list of `n` items reaches the item of the last of `size` bytes. */
  ghost predicate Covers(n: nat, quantum: nat, qset: nat, size: nat)
    requires quantum > 0 && qset > 0
  {
    size > 0 ==> (size - 1) / (quantum * qset) < n
  }

  lemma CoversLonger(n: nat, n': nat, quantum: nat, qset: nat, size: nat)
    requires quantum > 0 && qset > 0 && n <= n' && Covers(n, quantum, qset, size)
    ensures Covers(n', quantum, qset, size)
  {
  }

  /** A write ends in the list item it started in. */
  lemma CoversWrite(n: nat, quantum: nat, qset: nat, pos: nat, count: nat)
    requires quantum > 0 && qset > 0 && count <= quantum - Locate(quantum, qset, pos).offset
    requires Locate(quantum, qset, pos).item < n
    ensures Covers(n, quantum, qset, pos + count)
  {
    if count > 0 {
      SameQuantum(quantum, qset, pos, count - 1);
    } else if pos > 0 {
      DivMonotone(pos - 1, pos, quantum * qset);
    }
  }

  /** A position below the size is in an item the list has. */
  lemma CoversRead(n: nat, quantum: nat, qset: nat, size: nat, pos: nat)
    requires quantum > 0 && qset > 0 && pos < size && Covers(n, quantum, qset, size)
    ensures Locate(quantum, qset, pos).item < n
  {
    DivMonotone(pos, size - 1, quantum * qset);
  }

  /** What a read finds, in the terms the code uses. */
  lemma ReadOutcome(l: Layout, size: nat, pos: nat, count: nat, a: Address, q: Ptr)
    requires Shape(l) && a == Locate(l.quantum, l.qset, pos) && pos < size
    requires q == QuantumPtr(l, a.item, a.slot)
    ensures pos in View(l, size).bytes <==> q != NULL
    ensures q == NULL ==> F.ReadStep(View(l, size), pos, count, Done([]))
    ensures q != NULL ==> F.ReadStep(View(l, size), pos, count, Err(EFAULT))
    ensures q != NULL ==> q in l.blocks && l.blocks[q].Quantum? && |l.blocks[q].bytes| == l.quantum && a.offset < l.quantum
    ensures q != NULL ==>
      var n := Min(Min(count, size - pos), l.quantum - a.offset);
      F.ReadStep(View(l, size), pos, count, Done(l.blocks[q].bytes[a.offset..a.offset + n]))
  {
    SlotInRange(l.quantum, l.qset, pos);
    assert QuantumOk(l, a.item, a.slot);
    if q != NULL {
      var n := Min(Min(count, size - pos), l.quantum - a.offset);
      forall p | pos <= p < pos + n
        ensures FileByte(l, p) == Some(l.blocks[q].bytes[a.offset..a.offset + n][p - pos])
      {
        SameQuantum(l.quantum, l.qset, pos, p - pos);
      }
      SameSlotIff(l.quantum, l.qset, pos, pos);
    }
  }

  /** The layout of a device whose blocks have all been freed. */
  ghost function Emptied(l: Layout, quantum: nat, qset: nat): Layout {
    l.(blocks := l.blocks - Footprint(l), owner := l.owner - Footprint(l), nodes := [], quantum := quantum, qset := qset)
  }

  lemma EmptiedIsOk(l: Layout, quantum: nat, qset: nat)
    requires Shape(l) && quantum > 0 && qset > 0
    ensures
      var l' := Emptied(l, quantum, qset);
      Shape(l') && OthersKept(l, l') && Footprint(l') == {} && View(l', 0) == F.Trimmed(quantum)
  {
    var l' := Emptied(l, quantum, qset);
    assert Footprint(l') == {};
    assert forall p: nat :: FileByte(l', p) == None;
  }

  class ScullDev {
    const mem: Memory
    var data: Ptr
    var quantum: nat
    var qset: nat
    var size: nat
    ghost var nodes: seq<Ptr>

    ghost function Lay(): Layout
      reads this, mem
    {
      Layout(mem.blocks, mem.owner, this, nodes, quantum, qset)
    }

    /** The list and everything hanging off it is in shape. */
    ghost predicate ListOk()
      reads this, mem
    {
      && mem.Valid() && Shape(Lay())
      && data == (if nodes == [] then NULL else nodes[0])
    }

    /** Moreover, the list reaches at least to the item of the last byte. */
    ghost predicate Valid()
      reads this, mem
    {
      ListOk() && Covers(|nodes|, quantum, qset, size)
    }

    ghost function Abs(): F.File
      requires Shape(Lay())
      reads this, mem
    {
      View(Lay(), size)
    }

    /** A new device owns no memory. */
    constructor (mem: Memory, quantum: nat, qset: nat)
      requires mem.Valid() && quantum > 0 && qset > 0
      ensures Valid() && this.mem == mem && Abs() == F.Trimmed(quantum) && this.qset == qset
      ensures mem.blocks == old(mem.blocks) && mem.owner == old(mem.owner)
    {
      this.mem := mem;
      this.data, this.size, this.nodes := NULL, 0, [];
      this.quantum, this.qset := quantum, qset;
      new;
      assert forall p :: p in mem.owner ==> mem.owner[p].dev != this;
      assert forall p :: ByteAt(Lay(), p) == None;
    }

    /** Allocates a node behind the last one, or the first node of an empty list. */
    method Grow(last: Ptr, ghost item: nat, ghost slot: nat) returns (p: Ptr)
      requires ListOk() && last == if nodes == [] then NULL else nodes[|nodes| - 1]
      modifies this`nodes, this`data, mem
      ensures ListOk() && Grown(old(Lay()), Lay(), item, slot)
      ensures p != NULL ==> nodes == old(nodes) + [p]
      ensures mem.failures == old(mem.failures) + (if p == NULL then 1 else 0)
    {
      ghost var l := Lay();
      p := mem.Kmalloc(Node(NULL, NULL), Owner(this, NodeAt(|nodes|)));
      if p == NULL {
        return;
      }
      if nodes != [] {
        NodeFacts(l, |nodes| - 1);
      }
      if last == NULL {
        data := p;
      } else {
        mem.Put(last, Node(mem.blocks[last].data, p));
      }
      nodes := nodes + [p];
      assert Lay() == AppendNode(l, p) by {
        assert Lay().blocks == AppendNode(l, p).blocks;
      }
      AppendNodeKeepsShape(l, p);
    }

    /**
    Follows the list to item `n`, allocating nodes as needed. Existing nodes and all bytes stay
    as they are, also when an allocation fails half way; nothing is allocated if the item exists.
    */
    method Follow(n: nat, ghost item: nat, ghost slot: nat) returns (p: Ptr)
      requires ListOk()
      modifies this`data, this`nodes, mem
      ensures ListOk() && Grown(old(Lay()), Lay(), item, slot)
      ensures p != NULL ==> n < |nodes| && p == nodes[n]
      ensures mem.failures == old(mem.failures) + (if p == NULL then 1 else 0)
      ensures n < |old(nodes)| ==> p != NULL && data == old(data) && Lay() == old(Lay()) && mem.unused == old(mem.unused)
    {
      ghost var l := Lay();
      ghost var was, fence := data, mem.unused;
      p := Head(item, slot);
      if p == NULL {
        return;
      }
      var k := n;
      while k != 0
        invariant 0 <= k <= n && n - k < |nodes| && p == nodes[n - k] && p != NULL
        invariant ListOk() && Grown(l, Lay(), item, slot)
        invariant n < |l.nodes| ==> data == was && Lay() == l && mem.unused == fence
        invariant mem.failures == old(mem.failures)
      {
        ghost var here := Lay();
        p := Next(p, n - k, item, slot);
        GrownTransitive(l, here, Lay(), item, slot);
        if p == NULL {
          return NULL;
        }
        k := k - 1;
      }
    }

    /** The first node, allocated if there is none. */
    method Head(ghost item: nat, ghost slot: nat) returns (p: Ptr)
      requires ListOk()
      modifies this`data, this`nodes, mem
      ensures ListOk() && Grown(old(Lay()), Lay(), item, slot)
      ensures p != NULL ==> nodes != [] && p == nodes[0]
      ensures mem.failures == old(mem.failures) + (if p == NULL then 1 else 0)
      ensures old(nodes) != [] ==> p != NULL && data == old(data) && Lay() == old(Lay()) && mem.unused == old(mem.unused)
    {
      if nodes != [] {
        NodeFacts(Lay(), 0);
      }
      p := data;
      if p == NULL {
        p := Grow(NULL, item, slot);
      }
    }

    /** The node behind node `i`, allocated if there is none. */
    method Next(p: Ptr, ghost i: nat, ghost item: nat, ghost slot: nat) returns (next: Ptr)
      requires ListOk() && i < |nodes| && p == nodes[i]
      modifies this`data, this`nodes, mem
      ensures ListOk() && Grown(old(Lay()), Lay(), item, slot)
      ensures next != NULL ==> i + 1 < |nodes| && next == nodes[i + 1]
      ensures mem.failures == old(mem.failures) + (if next == NULL then 1 else 0)
      ensures i + 1 < |old(nodes)| ==>
        next != NULL && data == old(data) && Lay() == old(Lay()) && mem.unused == old(mem.unused)
    {
      NodeFacts(Lay(), i);
      next := mem.blocks[p].next;
      if next == NULL {
        next := Grow(p, item, slot);
      }
    }

    /** Gives list item `i` its slot array. */
    method EnsureSlots(node: Ptr, i: nat, ghost slot: nat) returns (d: Ptr)
      requires ListOk() && i < |nodes| && node == nodes[i]
      modifies mem
      ensures ListOk() && Grown(old(Lay()), Lay(), i, slot)
      ensures d != NULL ==> NodeData(mem.blocks, nodes[i]) == d
      ensures mem.failures == old(mem.failures) + (if d == NULL then 1 else 0)
    {
      ghost var l := Lay();
      NodeFacts(l, i);
      d := mem.blocks[node].data;
      if d == NULL {
        d := mem.Kmalloc(Slots(seq(qset, _ => NULL)), Owner(this, SlotsAt(i)));
        if d != NULL {
          mem.Put(node, Node(d, mem.blocks[node].next));
          assert Lay() == AttachSlots(l, i, d);
          AttachSlotsKeepsShape(l, i, d);
        }
      }
    }

    /** Gives a slot its quantum, whose bytes kmalloc leaves arbitrary. */
    method EnsureQuantum(d: Ptr, i: nat, slot: nat) returns (q: Ptr)
      requires ListOk()
      requires i < |nodes| && d == NodeData(mem.blocks, nodes[i]) && d != NULL && slot < qset
      modifies mem
      ensures ListOk() && Grown(old(Lay()), Lay(), i, slot)
      ensures q == NULL || q == QuantumPtr(Lay(), i, slot)
      ensures mem.failures == old(mem.failures) + (if q == NULL then 1 else 0)
    {
      ghost var l := Lay();
      NodeFacts(l, i);
      var slots := mem.blocks[d].ptrs;
      q := slots[slot];
      if q == NULL {
        var junk: seq<byte> := *;
        if |junk| != quantum {
          junk := seq(quantum, _ => 0);
        }
        q := mem.Kmalloc(Quantum(junk), Owner(this, QuantumAt(i, slot)));
        if q != NULL {
          mem.Put(d, Slots(slots[slot := q]));
          assert Lay() == AttachQuantum(l, i, slot, q, junk);
          AttachQuantumKeepsShape(l, i, slot, q, junk);
        }
      }
    }

    /** Finds the quantum of a slot, allocating what is missing on the way. */
    method Reserve(item: nat, slot: nat) returns (q: Ptr)
      requires ListOk() && slot < qset
      modifies this`data, this`nodes, mem
      ensures ListOk() && Grown(old(Lay()), Lay(), item, slot)
      ensures q != NULL ==> item < |nodes| && q == QuantumPtr(Lay(), item, slot)
      ensures mem.failures == old(mem.failures) + (if q == NULL then 1 else 0)
    {
      ghost var l0 := Lay();
      var node := Follow(item, item, slot);
      if node == NULL {
        return NULL;
      }
      ghost var l1 := Lay();
      var d := EnsureSlots(node, item, slot);
      ghost var l2 := Lay();
      GrownTransitive(l0, l1, l2, item, slot);
      if d == NULL {
        return NULL;
      }
      q := EnsureQuantum(d, item, slot);
      GrownTransitive(l0, l2, Lay(), item, slot);
    }

    /** Copies bytes into an existing quantum, where they fit. */
    method StoreBytes(q: Ptr, a: Address, bytes: seq<byte>)
      requires ListOk() && Storable(Lay(), a, |bytes|) && q == QuantumPtr(Lay(), a.item, a.slot)
      modifies mem`blocks
      ensures ListOk() && Lay() == StoreAt(old(Lay()), a, bytes) && OthersKept(old(Lay()), Lay())
    {
      ghost var l := Lay();
      StoreKeepsShape(l, a, bytes);
      var b := mem.blocks[q].bytes;
      mem.Put(q, Quantum(Overlay(b, a.offset, bytes)));
      assert Lay() == StoreAt(l, a, bytes);
    }

    /** The work of a write, in terms of addresses: make room, then copy up to the quantum's end. */
    method WriteAt(a: Address, buf: seq<byte>, reachable: nat)
      returns (r: Result<nat>, ghost room: Layout, ghost copied: nat)
      requires ListOk() && a.slot < qset && a.offset < quantum
      modifies this`data, this`nodes, mem
      ensures ListOk() && Grown(old(Lay()), room, a.item, a.slot) && OthersKept(old(Lay()), Lay()) && nodes == room.nodes
      ensures r.Err? ==> r.error in {ENOMEM, EFAULT}
      ensures r == Err(ENOMEM) ==> Lay() == room
      ensures mem.failures == old(mem.failures) + (if r == Err(ENOMEM) then 1 else 0)
      ensures r != Err(ENOMEM) ==>
        var count := Min(|buf|, quantum - a.offset);
        && copied == Min(count, reachable) && a.item < |nodes|
        && Storable(room, a, copied) && Lay() == StoreAt(room, a, buf[..copied])
        && r == if copied < count then Err(EFAULT) else Done(count)
    {
      ghost var l := Lay();
      var q := Reserve(a.item, a.slot);
      room, copied := Lay(), 0;
      if q == NULL {
        return Err(ENOMEM), room, copied;
      }
      SlotFacts(room, a.item, a.slot);
      var count := if |buf| > quantum - a.offset then quantum - a.offset else |buf|;
      var len := Min(count, reachable);
      copied := len;
      StoreBytes(q, a, buf[..len]);
      OthersKeptTransitive(l, room, Lay());
      r := if len < count then Err(EFAULT) else Done(count);
    }

    /** The file size to record after a write at `pos` with outcome `r`. */
    function SizeAfter(pos: nat, r: Result<nat>): nat
      reads this`size
    {
      if r.Done? then Max(size, pos + r.value) else size
    }

    /** A write up to, but not including, the update of the size. */
    method WriteData(pos: nat, buf: seq<byte>, reachable: nat) returns (r: Result<nat>)
      requires Valid()
      modifies this`data, this`nodes, mem
      ensures ListOk() && OthersKept(old(Lay()), Lay())
      ensures F.WriteStep(old(Abs()), pos, buf, r, View(Lay(), SizeAfter(pos, r)))
      ensures Covers(|nodes|, quantum, qset, SizeAfter(pos, r))
      ensures r == Err(EFAULT) <==> r != Err(ENOMEM) && reachable < F.Reach(quantum, pos, |buf|)
      ensures mem.failures == old(mem.failures) + (if r == Err(ENOMEM) then 1 else 0)
    {
      ghost var l := Lay();
      var a := Locate(quantum, qset, pos);
      ghost var n := F.Reach(quantum, pos, |buf|);
      ReachIs(quantum, qset, pos, a, |buf|);
      ghost var room, copied;
      r, room, copied := WriteAt(a, buf, reachable);
      if r == Err(ENOMEM) {
        CoversLonger(|l.nodes|, |room.nodes|, quantum, qset, size);
        GrowthIsFailedWrite(l, room, size, pos, buf);
      } else {
        WriteOutcome(l, room, size, pos, a, buf, n, copied);
      }
    }

    /**
    Writes at `pos`, up to the end of the quantum there. `reachable` is how many bytes of the
    user's buffer can be loaded. Whatever allocation fails, the call is a step of the file, the
    position moves exactly by what was written, and memory stays in shape.
    */
    method Write(pos: nat, buf: seq<byte>, reachable: nat) returns (r: Result<nat>, pos': nat)
      requires Valid()
      modifies this`data, this`nodes, this`size, mem
      ensures Valid() && OthersKept(old(Lay()), Lay())
      ensures F.WriteStep(old(Abs()), pos, buf, r, Abs())
      ensures r == Err(EFAULT) <==> r != Err(ENOMEM) && reachable < F.Reach(quantum, pos, |buf|)
      ensures mem.failures == old(mem.failures) + (if r == Err(ENOMEM) then 1 else 0)
      ensures pos' == if r.Done? then pos + r.value else pos
    {
      r := WriteData(pos, buf, reachable);
      pos' := pos;
      ghost var here, size' := Lay(), SizeAfter(pos, r);
      if r.Done? {
        pos' := pos + r.value;
        if size < pos' {
          size := pos';
        }
      }
      assert Lay() == here && size == size';
    }

    /** Finds the quantum of a slot in an item the list has; nothing is allocated. */
    method FindQuantum(item: nat, slot: nat) returns (q: Ptr)
      requires ListOk() && item < |nodes| && slot < qset
      modifies this`data, this`nodes, mem
      ensures ListOk() && Lay() == old(Lay()) && data == old(data) && mem.unused == old(mem.unused)
      ensures mem.failures == old(mem.failures)
      ensures q == QuantumPtr(Lay(), item, slot)
    {
      ghost var l := Lay();
      var node := Follow(item, item, slot);
      NodeFacts(l, item);
      var d := mem.blocks[node].data;
      q := if d == NULL then NULL else mem.blocks[d].ptrs[slot];
    }

    /** A read below the size. */
    method ReadData(pos: nat, count: nat, reachable: nat) returns (r: Result<seq<byte>>)
      requires Valid() && pos < size
      modifies this`data, this`nodes, mem
      ensures ListOk() && Lay() == old(Lay()) && data == old(data) && mem.unused == old(mem.unused)
      ensures mem.failures == old(mem.failures)
      ensures F.ReadStep(View(Lay(), size), pos, count, r)
      ensures r.Err? <==> pos in View(Lay(), size).bytes && reachable < F.Reach(quantum, pos, Min(count, size - pos))
    {
      ghost var l := Lay();
      var n := if pos + count > size then size - pos else count;
      var a := Locate(quantum, qset, pos);
      ReachIs(quantum, qset, pos, a, n);
      CoversRead(|nodes|, quantum, qset, size, pos);
      var q := FindQuantum(a.item, a.slot);
      ReadOutcome(l, size, pos, count, a, q);
      if q == NULL {
        return Done([]);
      }
      if n > quantum - a.offset {
        n := quantum - a.offset;
      }
      if reachable < n {
        return Err(EFAULT);
      }
      return Done(mem.blocks[q].bytes[a.offset..a.offset + n]);
    }

    /**
    Reads at `pos`, up to the size, the end of the quantum, or a hole. No read allocates
    anything, although it walks the list with the function that can: size and list agree.
    */
    method Read(pos: nat, count: nat, reachable: nat) returns (r: Result<seq<byte>>, pos': nat)
      requires Valid()
      modifies this`data, this`nodes, mem
      ensures Valid() && Lay() == old(Lay()) && data == old(data) && mem.unused == old(mem.unused)
      ensures mem.failures == old(mem.failures)
      ensures F.ReadStep(Abs(), pos, count, r)
      ensures r.Err? <==> F.ReadFaults(Abs(), pos, count, reachable)
      ensures pos' == if r.Done? then pos + |r.value| else pos
    {
      if pos >= size {
        return Done([]), pos;
      }
      r := ReadData(pos, count, reachable);
      pos' := if r.Done? then pos + |r.value| else pos;
    }

    /** Frees list item `i` with its slot array and quanta, and returns the next node. */
    method FreeItem(ghost l: Layout, ghost i: nat, p: Ptr) returns (next: Ptr)
      requires Shape(l) && i < |l.nodes| && p == l.nodes[i] && l.qset == qset && mem.Valid()
      requires mem.blocks == l.blocks - Freed(l, i, 0) && mem.owner == l.owner - Freed(l, i, 0)
      modifies mem
      ensures mem.Valid()
      ensures mem.blocks == l.blocks - Freed(l, i + 1, 0) && mem.owner == l.owner - Freed(l, i + 1, 0)
      ensures next == NextOf(l.nodes, i)
    {
      NodeFacts(l, i);
      NoMoreQuanta(l, i);
      assert Freed(l, i, 0) <= Freed(l, i, l.qset);
      next := mem.blocks[p].next;
      var d := mem.blocks[p].data;
      if d != NULL {
        for slot := 0 to qset
          invariant mem.Valid()
          invariant mem.blocks == l.blocks - Freed(l, i, slot) && mem.owner == l.owner - Freed(l, i, slot)
        {
          assert Freed(l, i, slot) <= Freed(l, i, l.qset);
          FreeQuantum(l, i, slot);
          mem.Kfree(mem.blocks[d].ptrs[slot]);
        }
        mem.Kfree(d);
      }
      mem.Kfree(p);
    }

    /** Frees all list items, one after the other. */
    method FreeAll(ghost l: Layout)
      requires ListOk() && l == Lay()
      modifies mem
      ensures mem.Valid()
      ensures mem.blocks == l.blocks - Footprint(l) && mem.owner == l.owner - Footprint(l)
    {
      AllFreed(l);
      if nodes != [] {
        NodeFacts(l, 0);
      }
      var dptr := data;
      ghost var i := 0;
      while dptr != NULL
        invariant i <= |l.nodes| && dptr == (if i < |l.nodes| then l.nodes[i] else NULL)
        invariant i < |l.nodes| ==> dptr != NULL
        invariant mem.Valid() && mem.blocks == l.blocks - Freed(l, i, 0) && mem.owner == l.owner - Freed(l, i, 0)
        decreases |l.nodes| - i
      {
        dptr := FreeItem(l, i, dptr);
        i := i + 1;
        if i < |l.nodes| {
          NodeFacts(l, i);
        }
      }
    }

    /**
    Empties the device and takes over the module-wide geometry. Every block of the device is
    freed, each while it is live and so only once, and no other block is touched.
    */
    method Trim(newQuantum: nat, newQset: nat)
      requires Valid() && newQuantum > 0 && newQset > 0
      modifies this, mem
      ensures Valid() && Abs() == F.Trimmed(newQuantum) && qset == newQset
      ensures mem.blocks == old(mem.blocks) - Footprint(old(Lay()))
      ensures mem.owner == old(mem.owner) - Footprint(old(Lay()))
      ensures OthersKept(old(Lay()), Lay()) && Footprint(Lay()) == {}
    {
      ghost var l := Lay();
      FreeAll(l);
      size, quantum, qset, data, nodes := 0, newQuantum, newQset, NULL, [];
      assert Lay() == Emptied(l, newQuantum, newQset);
      EmptiedIsOk(l, newQuantum, newQset);
    }

    /** Opening for writing only empties the device; any other open leaves it alone. */
    method Open(writeOnly: bool, newQuantum: nat, newQset: nat)
      requires Valid() && newQuantum > 0 && newQset > 0
      modifies this, mem
      ensures Valid() && OthersKept(old(Lay()), Lay())
      ensures Abs() == if writeOnly then F.Trimmed(newQuantum) else old(Abs())
      ensures writeOnly ==> Footprint(Lay()) == {}
      ensures qset == if writeOnly then newQset else old(qset)
    {
      if writeOnly {
        Trim(newQuantum, newQset);
      }
    }

    /** From file `f` and layout `l`, `calls` writes have stored the first `done` bytes of `buf` at `pos`. */
    ghost predicate Writing(f: F.File, l: Layout, pos: nat, buf: seq<byte>, done: nat, calls: nat)
      reads this, mem
    {
      && Valid() && l.me == this && OthersKept(l, Lay())
      && f.quantum > 0 && done <= |buf| && F.Progress(f, Abs(), pos, buf, done)
      && F.OnCourse(f.quantum, pos, |buf|, done, calls)
    }

    /** One round of the loop in `WriteAll`. */
    method WriteMore(pos: nat, buf: seq<byte>, done: nat, ghost f: F.File, ghost l: Layout, ghost calls: nat)
      returns (ok: bool, done': nat)
      requires Writing(f, l, pos, buf, done, calls) && done < |buf|
      modifies this`data, this`nodes, this`size, mem
      ensures ok ==> done < done' && Writing(f, l, pos, buf, done', calls + 1)
      ensures !ok ==> Valid() && OthersKept(l, Lay()) && F.KeptOutside(f, Abs(), pos, |buf|)
      ensures mem.failures == old(mem.failures) + (if ok then 0 else 1)
    {
      ghost var g, here := Abs(), Lay();
      var p, rest := pos + done, buf[done..];
      var r, at := Write(p, rest, |rest|);
      OthersKeptTransitive(l, here, Lay());
      F.WriteAllStep(f, g, Abs(), pos, buf, done, p, rest, r);
      ok, done' := r.Done?, if r.Done? then done + r.value else done;
    }

    /** The loop of `WriteAll`. */
    method WriteRest(pos: nat, buf: seq<byte>, ghost f: F.File, ghost l: Layout) returns (ok: bool, calls: nat)
      requires Writing(f, l, pos, buf, 0, 0)
      modifies this`data, this`nodes, this`size, mem
      ensures ok ==> Writing(f, l, pos, buf, |buf|, calls)
      ensures !ok ==> Valid() && OthersKept(l, Lay()) && F.KeptOutside(f, Abs(), pos, |buf|)
      ensures ok <==> mem.failures == old(mem.failures)
    {
      var done := 0;
      ok, calls := true, 0;
      while done < |buf|
        invariant done <= |buf| && ok && Writing(f, l, pos, buf, done, calls)
        invariant mem.failures == old(mem.failures)
      {
        ok, done := WriteMore(pos, buf, done, f, l, calls);
        if !ok {
          return;
        }
        calls := calls + 1;
      }
    }

    /** A caller that writes all of `buf`, giving up at the first error. */
    method WriteAll(pos: nat, buf: seq<byte>) returns (ok: bool, calls: nat)
      requires Valid()
      modifies this`data, this`nodes, this`size, mem
      ensures Valid() && OthersKept(old(Lay()), Lay())
      ensures !ok ==> F.KeptOutside(old(Abs()), Abs(), pos, |buf|)
      ensures ok <==> mem.failures == old(mem.failures)
      ensures ok ==> F.Progress(old(Abs()), Abs(), pos, buf, |buf|) && calls == F.QuantaTouched(old(quantum), pos, |buf|)
    {
      ghost var f, l := Abs(), Lay();
      ok, calls := WriteRest(pos, buf, f, l);
      if ok {
        F.Arrived(f.quantum, pos, |buf|, calls);
      }
    }

    /** One round of the loop in `ReadAll`. */
    method ReadMore(pos: nat, bytes: seq<byte>, total: nat, ghost calls: nat) returns (more: seq<byte>)
      requires Valid() && |bytes| < total && F.Holds(Abs(), pos, bytes)
      modifies this`data, this`nodes, mem
      ensures Valid() && Lay() == old(Lay()) && mem.failures == old(mem.failures)
      ensures |more| <= total - |bytes| && F.Holds(Abs(), pos, bytes + more)
      ensures F.Complete(Abs(), pos, total) ==> more != []
      ensures F.Complete(Abs(), pos, total) && F.OnCourse(quantum, pos, total, |bytes|, calls) ==>
        F.OnCourse(quantum, pos, total, |bytes + more|, calls + 1)
    {
      var r, at := Read(pos + |bytes|, total - |bytes|, total - |bytes|);
      F.ReadAllStep(Abs(), pos, bytes, total, r);
      more := r.value;
    }

    /** A caller that reads `total` bytes, giving up when a read returns nothing. */
    method ReadAll(pos: nat, total: nat) returns (bytes: seq<byte>, calls: nat)
      requires Valid()
      modifies this`data, this`nodes, mem
      ensures Valid() && Lay() == old(Lay()) && mem.failures == old(mem.failures)
      ensures F.Holds(Abs(), pos, bytes) && |bytes| <= total
      ensures F.Complete(Abs(), pos, total) ==> |bytes| == total && calls == F.QuantaTouched(quantum, pos, total)
    {
      ghost var f := Abs();
      bytes, calls := [], 0;
      while |bytes| < total
        invariant Valid() && Lay() == old(Lay()) && mem.failures == old(mem.failures)
        invariant F.Holds(f, pos, bytes) && |bytes| <= total
        invariant F.Complete(f, pos, total) ==> F.OnCourse(f.quantum, pos, total, |bytes|, calls)
        decreases total - |bytes|
      {
        var more := ReadMore(pos, bytes, total, calls);
        if more == [] {
          return;
        }
        bytes, calls := bytes + more, calls + 1;
      }
      if F.Complete(f, pos, total) {
        F.Arrived(f.quantum, pos, total, calls);
      }
    }

    /**
    Write all of `buf` and read it back: unless memory runs out, the same bytes return, and
    both loops take exactly as many calls as there are quanta under the range.
    */
    method RoundTrip(pos: nat, buf: seq<byte>) returns (ok: bool, bytes: seq<byte>, writeCalls: nat, readCalls: nat)
      requires Valid()
      modifies this`data, this`nodes, this`size, mem
      ensures Valid() && OthersKept(old(Lay()), Lay())
      ensures F.KeptOutside(old(Abs()), Abs(), pos, |buf|)
      ensures ok <==> mem.failures == old(mem.failures)
      ensures ok ==> bytes == buf && writeCalls == readCalls == F.QuantaTouched(old(quantum), pos, |buf|)
    {
      bytes, readCalls := [], 0;
      ok, writeCalls := WriteAll(pos, buf);
      if ok {
        bytes, readCalls := ReadAll(pos, |buf|);
        F.HoldsUnique(Abs(), pos, bytes, buf);
      }
    }
  }
}

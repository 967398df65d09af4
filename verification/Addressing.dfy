/**
How scull and scullp split a position in the file into a list item, a slot in the item's
array, and an offset in the slot's quantum.
*/
module Addressing {
  import opened Arithmetic

  /** Where a position lives: list item, slot in the item, offset in the quantum. */
  datatype Address = Address(item: nat, slot: nat, offset: nat)

  function Locate(quantum: nat, qset: nat, pos: nat): Address
    requires quantum > 0 && qset > 0
  {
    var itemsize := quantum * qset;
    var rest := pos % itemsize;
    Address(pos / itemsize, rest / quantum, rest % quantum)
  }

  function Position(quantum: nat, qset: nat, a: Address): nat {
    (a.item * qset + a.slot) * quantum + a.offset
  }

  /** Addresses in range and positions correspond one to one. */
  lemma LocatePosition(quantum: nat, qset: nat, a: Address)
    requires quantum > 0 && a.slot < qset && a.offset < quantum
    ensures Locate(quantum, qset, Position(quantum, qset, a)) == a
  {
    var pos := Position(quantum, qset, a);
    var rest := a.slot * quantum + a.offset;
    MulBound(a.slot, qset, quantum);
    Distribute(a.item, qset, a.slot, quantum);
    DivModUnique(quantum * qset, a.item, rest);
    DivModUnique(quantum, a.slot, a.offset);
  }

  lemma PositionLocate(quantum: nat, qset: nat, pos: nat)
    requires quantum > 0 && qset > 0
    ensures
      var a := Locate(quantum, qset, pos);
      && a.slot < qset && a.offset < quantum
      && Position(quantum, qset, a) == pos
      && a.offset == pos % quantum && a.item * qset + a.slot == pos / quantum
      && a.item == pos / quantum / qset
  {
    var a := Locate(quantum, qset, pos);
    var itemsize := quantum * qset;
    var rest := pos % itemsize;
    assert pos == a.item * itemsize + rest;
    assert rest == a.slot * quantum + a.offset;
    if qset <= a.slot {
      assert rest >= a.slot * quantum >= qset * quantum by {
        if qset < a.slot {
          MulBound(qset, a.slot, quantum);
        }
      }
    }
    Distribute(a.item, qset, a.slot, quantum);
    DivModUnique(quantum, a.item * qset + a.slot, a.offset);
    DivModUnique(qset, a.item, a.slot);
  }

  /** Positions in the quantum of `pos` share its item and slot. */
  lemma SameQuantum(quantum: nat, qset: nat, pos: nat, k: nat)
    requires quantum > 0 && qset > 0
    requires k < quantum - Locate(quantum, qset, pos).offset
    ensures Locate(quantum, qset, pos + k) == Locate(quantum, qset, pos).(offset := Locate(quantum, qset, pos).offset + k)
  {
    var a := Locate(quantum, qset, pos);
    PositionLocate(quantum, qset, pos);
    LocatePosition(quantum, qset, a.(offset := a.offset + k));
  }

  /** Two positions share item and slot exactly if they lie in the same stretch of `quantum` bytes. */
  lemma SameSlotIff(quantum: nat, qset: nat, pos: nat, p: nat)
    requires quantum > 0 && qset > 0
    ensures
      var a := Locate(quantum, qset, pos);
      var b := Locate(quantum, qset, p);
      && a.offset == pos % quantum && a.offset < quantum && b.offset < quantum
      && (a.item == b.item && a.slot == b.slot <==> pos - pos % quantum <= p < pos - pos % quantum + quantum)
      && (a.item == b.item && a.slot == b.slot ==> b.offset - a.offset == p - pos)
  {
    var a := Locate(quantum, qset, pos);
    var b := Locate(quantum, qset, p);
    PositionLocate(quantum, qset, pos);
    PositionLocate(quantum, qset, p);
    if pos - pos % quantum <= p < pos - pos % quantum + quantum {
      var k := p - (pos - pos % quantum);
      LocatePosition(quantum, qset, a.(offset := k));
    }
  }
}

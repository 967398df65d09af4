/**
The scullp driver's methods, proved against the functions of `Scullp`. Operations run under
the device mutex; the answers of the allocators and of the user copies are parameters.
*/
module ScullpDevice {
  import opened Addressing
  import opened Arithmetic
  import opened Kernel
  import opened Scullp

  /**
  The subtract-and-walk loop of the page fault, over a list of `len` items: it ends at
  quotient and remainder, or past the end of a shorter list.
  */
  method Walk(len: nat, qset: nat, number: nat) returns (ptr: nat, page: nat)
    requires qset > 0
    ensures ptr < len ==> ptr == number / qset && page == number % qset
    ensures ptr == len ==> number / qset >= len
    ensures ptr <= len
  {
    ptr, page := 0, number;
    while ptr < len && page >= qset
      invariant ptr <= len && number == ptr * qset + page
    {
      assert (ptr + 1) * qset == ptr * qset + qset;
      ptr, page := ptr + 1, page - qset;
    }
    if page < qset {
      DivModUnique(qset, ptr, page);
    } else {
      DivModUnique(qset, ptr, 0);
      DivMonotone(ptr * qset, number, qset);
    }
  }

  class ScullpDev {
    var items: seq<Item>
    var qset: nat
    var size: nat
    var vmas: int
    var pages: map<Page, seq<byte>>

    ghost function Value(): Dev
      reads this
    {
      Dev(items, qset, size, vmas, pages)
    }

    constructor (order: nat, qset: nat)
      requires qset > 0
      ensures Value() == Dev([Item(order, None)], qset, 0, 0, map[]) && Inv(Value())
    {
      items := [Item(order, None)];
      this.qset, size, vmas, pages := qset, 0, 0, map[];
    }

    /** Follows the list to item `n`, appending zeroed items; node allocation is taken to succeed. */
    method Follow(n: nat)
      requires items != []
      modifies this`items
      ensures items == Followed(old(items), n)
    {
      var at, left := 0, n;
      while left != 0
        invariant 0 <= left <= n && at == n - left && at < |items|
        invariant items == Followed(old(items), at)
        decreases left
      {
        if at + 1 == |items| {
          items := items + [Item(0, None)];
        }
        at, left := at + 1, left - 1;
      }
    }

    method Write(pos: nat, buf: seq<byte>, k: Answers) returns (r: Result<nat>)
      requires Inv(Value()) && Plausible(Value(), k) && Fits(Value(), pos, |buf|)
      modifies this
      ensures (Value(), r) == WriteTo(old(Value()), pos, buf, k)
      ensures Inv(Value()) && Stable(old(Value()), Value())
    {
      ghost var d := Value();
      WriteKeepsPages(d, pos, buf, k);
      RoomKeepsPages(d, pos, k);
      var quantum := QuantumSize(items[0].order);
      var a := Locate(quantum, qset, pos);
      var ok := Reserve(a, k, pos);
      if !ok {
        return Err(ENOMEM);
      }
      CopyStaysInPages(d, pos, |buf|, k);
      var p := items[a.item].data.value[a.slot];
      var count := if |buf| > quantum - a.offset then quantum - a.offset else |buf|;
      var copied := Min(count, k.reachable);
      pages := pages[p := Overlay(pages[p], a.offset, buf[..copied])];
      if copied < count {
        return Err(EFAULT);
      }
      if size < pos + count {
        size := pos + count;
      }
      return Done(count);
    }

    /** Makes room for `pos`: list items, then the slot array, then a zeroed block of pages. */
    method Reserve(a: Address, k: Answers, ghost pos: nat) returns (ok: bool)
      requires Inv(Value()) && Plausible(Value(), k) && a == Where(Value(), pos)
      modifies this`items, this`pages
      ensures Value() == Room(old(Value()), pos, k).0
      ensures ok <==> Room(old(Value()), pos, k).1 != 0
      ensures ok ==> a.item < |items| && items[a.item].data.Some? && a.slot < |items[a.item].data.value|
    {
      ghost var d := Value();
      PositionLocate(QuantumSize(Order(d)), d.qset, pos);
      FollowedItems(d, a.item);
      Follow(a.item);
      SlottedItems(Value(), a.item);
      if items[a.item].data.None? {
        if !k.slots {
          return false;
        }
        items := items[a.item := items[a.item].(data := Some(seq(qset, _ => 0)))];
      }
      if items[a.item].data.value[a.slot] == 0 {
        if k.page == 0 {
          return false;
        }
        var zeroed := seq(QuantumSize(items[a.item].order), _ => 0 as byte);
        items := items[a.item := items[a.item].(data := Some(items[a.item].data.value[a.slot := k.page]))];
        pages := pages[k.page := zeroed];
      }
      return true;
    }

    method Read(pos: nat, count: nat, reachable: nat) returns (r: Result<seq<byte>>)
      requires Inv(Value()) && ReadFits(Value(), pos, count)
      modifies this`items
      ensures (Value(), r) == ReadFrom(old(Value()), pos, count, reachable)
      ensures Inv(Value()) && Stable(old(Value()), Value())
    {
      ghost var d := Value();
      if pos > size {
        return Done([]);
      }
      var n := if pos + count > size then size - pos else count;
      var quantum := QuantumSize(items[0].order);
      var a := Locate(quantum, qset, pos);
      FollowedItems(d, a.item);
      ReadStaysInPages(d, pos, n);
      Follow(a.item);
      assert PageAt(items, a.item, a.slot) == PageAt(d.items, a.item, a.slot);
      var p := PageAt(items, a.item, a.slot);
      if p == 0 {
        return Done([]);
      }
      if n > quantum - a.offset {
        n := quantum - a.offset;
      }
      if reachable < n {
        return Err(EFAULT);
      }
      return Done(pages[p][a.offset..a.offset + n]);
    }

    /**
    The page fault: walks the list, an item of `qset` pages at a time, to the page at offset
    `off` of the device. The walk ends, and finds the page of read and write at order 0.
    */
    method Nopage(off: nat) returns (p: Page)
      requires Inv(Value())
      ensures p == FaultPage(Value(), off)
      ensures Order(Value()) == 0 && off < size ==> p == PageAt(items, Where(Value(), off).item, Where(Value(), off).slot)
      ensures p != 0 ==> p in pages
    {
      if off >= size {
        return 0;
      }
      if Order(Value()) == 0 {
        FaultAgreesAtOrderZero(Value(), off);
      }
      var ptr, page := Walk(|items|, qset, off / PAGE_SIZE);
      assert PageOk(Value(), FaultSlot(qset, off).0, FaultSlot(qset, off).1);
      if ptr < |items| && items[ptr].data.Some? {
        assert ItemOk(Value(), ptr);
        p := items[ptr].data.value[page];
      } else {
        p := 0;
      }
    }

    method Mmap() returns (r: Result<()>)
      requires Inv(Value())
      modifies this`vmas
      ensures r == if Order(Value()) != 0 then Err(ENODEV) else Done(())
      ensures vmas == old(vmas) + (if r.Done? then 1 else 0) && Inv(Value())
    {
      CountingKeepsPages(Value(), vmas + 1);
      if items[0].order != 0 {
        return Err(ENODEV);
      }
      VmaOpen();
      return Done(());
    }

    method VmaOpen()
      modifies this`vmas
      ensures vmas == old(vmas) + 1
    {
      vmas := vmas + 1;
    }

    method VmaClose()
      modifies this`vmas
      ensures vmas == old(vmas) - 1
    {
      vmas := vmas - 1;
    }

    /** free_pages: only a page that is allocated may be freed. */
    method FreePage(p: Page)
      requires p in pages
      modifies this`pages
      ensures pages == old(pages) - {p}
    {
      pages := pages - {p};
    }

    /** Frees the pages of item `i`, each of them once. */
    method FreeItem(i: nat, ghost d: Dev)
      requires Inv(d) && items == d.items && i < |items| && items[i].data.Some?
      requires pages == d.pages - AllPages(d.items[..i])
      modifies this`pages
      ensures pages == old(pages) - SlotPages(items[i].data.value)
    {
      var slots := items[i].data.value;
      for slot := 0 to |slots|
        invariant pages == old(pages) - SlotPages(slots[..slot])
      {
        assert slots[..slot + 1] == slots[..slot] + [slots[slot]];
        if slots[slot] != 0 {
          NotYetFreed(d, i, slot);
          FreePage(slots[slot]);
        }
      }
      assert slots[..|slots|] == slots;
    }

    /** Frees the pages of all items. */
    method FreeAllPages()
      requires Inv(Value())
      modifies this`pages
      ensures pages == old(pages) - AllPages(items)
    {
      ghost var d := Value();
      for i := 0 to |items|
        invariant pages == d.pages - AllPages(d.items[..i])
      {
        assert d.items[..i + 1][..i] == d.items[..i];
        if items[i].data.Some? {
          FreeItem(i, d);
        }
      }
      assert d.items[..|items|] == d.items;
    }

    /** Frees every page once and resets the geometry, unless the device is mapped. */
    method Trim(order: nat, newQset: nat) returns (r: Result<()>)
      requires Inv(Value()) && newQset > 0
      modifies this
      ensures Value() == TrimTo(old(Value()), order, newQset) && Inv(Value())
      ensures r == if old(vmas) != 0 then Err(EBUSY) else Done(())
      ensures r.Done? ==> size == 0 && qset == newQset && items == [Item(order, None)] && pages == map[]
      ensures r.Err? ==> Value() == old(Value())
    {
      if vmas != 0 {
        return Err(EBUSY);
      }
      FreeAllPages();
      items, qset, size := [Item(order, None)], newQset, 0;
      TrimLeavesNothing(old(Value()), order, newQset);
      EmptyDevIsFine(Value(), order, newQset);
      return Done(());
    }
  }
}

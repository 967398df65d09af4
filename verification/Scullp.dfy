/**
The scullp device: scull's storage made of whole pages, with memory mapping.

A device value holds the list items in order (the first is embedded in the device), the pages
allocated from the page allocator, the number of active mappings and the geometry. Page
address 0 is NULL. What the page allocator and kmalloc answer is given to each operation.
*/
module Scullp {
  import opened Addressing
  import opened Arithmetic
  import opened Kernel

  type Page = nat

  const PAGE_SIZE: nat := 4096

  function Pow2(n: nat): (p: nat)
    ensures p >= 1
  {
    if n == 0 then 1 else 2 * Pow2(n - 1)
  }

  /** The size of a block of pages of a given order. */
  function QuantumSize(order: nat): (q: nat)
    ensures q >= PAGE_SIZE
  {
    PAGE_SIZE * Pow2(order)
  }

  datatype Item = Item(order: nat, data: Option<seq<Page>>)

  datatype Dev = Dev(items: seq<Item>, qset: nat, size: nat, vmas: int, pages: map<Page, seq<byte>>)

  function PageAt(items: seq<Item>, i: nat, slot: nat): Page {
    if i < |items| && items[i].data.Some? && slot < |items[i].data.value| then items[i].data.value[slot] else 0
  }

  ghost predicate ItemOk(d: Dev, i: nat)
    requires i < |d.items|
  {
    && (d.items[i].data.Some? ==> |d.items[i].data.value| == d.qset)
    && (i > 0 ==> d.items[i].order == 0)
  }

  ghost predicate PageOk(d: Dev, i: nat, slot: nat) {
    var p := PageAt(d.items, i, slot);
    p != 0 ==> p in d.pages && |d.pages[p]| == QuantumSize(d.items[i].order)
  }

  /** No two slots point to the same page. */
  ghost predicate NoSharing(items: seq<Item>) {
    forall i: nat, slot: nat, j: nat, t: nat ::
      PageAt(items, i, slot) != 0 && PageAt(items, i, slot) == PageAt(items, j, t) ==> i == j && slot == t
  }

  /** The pages an array of slots points to. */
  function SlotPages(slots: seq<Page>): set<Page> {
    set p | p in slots && p != 0
  }

  function ItemPages(item: Item): set<Page> {
    if item.data.Some? then SlotPages(item.data.value) else {}
  }

  function AllPages(items: seq<Item>): set<Page> {
    if items == [] then {} else AllPages(items[..|items| - 1]) + ItemPages(items[|items| - 1])
  }

  /**
  Every page a slot points to is allocated, with the order of its list item, for this slot alone,
  and there are no other pages.
  */
  ghost predicate Inv(d: Dev) {
    && d.items != [] && d.qset > 0 && 0 !in d.pages
    && (forall i :: 0 <= i < |d.items| ==> ItemOk(d, i))
    && (forall i: nat, slot: nat :: PageOk(d, i, slot))
    && NoSharing(d.items)
    && d.pages.Keys == AllPages(d.items)
  }

  lemma {:induction false} AllPagesAreInSlots(items: seq<Item>, n: nat, p: Page)
    requires n <= |items| && p in AllPages(items[..n])
    ensures p != 0 && exists i: nat, slot: nat :: i < n && PageAt(items, i, slot) == p
  {
    assert items[..n][..n - 1] == items[..n - 1];
    if p in AllPages(items[..n - 1]) {
      AllPagesAreInSlots(items, n - 1, p);
    } else {
      var slot: nat :| slot < |items[n - 1].data.value| && items[n - 1].data.value[slot] == p;
      assert PageAt(items, n - 1, slot) == p;
    }
  }

  lemma {:induction false} SlotIsInAllPages(items: seq<Item>, i: nat, slot: nat)
    requires PageAt(items, i, slot) != 0
    ensures PageAt(items, i, slot) in AllPages(items)
    decreases |items|
  {
    var before := items[..|items| - 1];
    if i < |before| {
      assert PageAt(before, i, slot) == PageAt(items, i, slot);
      SlotIsInAllPages(before, i, slot);
    }
  }

  /** The pages of a list are what its slots point to. */
  lemma AllPagesWithin(items: seq<Item>, items': seq<Item>, extra: Page)
    requires forall i: nat, slot: nat ::
               PageAt(items, i, slot) == PageAt(items', i, slot) || PageAt(items, i, slot) in {0, extra}
    ensures AllPages(items) <= AllPages(items') + {extra}
  {
    forall p | p in AllPages(items)
      ensures p in AllPages(items') + {extra}
    {
      assert items[..|items|] == items;
      AllPagesAreInSlots(items, |items|, p);
      var i: nat, slot: nat :| PageAt(items, i, slot) == p;
      if p != extra {
        SlotIsInAllPages(items', i, slot);
      }
    }
  }

  lemma SameAllPages(items: seq<Item>, items': seq<Item>)
    requires forall i: nat, slot: nat :: PageAt(items', i, slot) == PageAt(items, i, slot)
    ensures AllPages(items') == AllPages(items)
  {
    NullIsNoPage(items);
    NullIsNoPage(items');
    AllPagesWithin(items, items', 0);
    AllPagesWithin(items', items, 0);
  }

  lemma NullIsNoPage(items: seq<Item>)
    ensures 0 !in AllPages(items)
  {
    if 0 in AllPages(items) {
      assert items[..|items|] == items;
      AllPagesAreInSlots(items, |items|, 0);
    }
  }

  /** One slot that was empty gets a page. */
  lemma OneMorePage(items: seq<Item>, items': seq<Item>, i: nat, slot: nat, p: Page)
    requires p != 0 && PageAt(items, i, slot) == 0
    requires forall j: nat, t: nat :: PageAt(items', j, t) == if j == i && t == slot then p else PageAt(items, j, t)
    ensures AllPages(items') == AllPages(items) + {p}
  {
    NullIsNoPage(items);
    SlotIsInAllPages(items', i, slot);
    AllPagesWithin(items', items, p);
    AllPagesWithin(items, items', 0);
  }

  function Order(d: Dev): nat
    requires d.items != []
  {
    d.items[0].order
  }

  /** Where read and write look for a position. */
  function Where(d: Dev, pos: nat): Address
    requires d.items != [] && d.qset > 0
  {
    Locate(QuantumSize(Order(d)), d.qset, pos)
  }

  // The operations, as functions of the device

  /** Missing list items are appended, zeroed: without data and with order 0. */
  function Followed(items: seq<Item>, n: nat): seq<Item> {
    if n < |items| then items else items + seq(n + 1 - |items|, _ => Item(0, None))
  }

  function WithSlots(items: seq<Item>, i: nat, qset: nat): seq<Item>
    requires i < |items|
  {
    if items[i].data.Some? then items else items[i := items[i].(data := Some(seq(qset, _ => 0)))]
  }

  function WithPage(items: seq<Item>, i: nat, slot: nat, p: Page): seq<Item>
    requires i < |items| && items[i].data.Some? && slot < |items[i].data.value|
  {
    items[i := items[i].(data := Some(items[i].data.value[slot := p]))]
  }

  /** The blocks at this position have the size the device's order says: items behind the first have order 0. */
  predicate FitsOrder(d: Dev, pos: nat)
    requires d.items != [] && d.qset > 0
  {
    Order(d) == 0 || Where(d, pos).item == 0
  }

  /** How many bytes a call with a buffer of `len` bytes wants to copy: up to the end of the quantum. */
  function CopyLength(d: Dev, pos: nat, len: nat): nat
    requires d.items != [] && d.qset > 0
  {
    PositionLocate(QuantumSize(Order(d)), d.qset, pos);
    Min(len, QuantumSize(Order(d)) - Where(d, pos).offset)
  }

  /** A copy of up to `len` bytes at `pos` stays in its block (see `CopyStaysInPages`). */
  predicate Fits(d: Dev, pos: nat, len: nat)
    requires d.items != [] && d.qset > 0
  {
    FitsOrder(d, pos) || Where(d, pos).offset + CopyLength(d, pos, len) <= PAGE_SIZE
  }

  datatype Answers = Answers(slots: bool, page: Page, reachable: nat)

  /** The answers the kernel may give: a page allocation fails or yields a page not in use. */
  predicate Plausible(d: Dev, k: Answers) {
    k.page == 0 || k.page !in d.pages
  }

  /** The device after a write has made room for `pos`, and the page found there (0 if none). */
  function Room(d: Dev, pos: nat, k: Answers): (Dev, Page)
    requires Inv(d) && Plausible(d, k)
  {
    var a := Where(d, pos);
    var items := Followed(d.items, a.item);
    if items[a.item].data.None? && !k.slots then (d.(items := items), 0)
    else
      var slotted := WithSlots(items, a.item, d.qset);
      var p := PageAt(slotted, a.item, a.slot);
      if p != 0 then (d.(items := slotted), p)
      else if k.page == 0 || a.slot >= |slotted[a.item].data.value| then (d.(items := slotted), 0)
      else
        (d.(items := WithPage(slotted, a.item, a.slot, k.page),
            pages := d.pages[k.page := seq(QuantumSize(slotted[a.item].order), _ => 0)]),
         k.page)
  }

  /** Pages only appear: every slot that had a page keeps it, and it stays allocated. */
  ghost predicate PagesKept(d: Dev, d': Dev) {
    && d.pages.Keys <= d'.pages.Keys
    && forall i: nat, slot: nat :: PageAt(d.items, i, slot) != 0 ==>
         PageAt(d'.items, i, slot) == PageAt(d.items, i, slot)
  }

  lemma FollowedItems(d: Dev, n: nat)
    requires Inv(d)
    ensures
      var d' := d.(items := Followed(d.items, n));
      && Inv(d') && n < |d'.items| && Order(d') == Order(d)
      && forall i: nat, slot: nat :: PageAt(d'.items, i, slot) == PageAt(d.items, i, slot)
  {
    var d' := d.(items := Followed(d.items, n));
    forall i | 0 <= i < |d'.items|
      ensures ItemOk(d', i)
    {
      assert i < |d.items| ==> ItemOk(d, i);
    }
    forall i: nat, slot: nat
      ensures PageAt(d'.items, i, slot) == PageAt(d.items, i, slot) && PageOk(d', i, slot)
    {
      assert PageOk(d, i, slot);
    }
    SameAllPages(d.items, d'.items);
  }

  lemma SlottedItems(d: Dev, i: nat)
    requires Inv(d) && i < |d.items|
    ensures
      var d' := d.(items := WithSlots(d.items, i, d.qset));
      && Inv(d') && d'.items[i].data.Some? && |d'.items[i].data.value| == d.qset
      && Order(d') == Order(d) && d'.items[i].order == d.items[i].order
      && forall j: nat, slot: nat :: PageAt(d'.items, j, slot) == PageAt(d.items, j, slot)
  {
    var d' := d.(items := WithSlots(d.items, i, d.qset));
    assert ItemOk(d, i);
    forall j | 0 <= j < |d'.items|
      ensures ItemOk(d', j)
    {
      assert ItemOk(d, j);
    }
    forall j: nat, slot: nat
      ensures PageAt(d'.items, j, slot) == PageAt(d.items, j, slot) && PageOk(d', j, slot)
    {
      assert PageOk(d, j, slot);
    }
    SameAllPages(d.items, d'.items);
  }

  lemma PagedItems(d: Dev, i: nat, slot: nat, p: Page)
    requires Inv(d) && i < |d.items| && d.items[i].data.Some? && slot < d.qset
    requires PageAt(d.items, i, slot) == 0 && p != 0 && p !in d.pages
    ensures ItemOk(d, i)
    ensures
      var d' := d.(items := WithPage(d.items, i, slot, p),
                   pages := d.pages[p := seq(QuantumSize(d.items[i].order), _ => 0)]);
      && Inv(d') && Order(d') == Order(d) && PagesKept(d, d')
      && forall j: nat, t: nat ::
           PageAt(d'.items, j, t) == if j == i && t == slot then p else PageAt(d.items, j, t)
  {
    assert ItemOk(d, i);
    var d' := d.(items := WithPage(d.items, i, slot, p),
                 pages := d.pages[p := seq(QuantumSize(d.items[i].order), _ => 0)]);
    forall j | 0 <= j < |d'.items|
      ensures ItemOk(d', j)
    {
      assert ItemOk(d, j);
    }
    forall j: nat, t: nat
      ensures PageAt(d'.items, j, t) == (if j == i && t == slot then p else PageAt(d.items, j, t)) && PageOk(d', j, t)
    {
      assert PageOk(d, j, t);
    }
    FreshPageIsUnshared(d, d'.items, i, slot, p);
    OneMorePage(d.items, d'.items, i, slot, p);
  }

  lemma FreshPageIsUnshared(d: Dev, items: seq<Item>, i: nat, slot: nat, p: Page)
    requires Inv(d) && p !in d.pages
    requires forall j: nat, t: nat :: PageAt(items, j, t) == if j == i && t == slot then p else PageAt(d.items, j, t)
    ensures NoSharing(items)
  {
    forall j: nat, t: nat, j': nat, t': nat
      | PageAt(items, j, t) != 0 && PageAt(items, j, t) == PageAt(items, j', t')
      ensures j == j' && t == t'
    {
      assert PageOk(d, j, t) && PageOk(d, j', t');
    }
  }

  /** A slot that will be found empty gets a page only if the allocators give one. */
  predicate OutOfMemory(d: Dev, pos: nat, k: Answers)
    requires d.items != [] && d.qset > 0
  {
    var a := Where(d, pos);
    && PageAt(d.items, a.item, a.slot) == 0
    && (k.page == 0 || ((a.item >= |d.items| || d.items[a.item].data.None?) && !k.slots))
  }

  /** Making room keeps every page in its slot and adds at most one, in the slot of `pos`. */
  lemma RoomKeepsPages(d: Dev, pos: nat, k: Answers)
    requires Inv(d) && Plausible(d, k)
    ensures
      var (d', p) := Room(d, pos, k);
      var a := Where(d, pos);
      && Inv(d') && PagesKept(d, d') && Order(d') == Order(d)
      && d'.qset == d.qset && d'.size == d.size && d'.vmas == d.vmas
      && p == PageAt(d'.items, a.item, a.slot) && a.item < |d'.items|
      && (p == 0 <==> OutOfMemory(d, pos, k))
      && (forall i: nat, slot: nat :: (i, slot) != (a.item, a.slot) ==>
            PageAt(d'.items, i, slot) == PageAt(d.items, i, slot))
      && (if p != 0 && PageAt(d.items, a.item, a.slot) == 0
          then p !in d.pages && d'.pages == d.pages[p := seq(QuantumSize(d'.items[a.item].order), _ => 0)]
          else d'.pages == d.pages)
  {
    var a := Where(d, pos);
    PositionLocate(QuantumSize(Order(d)), d.qset, pos);
    var d1 := d.(items := Followed(d.items, a.item));
    FollowedItems(d, a.item);
    SlottedItems(d1, a.item);
    var d2 := d1.(items := WithSlots(d1.items, a.item, d.qset));
    if PageAt(d2.items, a.item, a.slot) == 0 && k.page != 0 {
      PagedItems(d2, a.item, a.slot, k.page);
    }
  }

  /** The copy of a write stays inside the block at its position exactly if `Fits` holds. */
  lemma CopyStaysInPages(d: Dev, pos: nat, len: nat, k: Answers)
    requires Inv(d) && Plausible(d, k) && Room(d, pos, k).1 != 0
    ensures
      var (d', p) := Room(d, pos, k);
      var a := Where(d, pos);
      && p in d'.pages
      && |d'.pages[p]| == (if FitsOrder(d, pos) then QuantumSize(Order(d)) else PAGE_SIZE)
      && (a.offset + CopyLength(d, pos, len) <= |d'.pages[p]| <==> Fits(d, pos, len))
  {
    var a := Where(d, pos);
    var (d', p) := Room(d, pos, k);
    RoomKeepsPages(d, pos, k);
    PositionLocate(QuantumSize(Order(d)), d.qset, pos);
    assert PageOk(d', a.item, a.slot) && ItemOk(d', a.item);
  }

  lemma BehindFirstItem(d: Dev)
    requires d == Dev([Item(1, None)], 1, 0, 0, map[])
    ensures
      var pos := 2 * PAGE_SIZE;
      Where(d, pos) == Address(1, 0, 0) && CopyLength(d, pos, pos) == pos && !Fits(d, pos, pos)
  {
    assert Pow2(1) == 2 * Pow2(0) == 2;
    LocatePosition(2 * PAGE_SIZE, 1, Address(1, 0, 0));
  }

  /** At order 1 with one slot per item, a write of two pages behind the first item leaves its block. */
  lemma SomeCopiesLeaveTheirPages() returns (s: State, pos: nat, len: nat, k: Answers)
    ensures IsRun([s], []) && Inv(s.dev) && Plausible(s.dev, k) && k.reachable == len
    ensures
      var (d', p) := Room(s.dev, pos, k);
      p in d'.pages && Where(s.dev, pos).offset + CopyLength(s.dev, pos, len) > |d'.pages[p]|
  {
    s := State(Dev([Item(1, None)], 1, 0, 0, map[]), {}, 1, 1);
    pos, len, k := 2 * PAGE_SIZE, 2 * PAGE_SIZE, Answers(true, 7, 2 * PAGE_SIZE);
    BehindFirstItem(s.dev);
    RoomKeepsPages(s.dev, pos, k);
    CopyStaysInPages(s.dev, pos, len, k);
  }

  lemma PowersGrow(n: nat)
    ensures n > 0 ==> Pow2(n) >= 2
  {
  }

  /** A block of order `a + b` is as large as 2 ** b blocks of order `a`; order 0 is one page, order 1 two. */
  lemma {:induction false} OrdersAdd(a: nat, b: nat)
    ensures QuantumSize(a + b) == QuantumSize(a) * Pow2(b)
    ensures QuantumSize(0) == PAGE_SIZE && QuantumSize(1) == 2 * PAGE_SIZE
  {
    assert Pow2(1) == 2 * Pow2(0);
    if b > 0 {
      OrdersAdd(a, b - 1);
      assert Pow2(a + b) == 2 * Pow2(a + b - 1);
    }
  }

  /** One call copies up to the next multiple of the block size of the device's order. */
  lemma CopyReaches(d: Dev, pos: nat, len: nat)
    requires d.items != [] && d.qset > 0
    ensures
      var q := QuantumSize(Order(d));
      CopyLength(d, pos, len) == Min(len, q - pos % q)
  {
    PositionLocate(QuantumSize(Order(d)), d.qset, pos);
  }

  /** How many bytes a write stores, also if it then fails. */
  function Stored(d: Dev, pos: nat, len: nat, k: Answers): nat
    requires d.items != [] && d.qset > 0
  {
    if OutOfMemory(d, pos, k) then 0 else Min(CopyLength(d, pos, len), k.reachable)
  }

  /** A write of `buf` at `pos` whose copy stays in its block. */
  function WriteTo(d: Dev, pos: nat, buf: seq<byte>, k: Answers): (Dev, Result<nat>)
    requires Inv(d) && Plausible(d, k) && Fits(d, pos, |buf|)
  {
    var (d', p) := Room(d, pos, k);
    if p == 0 then (d', Err(ENOMEM))
    else
      CopyStaysInPages(d, pos, |buf|, k);
      var count := CopyLength(d, pos, |buf|);
      var copied := Min(count, k.reachable);
      var d'' := d'.(pages := d'.pages[p := Overlay(d'.pages[p], Where(d, pos).offset, buf[..copied])]);
      if copied < count then (d'', Err(EFAULT))
      else (d''.(size := Max(d.size, pos + count)), Done(count))
  }

  /** A read of up to `count` bytes at `pos` stays inside the block it finds. */
  predicate ReadFits(d: Dev, pos: nat, count: nat)
    requires d.items != [] && d.qset > 0
  {
    pos <= d.size ==> Fits(d, pos, Min(count, d.size - pos))
  }

  lemma ReadStaysInPages(d: Dev, pos: nat, len: nat)
    requires Inv(d)
    ensures
      var a := Where(d, pos);
      var p := PageAt(d.items, a.item, a.slot);
      p != 0 ==>
        && p in d.pages
        && |d.pages[p]| == (if FitsOrder(d, pos) then QuantumSize(Order(d)) else PAGE_SIZE)
        && (a.offset + CopyLength(d, pos, len) <= |d.pages[p]| <==> Fits(d, pos, len))
  {
    var a := Where(d, pos);
    PositionLocate(QuantumSize(Order(d)), d.qset, pos);
    assert PageOk(d, a.item, a.slot);
    assert a.item < |d.items| ==> ItemOk(d, a.item);
  }

  /** A read follows the list like a write does, and reads from the page it finds. */
  function ReadFrom(d: Dev, pos: nat, count: nat, reachable: nat): (Dev, Result<seq<byte>>)
    requires Inv(d) && ReadFits(d, pos, count)
  {
    if pos > d.size then (d, Done([]))
    else
      var a := Where(d, pos);
      var p := PageAt(d.items, a.item, a.slot);
      var d' := d.(items := Followed(d.items, a.item));
      ReadStaysInPages(d, pos, Min(count, d.size - pos));
      if p == 0 then (d', Done([]))
      else
        var n := CopyLength(d, pos, Min(count, d.size - pos));
        if reachable < n then (d', Err(EFAULT)) else (d', Done(d.pages[p][a.offset..a.offset + n]))
  }

  // The bytes of the device

  /** The byte at a position, if the slot has a page and the page reaches so far. */
  function ByteAt(d: Dev, pos: nat): Option<byte>
    requires d.items != [] && d.qset > 0
  {
    var a := Where(d, pos);
    var p := PageAt(d.items, a.item, a.slot);
    if p in d.pages && a.offset < |d.pages[p]| then Some(d.pages[p][a.offset]) else None
  }

  predicate SameSlot(d: Dev, pos: nat, x: nat)
    requires d.items != [] && d.qset > 0
  {
    Where(d, pos).item == Where(d, x).item && Where(d, pos).slot == Where(d, x).slot
  }

  /** A copy stays in the slot of its first byte, and slots hold positions in order. */
  lemma CopyIsInSlot(d: Dev, pos: nat, len: nat, x: nat)
    requires d.items != [] && d.qset > 0
    ensures pos <= x < pos + CopyLength(d, pos, len) ==> SameSlot(d, pos, x)
    ensures SameSlot(d, pos, x) ==> Where(d, x).offset - Where(d, pos).offset == x - pos
  {
    SameSlotIff(QuantumSize(Order(d)), d.qset, pos, x);
  }

  /** Making room changes no byte; the new page, if any, holds zeroes. */
  lemma RoomKeepsBytes(d: Dev, pos: nat, k: Answers, x: nat)
    requires Inv(d) && Plausible(d, k)
    ensures
      var d' := Room(d, pos, k).0;
      && d'.items != [] && d'.qset > 0
      && (ByteAt(d', x) == ByteAt(d, x)
          || (ByteAt(d, x) == None && ByteAt(d', x) == Some(0) && SameSlot(d, pos, x)
              && PageAt(d.items, Where(d, pos).item, Where(d, pos).slot) == 0))
  {
    RoomKeepsPages(d, pos, k);
    var a := Where(d, x);
    assert PageOk(d, a.item, a.slot);
  }

  /** Storing into the page of one slot changes exactly the bytes stored. */
  lemma StoreKeepsBytes(d: Dev, pos: nat, data: seq<byte>, p: Page, x: nat)
    requires Inv(d) && p == PageAt(d.items, Where(d, pos).item, Where(d, pos).slot) && p != 0 && p in d.pages
    requires Where(d, pos).offset + |data| <= |d.pages[p]| && |data| <= CopyLength(d, pos, |data|)
    ensures
      var d' := d.(pages := d.pages[p := Overlay(d.pages[p], Where(d, pos).offset, data)]);
      ByteAt(d', x) == if pos <= x < pos + |data| then Some(data[x - pos]) else ByteAt(d, x)
  {
    var a, b := Where(d, pos), Where(d, x);
    CopyIsInSlot(d, pos, |data|, x);
    if !SameSlot(d, pos, x) {
      assert PageAt(d.items, b.item, b.slot) == p ==> b.item == a.item && b.slot == a.slot;
    }
  }

  lemma SizeKeepsBytes(d: Dev, size: nat, x: nat)
    requires d.items != [] && d.qset > 0
    ensures ByteAt(d.(size := size), x) == ByteAt(d, x)
  {
  }

  /**
  A write changes exactly the bytes it stores, whether it succeeds or fails; besides, a block that it
  had to allocate reads as zeroes where there was nothing before.
  */
  lemma WriteChangesExactly(d: Dev, pos: nat, buf: seq<byte>, k: Answers, x: nat)
    requires Inv(d) && Plausible(d, k) && Fits(d, pos, |buf|)
    ensures
      var d' := WriteTo(d, pos, buf, k).0;
      var n := Stored(d, pos, |buf|, k);
      && d'.items != [] && d'.qset > 0
      && (pos <= x < pos + n ==> ByteAt(d', x) == Some(buf[x - pos]))
      && (!(pos <= x < pos + n) ==>
            || ByteAt(d', x) == ByteAt(d, x)
            || (ByteAt(d, x) == None && ByteAt(d', x) == Some(0) && SameSlot(d, pos, x)
                && PageAt(d.items, Where(d, pos).item, Where(d, pos).slot) == 0))
  {
    var (d1, p) := Room(d, pos, k);
    var n := Stored(d, pos, |buf|, k);
    RoomKeepsPages(d, pos, k);
    RoomKeepsBytes(d, pos, k, x);
    if p != 0 {
      CopyStaysInPages(d, pos, |buf|, k);
      StoreKeepsBytes(d1, pos, buf[..n], p, x);
      var d2 := d1.(pages := d1.pages[p := Overlay(d1.pages[p], Where(d, pos).offset, buf[..n])]);
      SizeKeepsBytes(d2, WriteTo(d, pos, buf, k).0.size, x);
    }
  }

  /** What a write reports, and when it fails. */
  lemma WriteReports(d: Dev, pos: nat, buf: seq<byte>, k: Answers)
    requires Inv(d) && Plausible(d, k) && Fits(d, pos, |buf|)
    ensures
      var (d', r) := WriteTo(d, pos, buf, k);
      var n := Stored(d, pos, |buf|, k);
      && (r == Err(ENOMEM) <==> OutOfMemory(d, pos, k))
      && (r == Err(EFAULT) <==> !OutOfMemory(d, pos, k) && n < CopyLength(d, pos, |buf|))
      && (r.Err? ==> d'.size == d.size)
      && (r.Done? ==> r.value == n == CopyLength(d, pos, |buf|) && d'.size == Max(d.size, pos + n))
  {
    RoomKeepsPages(d, pos, k);
  }

  /** How many bytes a read finds at a position: none in a hole or beyond the size. */
  function Readable(d: Dev, pos: nat, count: nat): nat
    requires d.items != [] && d.qset > 0
  {
    if pos >= d.size || ByteAt(d, pos) == None then 0 else CopyLength(d, pos, Min(count, d.size - pos))
  }

  /** A read returns the bytes of the device up to the end of the file, the quantum or the count. */
  lemma ReadReturnsBytes(d: Dev, pos: nat, count: nat, reachable: nat)
    requires Inv(d) && ReadFits(d, pos, count)
    ensures
      var (d', r) := ReadFrom(d, pos, count, reachable);
      && d'.items != [] && d'.qset > 0
      && (forall x: nat :: ByteAt(d', x) == ByteAt(d, x))
      && (r.Done? ==> forall i :: 0 <= i < |r.value| ==> ByteAt(d, pos + i) == Some(r.value[i]))
      && (r.Done? ==> |r.value| == Readable(d, pos, count))
      && (r == Err(EFAULT) <==> reachable < Readable(d, pos, count)) && (r.Err? ==> r.error == EFAULT)
  {
    var r := ReadFrom(d, pos, count, reachable).1;
    if pos <= d.size {
      FollowedItems(d, Where(d, pos).item);
      ReadStaysInPages(d, pos, Min(count, d.size - pos));
      PositionLocate(QuantumSize(Order(d)), d.qset, pos);
      if r.Done? {
        forall i | 0 <= i < |r.value|
          ensures ByteAt(d, pos + i) == Some(r.value[i])
        {
          CopyIsInSlot(d, pos, Min(count, d.size - pos), pos + i);
        }
      }
    }
  }

  /** When trimming comes to a slot, the page there has not been freed yet. */
  lemma NotYetFreed(d: Dev, i: nat, slot: nat)
    requires Inv(d) && i < |d.items| && d.items[i].data.Some? && slot < |d.items[i].data.value|
    requires PageAt(d.items, i, slot) != 0
    ensures PageAt(d.items, i, slot) in d.pages - AllPages(d.items[..i]) - SlotPages(d.items[i].data.value[..slot])
  {
    var p, slots := PageAt(d.items, i, slot), d.items[i].data.value;
    assert PageOk(d, i, slot);
    if p in AllPages(d.items[..i]) {
      AllPagesAreInSlots(d.items, i, p);
    }
    forall t: nat | t < slot
      ensures slots[t] != p
    {
      assert PageAt(d.items, i, t) == slots[t];
    }
  }

  /** Trimming frees all pages and takes over the module-wide geometry, unless pages are mapped. */
  function TrimTo(d: Dev, order: nat, qset: nat): Dev {
    if d.vmas != 0 then d
    else Dev([Item(order, None)], qset, 0, d.vmas, d.pages - AllPages(d.items))
  }

  /** The slot a page fault looks at: page number `off / PAGE_SIZE`, counted in items of `qset`. */
  function FaultSlot(qset: nat, off: nat): (nat, nat)
    requires qset > 0
  {
    (off / PAGE_SIZE / qset, off / PAGE_SIZE % qset)
  }

  function FaultPage(d: Dev, off: nat): Page
    requires d.qset > 0
  {
    if off >= d.size then 0 else PageAt(d.items, FaultSlot(d.qset, off).0, FaultSlot(d.qset, off).1)
  }

  // Page faults against read and write

  /** Faults and read/write look in the same slot for every position exactly if the order is 0. */
  lemma FaultAgreesWithReadWriteIff(d: Dev)
    requires d.items != [] && d.qset > 0
    ensures
      Order(d) == 0 <==>
      forall pos :: FaultSlot(d.qset, pos) == (Where(d, pos).item, Where(d, pos).slot)
  {
    if Order(d) == 0 {
      forall pos: nat
        ensures FaultSlot(d.qset, pos) == (Where(d, pos).item, Where(d, pos).slot)
      {
        FaultAgreesAtOrderZero(d, pos);
      }
    } else {
      OrderHidesPages(d);
    }
  }

  lemma FaultAgreesAtOrderZero(d: Dev, pos: nat)
    requires d.items != [] && d.qset > 0 && Order(d) == 0
    ensures FaultSlot(d.qset, pos) == (Where(d, pos).item, Where(d, pos).slot)
    ensures Where(d, pos).offset == pos % PAGE_SIZE
  {
    var a := Where(d, pos);
    PositionLocate(PAGE_SIZE, d.qset, pos);
    DivModUnique(d.qset, a.item, a.slot);
  }

  /** At a positive order, position PAGE_SIZE is still in slot 0 of item 0 for read and write. */
  lemma OrderHidesPages(d: Dev)
    requires d.items != [] && d.qset > 0 && Order(d) > 0
    ensures FaultSlot(d.qset, PAGE_SIZE) != (Where(d, PAGE_SIZE).item, Where(d, PAGE_SIZE).slot)
  {
    var q := QuantumSize(Order(d));
    PowersGrow(Order(d));
    assert q > PAGE_SIZE;
    LocatePosition(q, d.qset, Address(0, 0, PAGE_SIZE));
    assert Position(q, d.qset, Address(0, 0, PAGE_SIZE)) == PAGE_SIZE;
    assert Where(d, PAGE_SIZE) == Address(0, 0, PAGE_SIZE);
    var at := FaultSlot(d.qset, PAGE_SIZE);
    assert 1 == d.qset * at.0 + at.1;
  }

  /** At order 0 a fault gives the page whose bytes a read at that position returns, or neither does. */
  lemma FaultShowsWhatReadReturns(d: Dev, pos: nat, count: nat)
    requires Inv(d) && Order(d) == 0 && pos < d.size
    ensures
      var p, at := FaultPage(d, pos), pos % PAGE_SIZE;
      var got := ReadFrom(d, pos, count, count).1;
      && (p == 0 ==> got == Done([]))
      && (p != 0 ==>
            && p in d.pages && |d.pages[p]| == PAGE_SIZE
            && got == Done(d.pages[p][at..at + Min(Min(count, d.size - pos), PAGE_SIZE - at)]))
  {
    FaultAgreesAtOrderZero(d, pos);
    ReadStaysInPages(d, pos, count);
  }

  /** What was written can be seen through the mapping, at the same offset of the page. */
  lemma FaultShowsWhatWasWritten(d: Dev, pos: nat, buf: seq<byte>, k: Answers)
    requires Inv(d) && Order(d) == 0 && Plausible(d, k) && buf != []
    ensures
      var (d', r) := WriteTo(d, pos, buf, k);
      r.Done? ==>
        var p := FaultPage(d', pos);
        && 0 < r.value && p != 0 && p in d'.pages && pos % PAGE_SIZE + r.value <= |d'.pages[p]|
        && d'.pages[p][pos % PAGE_SIZE..pos % PAGE_SIZE + r.value] == buf[..r.value]
  {
    RoomKeepsPages(d, pos, k);
    if Room(d, pos, k).1 != 0 {
      CopyStaysInPages(d, pos, |buf|, k);
      FaultAgreesAtOrderZero(d, pos);
    }
  }

  // Runs

  datatype State = State(dev: Dev, maps: set<nat>, order: nat, qset: nat)

  datatype Op =
    | Mmap(v: nat)
    | VmaOpen(v: nat)
    | VmaClose(v: nat)
    | Fault(off: nat)
    | Write(pos: nat, buf: seq<byte>, k: Answers)
    | Read(pos: nat, count: nat, reachable: nat)
    | Ioctl(order: nat, qset: nat)
    | Open(writeOnly: bool)

  predicate Enabled(s: State, op: Op)
    requires s.dev.items != [] && s.dev.qset > 0
  {
    match op
    case Mmap(v) => v !in s.maps
    case VmaOpen(v) => v !in s.maps && s.maps != {}
    case VmaClose(v) => v in s.maps
    case Write(pos, buf, k) => Plausible(s.dev, k) && Fits(s.dev, pos, |buf|)
    case Read(pos, count, _) => ReadFits(s.dev, pos, count)
    case Ioctl(_, qset) => qset > 0
    case _ => true
  }

  function Apply(s: State, op: Op): State
    requires Inv(s.dev) && Enabled(s, op)
  {
    match op
    case Mmap(v) =>
      if Order(s.dev) != 0 then s
      else s.(dev := s.dev.(vmas := s.dev.vmas + 1), maps := s.maps + {v})
    case VmaOpen(v) => s.(dev := s.dev.(vmas := s.dev.vmas + 1), maps := s.maps + {v})
    case VmaClose(v) => s.(dev := s.dev.(vmas := s.dev.vmas - 1), maps := s.maps - {v})
    case Fault(_) => s
    case Write(pos, buf, k) => s.(dev := WriteTo(s.dev, pos, buf, k).0)
    case Read(pos, count, reachable) => s.(dev := ReadFrom(s.dev, pos, count, reachable).0)
    case Ioctl(order, qset) => s.(order := order, qset := qset)
    case Open(writeOnly) => if writeOnly then s.(dev := TrimTo(s.dev, s.order, s.qset)) else s
  }

  /** One step. Nothing is known about a device whose slots point to pages it does not have. */
  ghost predicate Next(s: State, op: Op, s': State) {
    && s.dev.items != [] && s.dev.qset > 0 && Enabled(s, op)
    && (Inv(s.dev) ==> s' == Apply(s, op))
  }

  ghost predicate IsRun(states: seq<State>, ops: seq<Op>) {
    && |states| == |ops| + 1
    && states[0].maps == {} && states[0].qset > 0
    && states[0].dev == Dev([Item(states[0].order, None)], states[0].qset, 0, 0, map[])
    && forall i :: 0 <= i < |ops| ==> Next(states[i], ops[i], states[i + 1])
  }

  ghost predicate RunInv(s: State) {
    && Inv(s.dev) && s.qset > 0
    && s.dev.vmas == |s.maps|
    && (s.maps != {} ==> Order(s.dev) == 0)
  }

  /** While a device is mapped: same geometry, no shrinking, every page where it was. */
  ghost predicate Stable(d: Dev, d': Dev)
    requires d.items != [] && d'.items != []
  {
    && Order(d') == Order(d) && d'.qset == d.qset && d'.size >= d.size && PagesKept(d, d')
  }

  lemma WriteKeepsPages(d: Dev, pos: nat, buf: seq<byte>, k: Answers)
    requires Inv(d) && Plausible(d, k) && Fits(d, pos, |buf|)
    ensures var d' := WriteTo(d, pos, buf, k).0; Inv(d') && Stable(d, d') && d'.vmas == d.vmas
  {
    RoomKeepsPages(d, pos, k);
    var (d', p) := Room(d, pos, k);
    if p != 0 {
      CopyStaysInPages(d, pos, |buf|, k);
      var d'' := WriteTo(d, pos, buf, k).0;
      forall i | 0 <= i < |d''.items|
        ensures ItemOk(d'', i)
      {
        assert ItemOk(d', i);
      }
      forall i: nat, slot: nat
        ensures PageOk(d'', i, slot)
      {
        assert PageOk(d', i, slot);
      }
    }
  }

  lemma CountingKeepsPages(d: Dev, vmas: int)
    requires Inv(d)
    ensures Inv(d.(vmas := vmas)) && Stable(d, d.(vmas := vmas))
  {
    var d' := d.(vmas := vmas);
    forall i | 0 <= i < |d'.items|
      ensures ItemOk(d', i)
    {
      assert ItemOk(d, i);
    }
    forall i: nat, slot: nat
      ensures PageOk(d', i, slot)
    {
      assert PageOk(d, i, slot);
    }
  }

  lemma ReadKeepsPages(d: Dev, pos: nat, count: nat, reachable: nat)
    requires Inv(d) && ReadFits(d, pos, count)
    ensures var d' := ReadFrom(d, pos, count, reachable).0; Inv(d') && Stable(d, d') && d'.vmas == d.vmas
  {
    if pos <= d.size {
      FollowedItems(d, Where(d, pos).item);
    }
  }

  lemma EmptyDevIsFine(d: Dev, order: nat, qset: nat)
    requires d.items == [Item(order, None)] && d.qset == qset > 0 && d.pages == map[]
    ensures Inv(d)
  {
    assert d.items[..0] == [];
    assert AllPages(d.items) == AllPages([]) + {};
  }

  /** Trimming an unmapped device leaves no page and no byte, and takes over the geometry. */
  lemma TrimLeavesNothing(d: Dev, order: nat, qset: nat)
    requires Inv(d) && d.vmas == 0 && qset > 0
    ensures
      var d' := TrimTo(d, order, qset);
      && d'.pages == map[] && d'.size == 0 && d'.items == [Item(order, None)] && d'.qset == qset && d'.vmas == 0
      && forall x: nat :: ByteAt(d', x) == None
  {
  }

  lemma CountingKeepsRunInv(s: State, op: Op)
    requires RunInv(s) && Enabled(s, op) && (op.Mmap? || op.VmaOpen? || op.VmaClose?)
    ensures RunInv(Apply(s, op)) && Stable(s.dev, Apply(s, op).dev)
  {
    var s' := Apply(s, op);
    OneMoreOrLess(s.maps, op.v);
    assert s'.dev == s.dev.(vmas := s'.dev.vmas);
    CountingKeepsPages(s.dev, s'.dev.vmas);
  }

  lemma OneMoreOrLess(maps: set<nat>, v: nat)
    ensures v !in maps ==> |maps + {v}| == |maps| + 1
    ensures v in maps ==> |maps - {v}| == |maps| - 1
  {
  }

  lemma DataKeepsRunInv(s: State, op: Op)
    requires RunInv(s) && Enabled(s, op) && (op.Write? || op.Read?)
    ensures RunInv(Apply(s, op)) && Stable(s.dev, Apply(s, op).dev)
  {
    if op.Write? {
      WriteKeepsPages(s.dev, op.pos, op.buf, op.k);
    } else {
      ReadKeepsPages(s.dev, op.pos, op.count, op.reachable);
    }
  }

  lemma OpenKeepsRunInv(s: State, op: Op)
    requires RunInv(s) && Enabled(s, op) && op.Open?
    ensures RunInv(Apply(s, op)) && (s.maps != {} ==> Stable(s.dev, Apply(s, op).dev))
  {
    if op.writeOnly && s.dev.vmas == 0 {
      TrimLeavesNothing(s.dev, s.order, s.qset);
      EmptyDevIsFine(Apply(s, op).dev, s.order, s.qset);
    }
  }

  lemma StepKeepsRunInv(s: State, op: Op, s': State)
    requires RunInv(s) && Next(s, op, s')
    ensures RunInv(s')
    ensures s.maps != {} ==> Stable(s.dev, s'.dev)
  {
    if op.Write? || op.Read? {
      DataKeepsRunInv(s, op);
    } else if op.Open? {
      OpenKeepsRunInv(s, op);
    } else if op.Mmap? || op.VmaOpen? || op.VmaClose? {
      CountingKeepsRunInv(s, op);
    } else {
      assert s'.dev == s.dev;
    }
  }

  /** In every run the mapping count is the number of live mappings, and mapped devices have order 0. */
  lemma {:induction false} MappingsAreCounted(states: seq<State>, ops: seq<Op>, i: nat)
    requires IsRun(states, ops) && i < |states|
    ensures RunInv(states[i])
  {
    if i > 0 {
      MappingsAreCounted(states, ops, i - 1);
      StepKeepsRunInv(states[i - 1], ops[i - 1], states[i]);
    } else {
      EmptyDevIsFine(states[0].dev, states[0].order, states[0].qset);
    }
  }

  lemma StableTransitive(a: Dev, b: Dev, c: Dev)
    requires a.items != [] && b.items != [] && c.items != [] && Stable(a, b) && Stable(b, c)
    ensures Stable(a, c)
  {
  }

  lemma MappedStepIsStable(states: seq<State>, ops: seq<Op>, j: nat)
    requires IsRun(states, ops) && j < |ops| && states[j].maps != {}
    ensures states[j].dev.items != [] && states[j + 1].dev.items != [] && Stable(states[j].dev, states[j + 1].dev)
  {
    MappingsAreCounted(states, ops, j);
    StepKeepsRunInv(states[j], ops[j], states[j + 1]);
  }

  /** As long as some mapping is live, no page moves or goes away, and the geometry stays. */
  lemma {:induction false} MappedPagesStay(states: seq<State>, ops: seq<Op>, i: nat, j: nat)
    requires IsRun(states, ops) && i <= j < |states|
    requires forall m :: i <= m < j ==> states[m].maps != {}
    ensures states[i].dev.items != [] && states[j].dev.items != [] && Stable(states[i].dev, states[j].dev)
    decreases j
  {
    if i < j {
      MappedPagesStay(states, ops, i, j - 1);
      MappedStepIsStable(states, ops, j - 1);
      StableTransitive(states[i].dev, states[j - 1].dev, states[j].dev);
    } else {
      MappingsAreCounted(states, ops, i);
    }
  }

  /** A page once faulted in is the page every later fault on that offset finds, while mapped. */
  lemma FaultsAreStable(states: seq<State>, ops: seq<Op>, i: nat, j: nat, off: nat)
    requires IsRun(states, ops) && i <= j < |states|
    requires forall m :: i <= m < j ==> states[m].maps != {}
    requires states[i].dev.qset > 0 && FaultPage(states[i].dev, off) != 0
    ensures states[j].dev.qset > 0 && FaultPage(states[j].dev, off) == FaultPage(states[i].dev, off)
    ensures FaultPage(states[i].dev, off) in states[j].dev.pages
  {
    MappedPagesStay(states, ops, i, j);
    MappingsAreCounted(states, ops, i);
    var d := states[i].dev;
    var at := FaultSlot(d.qset, off);
    assert PageOk(d, at.0, at.1);
  }

  // What was written stays until it is overwritten or trimmed

  /** This step stores a byte at position `x`. */
  predicate StoresAt(s: State, op: Op, x: nat)
    requires s.dev.items != [] && s.dev.qset > 0
  {
    op.Write? && op.pos <= x < op.pos + Stored(s.dev, op.pos, |op.buf|, op.k)
  }

  /** This step empties the device. */
  predicate Trims(s: State, op: Op) {
    op.Open? && op.writeOnly && s.dev.vmas == 0
  }

  lemma StepKeepsByte(s: State, op: Op, s': State, x: nat)
    requires RunInv(s) && Next(s, op, s') && RunInv(s')
    requires ByteAt(s.dev, x).Some? && !StoresAt(s, op, x) && !Trims(s, op)
    ensures ByteAt(s'.dev, x) == ByteAt(s.dev, x)
  {
    if op.Write? {
      WriteChangesExactly(s.dev, op.pos, op.buf, op.k, x);
    } else if op.Read? {
      ReadReturnsBytes(s.dev, op.pos, op.count, op.reachable);
    }
  }

  lemma ByteIsStored(states: seq<State>, ops: seq<Op>, i: nat, x: nat)
    requires IsRun(states, ops) && i < |ops|
    requires states[i].dev.items != [] && states[i].dev.qset > 0 && StoresAt(states[i], ops[i], x)
    ensures states[i + 1].dev.items != [] && states[i + 1].dev.qset > 0
    ensures ByteAt(states[i + 1].dev, x) == Some(ops[i].buf[x - ops[i].pos])
  {
    MappingsAreCounted(states, ops, i);
    assert Next(states[i], ops[i], states[i + 1]);
    WriteChangesExactly(states[i].dev, ops[i].pos, ops[i].buf, ops[i].k, x);
  }

  lemma ByteIsKept(states: seq<State>, ops: seq<Op>, m: nat, x: nat)
    requires IsRun(states, ops) && m < |ops|
    requires states[m].dev.items != [] && states[m].dev.qset > 0 && ByteAt(states[m].dev, x).Some?
    requires !StoresAt(states[m], ops[m], x) && !Trims(states[m], ops[m])
    ensures states[m + 1].dev.items != [] && states[m + 1].dev.qset > 0
    ensures ByteAt(states[m + 1].dev, x) == ByteAt(states[m].dev, x)
  {
    MappingsAreCounted(states, ops, m);
    MappingsAreCounted(states, ops, m + 1);
    StepKeepsByte(states[m], ops[m], states[m + 1], x);
  }

  /** The order and qset of the last ioctl, or those the module started with. */
  function Configured(order: nat, qset: nat, ops: seq<Op>): (nat, nat) {
    if ops == [] then (order, qset)
    else
      var last := ops[|ops| - 1];
      if last.Ioctl? then (last.order, last.qset) else Configured(order, qset, ops[..|ops| - 1])
  }

  lemma {:induction false} SettingsAreConfigured(states: seq<State>, ops: seq<Op>, i: nat)
    requires IsRun(states, ops) && i < |states|
    ensures (states[i].order, states[i].qset) == Configured(states[0].order, states[0].qset, ops[..i])
  {
    if i > 0 {
      SettingsAreConfigured(states, ops, i - 1);
      MappingsAreCounted(states, ops, i - 1);
      assert Next(states[i - 1], ops[i - 1], states[i]);
      assert ops[..i][..i - 1] == ops[..i - 1];
    }
  }

  /** In every run, a trim leaves an empty device with the geometry of the last ioctl. */
  lemma TrimEmpties(states: seq<State>, ops: seq<Op>, i: nat)
    requires IsRun(states, ops) && i < |ops| && Trims(states[i], ops[i])
    ensures
      var d := states[i + 1].dev;
      && d.size == 0 && d.pages == map[] && d.items != [] && d.qset > 0
      && (forall x: nat :: ByteAt(d, x) == None)
      && (Order(d), d.qset) == Configured(states[0].order, states[0].qset, ops[..i])
  {
    SettingsAreConfigured(states, ops, i);
    MappingsAreCounted(states, ops, i);
    assert Next(states[i], ops[i], states[i + 1]);
    TrimLeavesNothing(states[i].dev, states[i].order, states[i].qset);
  }

  /** Any other step keeps the geometry; only a successful write changes the size, to where it ended. */
  lemma StepKeepsGeometry(s: State, op: Op, s': State)
    requires RunInv(s) && Next(s, op, s') && !Trims(s, op)
    ensures s'.dev.items != [] && Order(s'.dev) == Order(s.dev) && s'.dev.qset == s.dev.qset
    ensures
      if op.Write? && Stored(s.dev, op.pos, |op.buf|, op.k) == CopyLength(s.dev, op.pos, |op.buf|)
         && !OutOfMemory(s.dev, op.pos, op.k)
      then s'.dev.size == Max(s.dev.size, op.pos + CopyLength(s.dev, op.pos, |op.buf|))
      else s'.dev.size == s.dev.size
  {
    if op.Write? {
      WriteKeepsPages(s.dev, op.pos, op.buf, op.k);
      WriteReports(s.dev, op.pos, op.buf, op.k);
    } else if op.Read? {
      ReadKeepsPages(s.dev, op.pos, op.count, op.reachable);
    }
  }

  /** A new mapping is made exactly if the order is 0; only mapping, unmapping and inheriting change the mappings. */
  lemma MappingsChange(s: State, op: Op, s': State)
    requires RunInv(s) && Next(s, op, s')
    ensures
      s'.maps ==
        if op.Mmap? && Order(s.dev) == 0 then s.maps + {op.v}
        else if op.VmaOpen? then s.maps + {op.v}
        else if op.VmaClose? then s.maps - {op.v}
        else s.maps
  {
  }

  /** In every run, a byte stored by one step is there until another step stores at its position or trims. */
  lemma {:induction false} WrittenBytesStay(states: seq<State>, ops: seq<Op>, i: nat, j: nat, x: nat)
    requires IsRun(states, ops) && i < j < |states|
    requires states[i].dev.items != [] && states[i].dev.qset > 0 && StoresAt(states[i], ops[i], x)
    requires forall m :: i < m < j ==>
               && states[m].dev.items != [] && states[m].dev.qset > 0
               && !StoresAt(states[m], ops[m], x) && !Trims(states[m], ops[m])
    ensures states[j].dev.items != [] && states[j].dev.qset > 0
    ensures ByteAt(states[j].dev, x) == Some(ops[i].buf[x - ops[i].pos])
    decreases j
  {
    if j == i + 1 {
      ByteIsStored(states, ops, i, x);
    } else {
      WrittenBytesStay(states, ops, i, j - 1, x);
      ByteIsKept(states, ops, j - 1, x);
    }
  }

  /** At order 0, a fault finds a page exactly for the bytes below the size, and the page holds them. */
  lemma FaultShowsBytes(d: Dev, x: nat)
    requires Inv(d) && Order(d) == 0
    ensures
      var p := FaultPage(d, x);
      && (p == 0 <==> x >= d.size || ByteAt(d, x) == None)
      && (p != 0 ==>
            p in d.pages && |d.pages[p]| == PAGE_SIZE && ByteAt(d, x) == Some(d.pages[p][x % PAGE_SIZE]))
  {
    FaultAgreesAtOrderZero(d, x);
    ReadStaysInPages(d, x, 0);
  }
}

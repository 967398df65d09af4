/**
The intrusive circular doubly linked list, with the item type folded into its link: a node is
an item's embedded `list_head` together with the item's number.

`ring` is the ghost sequence of all nodes in `next` order, starting with the list head.
*/
module IntrusiveList {

  class Node {
    var number: int
    var next: Node?
    var prev: Node?

    constructor (number: int)
      ensures this.number == number && next == null && prev == null
    {
      this.number, next, prev := number, null, null;
    }
  }

  ghost predicate Distinct(ring: seq<Node>) {
    forall i, j :: 0 <= i < j < |ring| ==> ring[i] != ring[j]
  }

  function Succ(ring: seq<Node>, i: nat): nat
    requires i < |ring|
  {
    if i + 1 == |ring| then 0 else i + 1
  }

  /** `next` and `prev` are mutually inverse around one cycle through all of `ring`. */
  ghost predicate IsRing(ring: seq<Node>)
    reads ring
  {
    && ring != [] && Distinct(ring)
    && (forall i :: 0 <= i < |ring| ==> ring[i].next == ring[Succ(ring, i)])
    && (forall i :: 0 <= i < |ring| ==> ring[Succ(ring, i)].prev == ring[i])
  }

  function Reversed(s: seq<Node>): (r: seq<Node>)
    ensures |r| == |s|
  {
    if s == [] then [] else Reversed(s[1..]) + [s[0]]
  }

  /** The members of a list, oldest first: adding puts an item right behind the head. */
  ghost function Members(ring: seq<Node>): seq<Node>
    requires ring != []
  {
    Reversed(ring[1..])
  }

  /** Links `nw` between two neighbours. */
  method LinkBetween(nw: Node, before: Node, after: Node)
    requires nw != before && nw != after
    modifies nw, before, after
    ensures nw.next == after && nw.prev == before
    ensures before.next == nw
    ensures after.prev == nw
    ensures after != before && after != nw ==> after.next == old(after.next)
    ensures after != before && before != nw ==> before.prev == old(before.prev)
    ensures nw.number == old(nw.number) && before.number == old(before.number) && after.number == old(after.number)
  {
    after.prev := nw;
    nw.next := after;
    nw.prev := before;
    before.next := nw;
  }

  /** Adds a node behind the head of the list. */
  method ListAdd(nw: Node, head: Node, ghost ring: seq<Node>) returns (ghost ring': seq<Node>)
    requires IsRing(ring) && head == ring[0] && nw !in ring
    modifies nw, head, head.next
    ensures ring' == [head, nw] + ring[1..] && IsRing(ring')
    ensures Members(ring') == Members(ring) + [nw]
  {
    ring' := [head, nw] + ring[1..];
    assert head.next == ring[Succ(ring, 0)];
    assert ring'[1..] == [nw] + ring[1..];
    assert ([nw] + ring[1..])[1..] == ring[1..];
    LinkBetween(nw, head, head.next);
    forall i | 0 <= i < |ring'|
      ensures ring'[i].next == ring'[Succ(ring', i)] && ring'[Succ(ring', i)].prev == ring'[i]
    {
      if i >= 2 {
        assert ring'[i] == ring[i - 1];
      }
    }
  }

  function Without(s: seq<Node>, k: nat): seq<Node>
    requires k < |s|
  {
    s[..k] + s[k + 1..]
  }

  lemma {:induction false} ReversedAt(s: seq<Node>, i: nat)
    requires i < |s|
    ensures Reversed(s)[i] == s[|s| - 1 - i]
  {
    if i < |s| - 1 {
      ReversedAt(s[1..], i);
    }
  }

  /** Taking one member out leaves the order of the others alone. */
  lemma {:induction false} ReversedWithout(s: seq<Node>, k: nat)
    requires k < |s|
    ensures Reversed(Without(s, k)) == Without(Reversed(s), |s| - 1 - k)
  {
    if k == 0 {
      assert Without(s, 0) == s[1..];
    } else {
      var t := Without(s[1..], k - 1);
      assert Without(s, k) == [s[0]] + t && ([s[0]] + t)[1..] == t;
      ReversedWithout(s[1..], k - 1);
      var r := Reversed(s[1..]);
      assert Without(r + [s[0]], |s| - 1 - k) == Without(r, |s| - 1 - k) + [s[0]];
    }
  }

  /** Without node `k`, everybody keeps its successor except for the predecessor of `k`. */
  lemma SuccessorsWithout(ring: seq<Node>, k: nat, i: nat)
    requires 0 < k < |ring| && i < |ring| - 1
    ensures
      var j := if i < k then i else i + 1;
      && Without(ring, k)[i] == ring[j] && j != k
      && Without(ring, k)[Succ(Without(ring, k), i)] == ring[Succ(ring, if j == k - 1 then k else j)]
      && (j != k - 1 ==> Succ(ring, j) != k && Succ(ring, j) != Succ(ring, k))
  {
  }

  lemma StillDistinct(ring: seq<Node>, k: nat)
    requires Distinct(ring) && k < |ring|
    ensures Distinct(Without(ring, k))
  {
    var ring' := Without(ring, k);
    forall i, j | 0 <= i < j < |ring'|
      ensures ring'[i] != ring'[j]
    {
      assert ring'[i] == ring[if i < k then i else i + 1] && ring'[j] == ring[if j < k then j else j + 1];
    }
  }

  /** Makes the neighbours of a node neighbours of each other, and clears its links. */
  method Unlink(entry: Node)
    requires entry.next != null && entry.prev != null && entry.next != entry && entry.prev != entry
    modifies entry, entry.next, entry.prev
    ensures entry.next == null && entry.prev == null
    ensures old(entry.next).prev == old(entry.prev) && old(entry.prev).next == old(entry.next)
    ensures old(entry.next) != old(entry.prev) ==>
              old(entry.next).next == old(entry.next.next) && old(entry.prev).prev == old(entry.prev.prev)
  {
    entry.next.prev := entry.prev;
    entry.prev.next := entry.next;
    entry.next := null;
    entry.prev := null;
  }

  /** Takes node `k` out of the ring and clears its links. */
  method ListDel(entry: Node, ghost ring: seq<Node>, ghost k: nat) returns (ghost ring': seq<Node>)
    requires IsRing(ring) && 0 < k < |ring| && entry == ring[k]
    modifies entry, entry.next, entry.prev
    ensures ring' == Without(ring, k) && IsRing(ring')
    ensures entry.next == null && entry.prev == null
    ensures Members(ring') == Without(Members(ring), |ring| - 1 - k)
  {
    ring' := Without(ring, k);
    StillDistinct(ring, k);
    assert ring'[1..] == Without(ring[1..], k - 1);
    ReversedWithout(ring[1..], k - 1);
    assert ring[Succ(ring, k - 1)] == entry && entry.prev == ring[k - 1] && entry.next == ring[Succ(ring, k)];
    Unlink(entry);
    forall i | 0 <= i < |ring'|
      ensures ring'[i].next == ring'[Succ(ring', i)] && ring'[Succ(ring', i)].prev == ring'[i]
    {
      SuccessorsWithout(ring, k, i);
      assert old(ring[if i < k then i else i + 1].next) == ring[Succ(ring, if i < k then i else i + 1)];
    }
  }

  /** A sequence of nodes that is a ring before and after has the same links before and after. */
  twostate lemma LinksAreDetermined(ring: seq<Node>)
    requires old(IsRing(ring)) && IsRing(ring)
    ensures forall n :: n in ring ==> n.next == old(n.next) && n.prev == old(n.prev)
  {
    forall j | 0 <= j < |ring|
      ensures ring[j].next == old(ring[j].next) && ring[j].prev == old(ring[j].prev)
    {
      var i := if j == 0 then |ring| - 1 else j - 1;
      assert Succ(ring, i) == j;
    }
  }

  /** Deleting right after adding restores every link of the list. */
  method AddThenDel(nw: Node, head: Node, ghost ring: seq<Node>)
    requires IsRing(ring) && head == ring[0] && nw !in ring
    modifies nw, head, head.next
    ensures IsRing(ring)
    ensures forall n :: n in ring ==> n.next == old(n.next) && n.prev == old(n.prev)
  {
    ghost var ring' := ListAdd(nw, head, ring);
    assert ring'[1] == nw && ring'[0] == head;
    assert ring'[Succ(ring', 0)].prev == ring'[0];
    ghost var ring'' := ListDel(nw, ring', 1);
    assert ring'' == ring;
    LinksAreDetermined(ring);
  }

  /** Walks the list backwards from the head: every member once, oldest first. */
  method ForEach(head: Node, ghost ring: seq<Node>) returns (visited: seq<Node>)
    requires IsRing(ring) && head == ring[0]
    ensures visited == Members(ring)
  {
    visited := [];
    var p := head.prev;
    assert ring[Succ(ring, |ring| - 1)].prev == ring[|ring| - 1];
    ghost var i := |ring| - 1;
    while p != head
      invariant 0 <= i < |ring| && p == ring[i]
      invariant visited == Reversed(ring[i + 1..])
      decreases i
    {
      assert ring[i..][1..] == ring[i + 1..];
      visited := visited + [p];
      assert ring[Succ(ring, i - 1)].prev == ring[i - 1];
      p := p.prev;
      i := i - 1;
    }
  }

  // Sequences of operations

  datatype Op = Add(node: Node) | Del(node: Node)

  /** The members after a sequence of operations on an empty list, oldest first. */
  ghost function MembersAfter(ops: seq<Op>): seq<Node> {
    if ops == [] then []
    else
      var before := MembersAfter(ops[..|ops| - 1]);
      match ops[|ops| - 1]
      case Add(n) => before + [n]
      case Del(n) => Removed(before, n)
  }

  ghost function Removed(s: seq<Node>, n: Node): seq<Node> {
    if n in s then (var k :| 0 <= k < |s| && s[k] == n; Without(s, k)) else s
  }

  /** Only nodes that are not in the list are added, only members are deleted. */
  ghost predicate AreValid(ops: seq<Op>, head: Node) {
    forall i :: 0 <= i < |ops| ==>
      && ops[i].node != head
      && (ops[i].Add? <==> ops[i].node !in MembersAfter(ops[..i]))
  }

  ghost function Nodes(ops: seq<Op>): set<Node> {
    set i | 0 <= i < |ops| :: ops[i].node
  }

  /** In a list without duplicates, removing a member leaves out its one position. */
  lemma RemovedIsWithout(s: seq<Node>, k: nat)
    requires Distinct(s) && k < |s|
    ensures Removed(s, s[k]) == Without(s, k)
  {
  }

  lemma {:induction false} ReversedHasTheSame(s: seq<Node>, n: Node)
    ensures n in Reversed(s) <==> n in s
  {
    if s != [] {
      assert s == [s[0]] + s[1..];
      ReversedHasTheSame(s[1..], n);
    }
  }

  lemma ReversedIsDistinct(s: seq<Node>)
    requires Distinct(s)
    ensures Distinct(Reversed(s))
  {
    forall i, j | 0 <= i < j < |s|
      ensures Reversed(s)[i] != Reversed(s)[j]
    {
      ReversedAt(s, i);
      ReversedAt(s, j);
    }
  }

  /** Where a member stands in the ring, and what taking it out does to the members. */
  lemma FindMember(ring: seq<Node>, n: Node) returns (k: nat)
    requires ring != [] && Distinct(ring) && n in Members(ring)
    ensures 0 < k < |ring| && ring[k] == n
    ensures Removed(Members(ring), n) == Without(Members(ring), |ring| - 1 - k)
  {
    ReversedHasTheSame(ring[1..], n);
    var j :| 0 <= j < |ring[1..]| && ring[1..][j] == n;
    k := j + 1;
    ReversedAt(ring[1..], |ring| - 1 - k);
    ReversedIsDistinct(ring[1..]);
    RemovedIsWithout(Members(ring), |ring| - 1 - k);
  }

  method Remove(node: Node, ghost ring: seq<Node>) returns (ghost ring': seq<Node>)
    requires IsRing(ring) && node in Members(ring)
    modifies ring
    ensures IsRing(ring') && ring'[0] == ring[0]
    ensures Members(ring') == Removed(Members(ring), node)
    ensures forall n :: n in ring' ==> n in ring
  {
    ghost var k := FindMember(ring, node);
    assert ring[k].next == ring[Succ(ring, k)] && ring[Succ(ring, k - 1)].prev == ring[k - 1];
    ring' := ListDel(node, ring, k);
  }

  /** One operation on a well-formed list. */
  method Perform(head: Node, op: Op, ghost ring: seq<Node>) returns (ghost ring': seq<Node>)
    requires IsRing(ring) && head == ring[0] && op.node != head
    requires op.Add? <==> op.node !in Members(ring)
    modifies op.node, ring
    ensures IsRing(ring') && head == ring'[0]
    ensures Members(ring') == if op.Add? then Members(ring) + [op.node] else Removed(Members(ring), op.node)
    ensures forall n :: n in ring' ==> n in ring || n == op.node
  {
    if op.Add? {
      ReversedHasTheSame(ring[1..], op.node);
      assert ring == [head] + ring[1..];
      assert head.next == ring[Succ(ring, 0)];
      ring' := ListAdd(op.node, head, ring);
    } else {
      ring' := Remove(op.node, ring);
    }
  }

  /**
  Any sequence of valid operations on an empty list leaves a well-formed ring, and a traversal
  then visits exactly the surviving members, in the order in which they were added.
  */
  method Replay(head: Node, ops: seq<Op>) returns (visited: seq<Node>, ghost ring: seq<Node>)
    requires IsRing([head]) && AreValid(ops, head)
    modifies head, Nodes(ops)
    ensures IsRing(ring) && ring[0] == head && Members(ring) == MembersAfter(ops)
    ensures visited == MembersAfter(ops)
  {
    ring := [head];
    for i := 0 to |ops|
      invariant IsRing(ring) && head == ring[0] && Members(ring) == MembersAfter(ops[..i])
      invariant forall n :: n in ring ==> n == head || n in Nodes(ops)
    {
      assert ops[..i + 1][..i] == ops[..i];
      assert ops[i].node in Nodes(ops);
      ring := Perform(head, ops[i], ring);
    }
    assert ops[..|ops|] == ops;
    visited := ForEach(head, ring);
  }
}

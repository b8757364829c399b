/**
  The intrusive circular list of import/LinkedList.h and import/LinkedList.c.

  A `List_Entry` has two mutable links and nothing else.  Which entries form a list is not
  recorded anywhere: it is a property of the links, stated here by `Ring`.  By convention
  element 0 of a ring is the list head, so `ring[1..]` are the list's nodes in order.
 */
module LinkedList {

  class ListEntry {
    var next: ListEntry
    var prev: ListEntry

    /** `init_entry` on fresh storage: the entry is a ring of its own. */
    constructor ()
      ensures next == this && prev == this
    {
      next := this;
      prev := this;
    }

    /** `init_entry` on existing storage: earlier links are forgotten. */
    method Init()
      modifies this
      ensures next == this && prev == this
    {
      next := this;
      prev := this;
    }

    /** `is_isolated_node`, which is also `is_entry_list_empty`. */
    predicate IsIsolated()
      reads this
    {
      this == next
    }
  }

  ghost predicate Distinct<T>(s: seq<T>) {
    forall i, j | 0 <= i < j < |s| :: s[i] != s[j]
  }

  ghost predicate DisjointSeqs<T>(a: seq<T>, b: seq<T>) {
    forall i, j | 0 <= i < |a| && 0 <= j < |b| :: a[i] != b[j]
  }

  lemma TakeNext<T>(s: seq<T>, i: nat)
    requires i < |s|
    ensures s[..i + 1] == s[..i] + [s[i]]
    ensures s[i..] == [s[i]] + s[i + 1..] && s[i..][1..] == s[i + 1..]
  {
  }

  /** Following `next` from `r[0]` visits `r` and returns to `r[0]`; `prev` is its inverse. */
  ghost predicate Ring(r: seq<ListEntry>)
    reads r
  {
    && |r| > 0
    && Distinct(r)
    && (forall i | 0 <= i < |r| - 1 :: r[i].next == r[i + 1])
    && (forall i | 0 < i < |r| :: r[i].prev == r[i - 1])
    && r[|r| - 1].next == r[0]
    && r[0].prev == r[|r| - 1]
  }

  /** The links determine the ring: two rings that start at one entry are the same list. */
  lemma RingIsDetermined(a: seq<ListEntry>, b: seq<ListEntry>)
    requires Ring(a) && Ring(b) && a[0] == b[0]
    ensures a == b
  {
    var n := if |a| < |b| then |a| else |b|;
    var k := 1;
    while k < n
      invariant 1 <= k <= n
      invariant a[..k] == b[..k]
    {
      assert a[k - 1] == a[..k][k - 1] == b[..k][k - 1] == b[k - 1];
      assert a[k - 1].next == a[k] && b[k - 1].next == b[k];
      k := k + 1;
    }
    assert a[n - 1] == a[..n][n - 1] == b[..n][n - 1] == b[n - 1];
  }

  /** The neighbours of an entry, cyclically. */
  lemma RingNeighbours(r: seq<ListEntry>, k: nat)
    requires Ring(r) && k < |r|
    ensures r[k].next == r[if k == |r| - 1 then 0 else k + 1]
    ensures r[k].prev == r[if k == 0 then |r| - 1 else k - 1]
  {
    assert k < |r| - 1 ==> r[k].next == r[k + 1];
    assert k > 0 ==> r[k].prev == r[k - 1];
  }

  /** In a ring, `prev` undoes `next` and `next` undoes `prev`, at every entry. */
  lemma RingLinksAreInverse(r: seq<ListEntry>, k: nat)
    requires Ring(r) && k < |r|
    ensures r[k].next in r && r[k].next.prev == r[k]
    ensures r[k].prev in r && r[k].prev.next == r[k]
  {
    RingNeighbours(r, k);
    RingNeighbours(r, if k == |r| - 1 then 0 else k + 1);
    RingNeighbours(r, if k == 0 then |r| - 1 else k - 1);
  }

  /** `insert_entry_list`: the four link assignments, in the source's order. */
  method InsertEntryList(node: ListEntry, prev: ListEntry, next: ListEntry)
    modifies node, prev, next
    ensures node != prev && node != next ==>
              node.next == next && node.prev == prev && prev.next == node && next.prev == node
    ensures node != prev && node != next && prev != next ==>
              next.next == old(next.next) && prev.prev == old(prev.prev)
  {
    next.prev := node;
    node.next := next;
    node.prev := prev;
    prev.next := node;
  }

  /** `insert_list_tail`: the node becomes the last one before the head. */
  method InsertListTail(node: ListEntry, head: ListEntry, ghost ring: seq<ListEntry>)
    requires Ring(ring) && ring[0] == head && node !in ring
    modifies node, head, head.prev
    ensures Ring(ring + [node])
  {
    ghost var last := head.prev;
    assert last == ring[|ring| - 1];
    InsertEntryList(node, head.prev, head);
    ghost var r := ring + [node];
    assert Distinct(r);
    assert forall i | 0 <= i < |r| - 1 :: r[i].next == r[i + 1];
  }

  /** `insert_list_first`: the node becomes the first one after the head. */
  method InsertListFirst(node: ListEntry, head: ListEntry, ghost ring: seq<ListEntry>)
    requires Ring(ring) && ring[0] == head && node !in ring
    modifies node, head, head.next
    ensures Ring([head, node] + ring[1..])
  {
    ghost var first := head.next;
    assert first == if |ring| == 1 then head else ring[1];
    InsertEntryList(node, head, head.next);
    ghost var r := [head, node] + ring[1..];
    assert forall i | 2 <= i < |r| :: r[i] == ring[i - 1];
    assert Distinct(r);
    assert forall i | 0 <= i < |r| - 1 :: r[i].next == r[i + 1];
    assert forall i | 0 < i < |r| :: r[i].prev == r[i - 1];
  }

  /** The sequence without its element at `k`. */
  function Without<T>(s: seq<T>, k: nat): (r: seq<T>)
    requires k < |s|
    ensures |r| == |s| - 1
    ensures forall i | 0 <= i < k :: r[i] == s[i]
    ensures forall i | k <= i < |r| :: r[i] == s[i + 1]
  {
    s[..k] + s[k + 1..]
  }

  /** `remove_list_node`: unlinks the node and leaves it isolated; what is left is a ring. */
  method RemoveListNode(node: ListEntry, ghost ring: seq<ListEntry>, ghost k: nat)
    requires Ring(ring) && k < |ring| && ring[k] == node
    modifies node, node.prev, node.next
    ensures node.next == node && node.prev == node
    ensures |ring| > 1 ==> Ring(Without(ring, k))
  {
    RingNeighbours(ring, k);
    // remove_entry_list
    var prev, next := node.prev, node.next;
    next.prev := prev;
    prev.next := next;

    node.prev := node;
    node.next := node;

    if |ring| > 1 {
      ghost var r := Without(ring, k);
      assert Distinct(r);
      assert forall i | 0 <= i < |r| - 1 :: r[i].next == r[i + 1];
      assert forall i | 0 < i < |r| :: r[i].prev == r[i - 1];
    }
  }

  /** `concat_list`: splices the second ring, all of it, after the last entry of the first. */
  method ConcatList(first: ListEntry, second: ListEntry,
                    ghost a: seq<ListEntry>, ghost b: seq<ListEntry>)
    requires Ring(a) && a[0] == first
    requires Ring(b) && b[0] == second
    requires DisjointSeqs(a, b)
    modifies first, first.prev, second, second.prev
    ensures Ring(a + b)
  {
    var firstTail := first.prev;
    var secondTail := second.prev;
    assert firstTail == a[|a| - 1] && secondTail == b[|b| - 1];

    firstTail.next := second;
    first.prev := secondTail;

    secondTail.next := first;
    second.prev := firstTail;

    ghost var r := a + b;
    assert forall i | 0 <= i < |a| :: r[i] == a[i];
    assert forall i | |a| <= i < |r| :: r[i] == b[i - |a|];
    assert Distinct(r);
    assert forall i | 0 <= i < |r| - 1 :: r[i].next == r[i + 1];
    assert forall i | 0 < i < |r| :: r[i].prev == r[i - 1];
  }

  /** `get_list_length`: counts the nodes, the head excluded. */
  method GetListLength(entry: ListEntry, ghost ring: seq<ListEntry>) returns (length: nat)
    requires Ring(ring) && ring[0] == entry
    ensures length == |ring| - 1
  {
    length := 0;
    var p := entry.next;
    ghost var k := 1;
    while p != entry
      invariant 1 <= k <= |ring|
      invariant p == if k < |ring| then ring[k] else entry
      invariant length == k - 1
      decreases |ring| - k
    {
      length := length + 1;
      p := p.next;
      k := k + 1;
    }
  }
}

/**
  `sort_priority_list` of import/BeDIS.c: a stable bucket sort of the buffer lists by
  priority class, done in place by relinking one ring.
 */
module PriorityList {
  import opened LinkedList

  /** The four priority levels of `CommonConfig`. */
  datatype Levels = Levels(critical: int, high: int, normal: int, low: int)

  const UNMATCHED: nat := 4

  /** The bucket the if/else-if chain picks; the first level that matches wins. */
  function Class(c: Levels, nice: int): (k: nat)
    ensures k <= UNMATCHED
  {
    if nice == c.critical then 0
    else if nice == c.high then 1
    else if nice == c.normal then 2
    else if nice == c.low then 3
    else UNMATCHED
  }

  /** The elements of `s` in class `k`, in the order they have in `s`. */
  ghost function Select<T>(c: Levels, nice: map<T, int>, s: seq<T>, k: nat): (r: seq<T>)
    requires forall e | e in s :: e in nice
    ensures forall e | e in r :: e in s && Class(c, nice[e]) == k
    ensures forall e | e in s :: Class(c, nice[e]) == k ==> e in r
  {
    if s == [] then []
    else
      var front, last := s[..|s| - 1], s[|s| - 1];
      assert s == front + [last];
      Select(c, nice, front, k) + (if Class(c, nice[last]) == k then [last] else [])
  }

  /** The stable concatenation of the four classes. */
  ghost function SortedList<T>(c: Levels, nice: map<T, int>, s: seq<T>): seq<T>
    requires forall e | e in s :: e in nice
  {
    Select(c, nice, s, 0) + Select(c, nice, s, 1) + Select(c, nice, s, 2) + Select(c, nice, s, 3)
  }

  ghost predicate AllMatch<T>(c: Levels, nice: map<T, int>, s: seq<T>)
    requires forall e | e in s :: e in nice
  {
    forall e | e in s :: Class(c, nice[e]) != UNMATCHED
  }

  /** Each element is selected as often as it occurs, and only by its own class. */
  lemma {:induction false} SelectCounts<T>(c: Levels, nice: map<T, int>, s: seq<T>, k: nat, e: T)
    requires forall x | x in s :: x in nice
    requires e in nice
    ensures multiset(Select(c, nice, s, k))[e] == if Class(c, nice[e]) == k then multiset(s)[e] else 0
  {
    if s == [] {
    } else {
      var front, last := s[..|s| - 1], s[|s| - 1];
      assert s == front + [last];
      SelectCounts(c, nice, front, k, e);
    }
  }

  lemma SortCounts<T>(c: Levels, nice: map<T, int>, s: seq<T>, e: T)
    requires forall x | x in s :: x in nice
    ensures multiset(SortedList(c, nice, s))[e] ==
            if e in nice && Class(c, nice[e]) != UNMATCHED then multiset(s)[e] else 0
  {
    if e in nice {
      SelectCounts(c, nice, s, 0, e);
      SelectCounts(c, nice, s, 1, e);
      SelectCounts(c, nice, s, 2, e);
      SelectCounts(c, nice, s, 3, e);
    } else {
      assert e !in SortedList(c, nice, s);
    }
  }

  /** `a` and `b` hold the same elements, each equally often. */
  ghost predicate Permutation<T>(a: seq<T>, b: seq<T>) {
    && (forall e | e in a :: multiset(a)[e] == multiset(b)[e])
    && (forall e | e in b :: multiset(a)[e] == multiset(b)[e])
  }

  lemma PermutationFromCounts<T>(r: seq<T>, s: seq<T>, lost: set<T>)
    requires forall e | e in s :: multiset(r)[e] == if e in lost then 0 else multiset(s)[e]
    requires forall e | e in r :: e in s
    ensures Permutation(r, s) <==> forall e | e in s :: e !in lost
  {
    forall e | e in s
      ensures multiset(s)[e] > 0
    {
      assert e in multiset(s);
    }
  }

  /** Sorting loses exactly the elements that match no configured level: the result is a
      permutation of the input if and only if every priority matches. */
  lemma SortIsPermutation<T>(c: Levels, nice: map<T, int>, s: seq<T>)
    requires forall e | e in s :: e in nice
    ensures Permutation(SortedList(c, nice, s), s) <==> AllMatch(c, nice, s)
  {
    var lost := set e | e in s && Class(c, nice[e]) == UNMATCHED;
    forall e | e in s
      ensures multiset(SortedList(c, nice, s))[e] == if e in lost then 0 else multiset(s)[e]
    {
      SortCounts(c, nice, s, e);
    }
    PermutationFromCounts(SortedList(c, nice, s), s, lost);
  }

  /** The class of every element is at most the class of every later one. */
  lemma SortOrdersClasses<T>(c: Levels, nice: map<T, int>, s: seq<T>, i: nat, j: nat)
    requires forall e | e in s :: e in nice
    requires i < j < |SortedList(c, nice, s)|
    ensures var r := SortedList(c, nice, s);
            r[i] in nice && r[j] in nice && Class(c, nice[r[i]]) <= Class(c, nice[r[j]])
  {
    var a, b := Select(c, nice, s, 0), Select(c, nice, s, 1);
    var d, e := Select(c, nice, s, 2), Select(c, nice, s, 3);
    var r := SortedList(c, nice, s);
    forall m | 0 <= m < |r|
      ensures r[m] in nice
      ensures Class(c, nice[r[m]]) == if m < |a| then 0 else if m < |a| + |b| then 1
                                      else if m < |a| + |b| + |d| then 2 else 3
    {
      if m < |a| { assert r[m] == a[m] && a[m] in a; }
      else if m < |a| + |b| { assert r[m] == b[m - |a|] && b[m - |a|] in b; }
      else if m < |a| + |b| + |d| { assert r[m] == d[m - |a| - |b|] && d[m - |a| - |b|] in d; }
      else { assert r[m] == e[m - |a| - |b| - |d|] && e[m - |a| - |b| - |d|] in e; }
    }
  }

  /** When the configured levels are ordered, so are the priorities of the result. */
  lemma SortOrdersPriorities<T>(c: Levels, nice: map<T, int>, s: seq<T>, i: nat, j: nat)
    requires forall e | e in s :: e in nice
    requires c.critical <= c.high <= c.normal <= c.low
    requires i < j < |SortedList(c, nice, s)|
    ensures var r := SortedList(c, nice, s); r[i] in nice && r[j] in nice && nice[r[i]] <= nice[r[j]]
  {
    SortOrdersClasses(c, nice, s, i, j);
    assert SortedList(c, nice, s)[i] in SortedList(c, nice, s);
    assert SortedList(c, nice, s)[j] in SortedList(c, nice, s);
  }

  /** Stability: two elements of one class are selected at positions in their old order. */
  lemma {:induction false} SelectIsStable<T>(c: Levels, nice: map<T, int>, s: seq<T>, k: nat, x: nat, y: nat)
    returns (i: nat, j: nat)
    requires forall e | e in s :: e in nice
    requires x < y < |s| && Class(c, nice[s[x]]) == k && Class(c, nice[s[y]]) == k
    ensures i < j < |Select(c, nice, s, k)|
    ensures Select(c, nice, s, k)[i] == s[x] && Select(c, nice, s, k)[j] == s[y]
  {
    var front, last := s[..|s| - 1], s[|s| - 1];
    assert s == front + [last];
    if y < |s| - 1 {
      i, j := SelectIsStable(c, nice, front, k, x, y);
    } else {
      assert front[x] in front;
      i :| 0 <= i < |Select(c, nice, front, k)| && Select(c, nice, front, k)[i] == s[x];
      j := |Select(c, nice, front, k)|;
    }
  }

  /** After sorting, the time-critical lists form a prefix, so a scan that stops at the
      first list of another priority has visited all of them. */
  lemma CriticalListsComeFirst<T>(c: Levels, nice: map<T, int>, s: seq<T>, i: nat, j: nat)
    requires forall e | e in s :: e in nice
    requires i < j < |SortedList(c, nice, s)|
    ensures var r := SortedList(c, nice, s);
            r[i] in nice && r[j] in nice && (nice[r[j]] == c.critical ==> nice[r[i]] == c.critical)
  {
    SortOrdersClasses(c, nice, s, i, j);
  }

  /** One of the four splices at the end of `sort_priority_list`: drop the bucket's own head
      and append what remains to the priority list. */
  method SpliceBucket(head: ListEntry, bucket: ListEntry,
                      ghost main: seq<ListEntry>, ghost b: seq<ListEntry>)
    requires Ring(main) && main[0] == head
    requires Ring(b) && b[0] == bucket
    requires DisjointSeqs(main, b)
    modifies main, b
    ensures Ring(main + b[1..])
  {
    RingNeighbours(b, 0);
    if !bucket.IsIsolated() {
      ghost var nodes := b[1..];
      RingNeighbours(b, 1);
      var first := bucket.next;
      assert first == nodes[0] && first.prev == bucket;
      ghost var rest := Without(b, 0);
      RemoveListNode(bucket, b, 0);
      assert Ring(rest);
      assert rest == nodes;
      assert Ring(main);
      RingNeighbours(main, 0);
      RingNeighbours(nodes, 0);
      assert DisjointSeqs(main, nodes);
      ConcatList(head, first, main, nodes);
    } else {
      assert main + b[1..] == main;
    }
  }

  /** The sequences of `b` from index `k` on share no entry with each other or with `main`. */
  ghost predicate Apart(main: seq<ListEntry>, b: seq<seq<ListEntry>>, k: nat) {
    && (forall j | k <= j < |b| :: DisjointSeqs(main, b[j]))
    && (forall i, j | k <= i < j < |b| :: DisjointSeqs(b[i], b[j]))
  }

  ghost predicate Within(main: seq<ListEntry>, b: seq<seq<ListEntry>>, footprint: set<ListEntry>) {
    && (forall m | 0 <= m < |main| :: main[m] in footprint)
    && (forall j, m | 0 <= j < |b| && 0 <= m < |b[j]| :: b[j][m] in footprint)
  }

  /** Moving the first node of `main` to the end of one of the sequences keeps them apart. */
  lemma MoveKeepsApart(main: seq<ListEntry>, b: seq<seq<ListEntry>>, k: nat, footprint: set<ListEntry>)
    requires |main| > 1 && Distinct(main) && k < |b| && Apart(main, b, 0) && Within(main, b, footprint)
    ensures Apart(Without(main, 1), b[k := b[k] + [main[1]]], 0)
    ensures Within(Without(main, 1), b[k := b[k] + [main[1]]], footprint)
  {
  }

  /** While the nodes are distributed, `b` holds the four buckets and, last, the nodes that
      match no level: `b[0..4]` are rings and the entries of `b[4]` are isolated. */
  ghost predicate BucketRings(b: seq<seq<ListEntry>>, k: nat)
    reads set j, m | 0 <= j < |b| && 0 <= m < |b[j]| :: b[j][m]
  {
    && |b| == UNMATCHED + 1
    && (forall j | k <= j < UNMATCHED :: Ring(b[j]))
    && (forall m | 0 <= m < |b[UNMATCHED]| ::
          b[UNMATCHED][m].next == b[UNMATCHED][m] && b[UNMATCHED][m].prev == b[UNMATCHED][m])
  }

  /** One splice, leaving the remaining buckets and the isolated nodes as they were. */
  method SpliceNext(head: ListEntry, bucket: ListEntry, ghost k: nat, ghost main: seq<ListEntry>,
                    ghost b: seq<seq<ListEntry>>, ghost footprint: set<ListEntry>)
    requires k < UNMATCHED && BucketRings(b, k) && Apart(main, b, k) && b[k][0] == bucket
    requires Ring(main) && main[0] == head && Within(main, b, footprint)
    modifies footprint
    ensures Ring(main + b[k][1..]) && BucketRings(b, k + 1)
    ensures Apart(main + b[k][1..], b, k + 1) && Within(main + b[k][1..], b, footprint)
  {
    SpliceBucket(head, bucket, main, b[k]);
  }

  /** One step of the first loop: the node leaves the priority list and, unless its priority
      matches no level, joins the tail of its bucket. */
  method Distribute(k: nat, node: ListEntry, heads: seq<ListEntry>, ghost main: seq<ListEntry>,
                    ghost b: seq<seq<ListEntry>>, ghost footprint: set<ListEntry>)
    requires Ring(main) && |main| > 1 && main[1] == node && k <= UNMATCHED == |heads|
    requires BucketRings(b, 0) && Apart(main, b, 0) && Within(main, b, footprint)
    requires forall j | 0 <= j < UNMATCHED :: b[j][0] == heads[j]
    modifies footprint
    ensures Ring(Without(main, 1)) && BucketRings(b[k := b[k] + [node]], 0)
  {
    RingNeighbours(main, 1);
    RemoveListNode(node, main, 1);
    assert BucketRings(b, 0);
    MoveKeepsApart(main, b, k, footprint);
    if k != UNMATCHED {
      JoinBucket(k, node, heads[k], main, b, footprint);
    }
  }

  method JoinBucket(k: nat, node: ListEntry, bucket: ListEntry, ghost main: seq<ListEntry>,
                    ghost b: seq<seq<ListEntry>>, ghost footprint: set<ListEntry>)
    requires |main| > 1 && Distinct(main) && main[1] == node && Ring(Without(main, 1)) && k < UNMATCHED
    requires BucketRings(b, 0) && Apart(main, b, 0) && Within(main, b, footprint)
    requires b[k][0] == bucket
    modifies footprint
    ensures Ring(Without(main, 1)) && BucketRings(b[k := b[k] + [node]], 0)
  {
    RingNeighbours(b[k], 0);
    InsertListTail(node, bucket, b[k]);
    assert forall j | 0 <= j < UNMATCHED && j != k :: Ring(b[j]);
  }

  /** What the sequences hold after the nodes `done`: each bucket its own head and the nodes
      of its class, the last sequence the nodes of no class. */
  ghost predicate Holds(c: Levels, nice: map<ListEntry, int>, done: seq<ListEntry>,
                        heads: seq<ListEntry>, b: seq<seq<ListEntry>>)
  {
    && (forall e | e in done :: e in nice)
    && |heads| == UNMATCHED && |b| == UNMATCHED + 1
    && (forall k | 0 <= k < UNMATCHED :: b[k] == [heads[k]] + Select(c, nice, done, k))
    && b[UNMATCHED] == Select(c, nice, done, UNMATCHED)
  }

  lemma HoldsStep(c: Levels, nice: map<ListEntry, int>, done: seq<ListEntry>, node: ListEntry,
                  heads: seq<ListEntry>, b: seq<seq<ListEntry>>)
    requires Holds(c, nice, done, heads, b) && node in nice
    ensures var k := Class(c, nice[node]);
            Holds(c, nice, done + [node], heads, b[k := b[k] + [node]])
  {
    assert (done + [node])[..|done|] == done;
    forall k | 0 <= k <= UNMATCHED
      ensures Select(c, nice, done + [node], k) ==
              Select(c, nice, done, k) + (if Class(c, nice[node]) == k then [node] else [])
    {
    }
  }

  lemma SplicedIsSorted(c: Levels, nice: map<ListEntry, int>, head: ListEntry, nodes: seq<ListEntry>,
                        heads: seq<ListEntry>, b: seq<seq<ListEntry>>)
    requires Holds(c, nice, nodes, heads, b)
    ensures [head] + b[0][1..] + b[1][1..] + b[2][1..] + b[3][1..] == [head] + SortedList(c, nice, nodes)
  {
    assert forall k | 0 <= k < UNMATCHED :: b[k][1..] == Select(c, nice, nodes, k);
  }

  lemma StartIsApart(c: Levels, nice: map<ListEntry, int>, main: seq<ListEntry>, heads: seq<ListEntry>,
                     b: seq<seq<ListEntry>>, footprint: set<ListEntry>)
    requires |heads| == UNMATCHED && Distinct(heads) && DisjointSeqs(main, heads)
    requires b == [[heads[0]], [heads[1]], [heads[2]], [heads[3]], []]
    requires (forall e | e in main :: e in footprint) && (forall e | e in heads :: e in footprint)
    ensures Holds(c, nice, [], heads, b) && Apart(main, b, 0) && Within(main, b, footprint)
  {
    assert forall j | 0 <= j < UNMATCHED :: b[j] == [heads[j]];
  }

  lemma HeadIsNotANode(head: ListEntry, rest: seq<ListEntry>)
    requires Ring([head] + rest)
    ensures rest != [] ==> rest[0] != head
  {
    if rest != [] { assert ([head] + rest)[1] == rest[0]; }
  }

  /** One iteration of the first loop: `rest[0]` goes where its priority says. */
  method DistributeOne(c: Levels, head: ListEntry, nice: map<ListEntry, int>, node: ListEntry,
                       heads: seq<ListEntry>, ghost done: seq<ListEntry>, ghost rest: seq<ListEntry>,
                       ghost b: seq<seq<ListEntry>>, ghost footprint: set<ListEntry>)
    returns (ghost b': seq<seq<ListEntry>>)
    requires rest != [] && rest[0] == node && node in nice && Holds(c, nice, done, heads, b)
    requires Ring([head] + rest) && BucketRings(b, 0)
    requires Apart([head] + rest, b, 0) && Within([head] + rest, b, footprint)
    modifies footprint
    ensures Ring([head] + rest[1..]) && BucketRings(b', 0)
    ensures Apart([head] + rest[1..], b', 0) && Within([head] + rest[1..], b', footprint)
    ensures Holds(c, nice, done + [node], heads, b')
  {
    ghost var main := [head] + rest;
    assert main[1] == node;
    var k := Class(c, nice[node]);
    HoldsStep(c, nice, done, node, heads, b);
    MoveKeepsApart(main, b, k, footprint);
    Distribute(k, node, heads, main, b, footprint);
    assert Without(main, 1) == [head] + rest[1..];
    b' := b[k := b[k] + [node]];
  }

  /** The first loop of `sort_priority_list`. */
  method DistributeNodes(c: Levels, head: ListEntry, nice: map<ListEntry, int>, heads: seq<ListEntry>,
                         ghost nodes: seq<ListEntry>, ghost start: seq<seq<ListEntry>>,
                         ghost footprint: set<ListEntry>)
    returns (ghost b: seq<seq<ListEntry>>)
    requires Ring([head] + nodes) && (forall e | e in nodes :: e in nice)
    requires Holds(c, nice, [], heads, start) && BucketRings(start, 0)
    requires Apart([head] + nodes, start, 0) && Within([head] + nodes, start, footprint)
    modifies footprint
    ensures Ring([head]) && BucketRings(b, 0) && Apart([head], b, 0) && Within([head], b, footprint)
    ensures Holds(c, nice, nodes, heads, b)
  {
    ghost var i := 0;
    ghost var rest := nodes;
    b := start;
    var pointer := head.next;
    var following := pointer.next;
    RingNeighbours([head] + nodes, 0);
    RingNeighbours([head] + nodes, if nodes == [] then 0 else 1);
    while pointer != head
      invariant i <= |nodes| && rest == nodes[i..]
      invariant pointer == if rest == [] then head else rest[0]
      invariant rest != [] ==> following == if |rest| == 1 then head else rest[1]
      invariant Ring([head] + rest) && BucketRings(b, 0)
      invariant Apart([head] + rest, b, 0) && Within([head] + rest, b, footprint)
      invariant Holds(c, nice, nodes[..i], heads, b)
      decreases |rest|
    {
      b := DistributeOne(c, head, nice, pointer, heads, nodes[..i], rest, b, footprint);
      TakeNext(nodes, i);
      i, rest := i + 1, rest[1..];
      RingNeighbours([head] + rest, if rest == [] then 0 else 1);
      pointer := following;
      following := pointer.next;
    }
    HeadIsNotANode(head, rest);
    assert [head] + rest == [head] && nodes[..i] == nodes;
  }

  /** The four splices at the end of `sort_priority_list`, in the source's order. */
  method SpliceAll(c: Levels, head: ListEntry, nice: map<ListEntry, int>, heads: seq<ListEntry>,
                   ghost nodes: seq<ListEntry>, ghost b: seq<seq<ListEntry>>, ghost footprint: set<ListEntry>)
    requires Holds(c, nice, nodes, heads, b)
    requires Ring([head]) && BucketRings(b, 0) && Apart([head], b, 0) && Within([head], b, footprint)
    modifies footprint
    ensures Ring([head] + SortedList(c, nice, nodes))
    ensures forall e | e in nodes :: Class(c, nice[e]) == UNMATCHED ==> e.next == e && e.prev == e
  {
    ghost var m0 := [head];
    SpliceNext(head, heads[0], 0, m0, b, footprint);
    ghost var m1 := m0 + b[0][1..];
    SpliceNext(head, heads[1], 1, m1, b, footprint);
    ghost var m2 := m1 + b[1][1..];
    SpliceNext(head, heads[2], 2, m2, b, footprint);
    ghost var m3 := m2 + b[2][1..];
    SpliceNext(head, heads[3], 3, m3, b, footprint);
    SplicedIsSorted(c, nice, head, nodes, heads, b);
  }

  /** The body of `sort_priority_list` once its four local list heads are initialised. */
  method SortWithHeads(c: Levels, head: ListEntry, nice: map<ListEntry, int>, heads: seq<ListEntry>,
                       ghost nodes: seq<ListEntry>, ghost footprint: set<ListEntry>)
    requires Ring([head] + nodes) && (forall e | e in nodes :: e in nice)
    requires |heads| == UNMATCHED && Distinct(heads) && DisjointSeqs([head] + nodes, heads)
    requires forall k | 0 <= k < UNMATCHED :: heads[k].next == heads[k] && heads[k].prev == heads[k]
    requires (forall e | e in [head] + nodes :: e in footprint) && (forall e | e in heads :: e in footprint)
    modifies footprint
    ensures Ring([head] + SortedList(c, nice, nodes))
    ensures forall e | e in nodes :: Class(c, nice[e]) == UNMATCHED ==> e.next == e && e.prev == e
  {
    ghost var start: seq<seq<ListEntry>> := [[heads[0]], [heads[1]], [heads[2]], [heads[3]], []];
    StartIsApart(c, nice, [head] + nodes, heads, start, footprint);
    ghost var b := DistributeNodes(c, head, nice, heads, nodes, start, footprint);
    SpliceAll(c, head, nice, heads, nodes, b, footprint);
  }

  /** `sort_priority_list`.  `nice` gives the `priority_nice` of the structure that embeds an
      entry (the ListEntry macro); it is read, never written. */
  method SortPriorityList(c: Levels, head: ListEntry, nice: map<ListEntry, int>, ghost nodes: seq<ListEntry>)
    requires Ring([head] + nodes) && (forall e | e in nodes :: e in nice)
    modifies [head] + nodes
    ensures Ring([head] + SortedList(c, nice, nodes))
    ensures forall e | e in nodes :: Class(c, nice[e]) == UNMATCHED ==> e.next == e && e.prev == e
  {
    var critical := new ListEntry();
    var high := new ListEntry();
    var normal := new ListEntry();
    var low := new ListEntry();
    ghost var footprint := (set e | e in [head] + nodes) + {critical, high, normal, low};
    SortWithHeads(c, head, nice, [critical, high, normal, low], nodes, footprint);
  }
}

/**
  The memory pool of import/Mempool.c: up to ten chunks of equal slots, with the free list
  threaded through the first word of the free slots.

  Addresses are integers and 0 is NULL.  `Pool` is the pool as a value: which slots are free,
  in list order, and which are handed out.  `MemoryPool` is the object with the links; its
  methods are proved against `AllocSpec` and `FreeSpec`.
 */
module Mempool {

  const NULL := 0
  const MAX_EXP_TIME: nat := 10
  /** MEMORY_POOL_MINIMUM_SIZE: a slot must hold the free-list link. */
  const MINIMUM_SIZE := 8

  datatype Pool = Pool(size: int, slots: int, chunks: seq<int>, free: seq<int>, out: set<int>) {

    /** The address of slot `k` of chunk `i`. */
    function Slot(i: nat, k: int): int
      requires i < |chunks|
    {
      chunks[i] + k * size
    }

    ghost predicate IsSlot(a: int) {
      exists i: nat, k :: i < |chunks| && 0 <= k < slots && a == Slot(i, k)
    }

    function Span(): int { slots * size }

    /** What malloc promises about a new chunk: it overlaps none of the others. */
    predicate Fresh(base: int) {
      base > NULL && forall i | 0 <= i < |chunks| :: Disjoint(base, chunks[i], Span())
    }

    /** The pool invariant: disjoint chunks, and free and handed-out slots partition the
        slots of all chunks, with no slot listed twice. */
    ghost predicate Good() {
      && size >= MINIMUM_SIZE && slots > 0 && |chunks| <= MAX_EXP_TIME
      && (forall i | 0 <= i < |chunks| :: chunks[i] > 0)
      && (forall i, j | 0 <= i < j < |chunks| :: Disjoint(chunks[i], chunks[j], Span()))
      && (forall i, j | 0 <= i < j < |free| :: free[i] != free[j])
      && (forall i | 0 <= i < |free| :: free[i] !in out)
      && (forall i | 0 <= i < |free| :: IsSlot(free[i]))
      && (forall a | a in out :: IsSlot(a))
      && (forall a | IsSlot(a) :: a in free || a in out)
      && |free| + |out| == |chunks| * slots
    }
  }

  predicate Disjoint(a: int, b: int, span: int) {
    a + span <= b || b + span <= a
  }

  lemma SlotBounds(size: int, slots: int, k: int)
    requires size > 0 && 0 <= k < slots
    ensures 0 <= k * size && k * size + size <= slots * size
  {
    assert (k + 1) * size <= slots * size;
  }

  /** An address is at most one slot of one chunk. */
  lemma SlotsAreDistinct(p: Pool, i: nat, k: int, j: nat, l: int)
    requires p.Good() && i < |p.chunks| && j < |p.chunks| && 0 <= k < p.slots && 0 <= l < p.slots
    requires p.Slot(i, k) == p.Slot(j, l)
    ensures i == j && k == l
  {
    SlotBounds(p.size, p.slots, k);
    SlotBounds(p.size, p.slots, l);
    if k < l { SlotStep(p.size, k, l); } else if l < k { SlotStep(p.size, l, k); }
  }

  lemma MulStep(k: int, size: int)
    ensures (k + 1) * size == k * size + size
  {
  }

  lemma SlotStep(size: int, k: int, l: int)
    requires size > 0 && k < l
    ensures k * size + size <= l * size
  {
    assert (k + 1) * size <= l * size;
  }

  /** The free list after the first `k` slots of a new chunk have been pushed. */
  function ChunkSlots(base: int, size: int, k: nat): (r: seq<int>)
    ensures |r| == k
  {
    if k == 0 then [] else [base + (k - 1) * size] + ChunkSlots(base, size, k - 1)
  }

  lemma {:induction false} ChunkSlotAt(base: int, size: int, k: nat, i: nat)
    requires i < k
    ensures ChunkSlots(base, size, k)[i] == base + (k - 1 - i) * size
  {
    if i > 0 { ChunkSlotAt(base, size, k - 1, i - 1); }
  }

  /** `mp_expand` with a successful malloc. */
  function ExpandSpec(p: Pool, base: int): Pool
    requires p.slots >= 0
  {
    p.(chunks := p.chunks + [base], free := ChunkSlots(base, p.size, p.slots) + p.free)
  }

  predicate CanExpand(p: Pool, malloc: int) {
    |p.chunks| < MAX_EXP_TIME && malloc != NULL
  }

  /** `mp_alloc`; `malloc` is what malloc would return if the pool has to grow. */
  function AllocSpec(p: Pool, malloc: int): (r: (Pool, int))
    requires p.slots > 0
  {
    var q := if p.free == [] && CanExpand(p, malloc) then ExpandSpec(p, malloc) else p;
    if q.free == [] then (q, NULL)
    else (q.(free := q.free[1..], out := q.out + {q.free[0]}), q.free[0])
  }

  /** `closest` after the first `n` chunks: the least positive offset of `mem` from a chunk
      base, -1 when there is none.  Offset 0 does not count. */
  function Closest(chunks: seq<int>, mem: int, n: nat): int
    requires n <= |chunks|
  {
    if n == 0 then -1
    else
      var c, d := Closest(chunks, mem, n - 1), mem - chunks[n - 1];
      if d > 0 && (d < c || c == -1) then d else c
  }

  /** The test of `mp_free`.  C's % differs from Dafny's on -1, but is also non-zero there. */
  predicate Accepts(p: Pool, mem: int)
    requires p.size > 1
  {
    Closest(p.chunks, mem, |p.chunks|) % p.size == 0
  }

  function FreeSpec(p: Pool, mem: int): Pool
    requires p.size > 1
  {
    if Accepts(p, mem) then p.(free := [mem] + p.free, out := p.out - {mem}) else p
  }

  /* ------------------------------ allocation ------------------------------ */

  lemma ExpandedSlots(p: Pool, base: int, a: int)
    requires p.slots > 0 && |p.chunks| < MAX_EXP_TIME
    ensures ExpandSpec(p, base).IsSlot(a) <==> p.IsSlot(a) || a in ChunkSlots(base, p.size, p.slots)
  {
    var q, added := ExpandSpec(p, base), ChunkSlots(base, p.size, p.slots);
    if p.IsSlot(a) {
      var i: nat, k :| i < |p.chunks| && 0 <= k < p.slots && a == p.Slot(i, k);
      assert a == q.Slot(i, k);
    }
    if a in added {
      var m :| 0 <= m < p.slots && added[m] == a;
      ChunkSlotAt(base, p.size, p.slots, m);
      assert a == q.Slot(|p.chunks|, p.slots - 1 - m);
    }
    if q.IsSlot(a) {
      var i: nat, k :| i < |q.chunks| && 0 <= k < q.slots && a == q.Slot(i, k);
      if i < |p.chunks| {
        assert a == p.Slot(i, k);
      } else {
        ChunkSlotAt(base, p.size, p.slots, p.slots - 1 - k);
        assert a == added[p.slots - 1 - k];
      }
    }
  }

  /** The slots of a fresh chunk are new addresses. */
  lemma FreshSlotsAreNew(p: Pool, base: int, m: nat)
    requires p.Good() && p.Fresh(base) && m < p.slots
    ensures !p.IsSlot(ChunkSlots(base, p.size, p.slots)[m])
  {
    var a := ChunkSlots(base, p.size, p.slots)[m];
    SlotBounds(p.size, p.slots, p.slots - 1 - m);
    ChunkSlotAt(base, p.size, p.slots, m);
    forall i: nat, k | i < |p.chunks| && 0 <= k < p.slots
      ensures a != p.Slot(i, k)
    {
      SlotBounds(p.size, p.slots, k);
      assert Disjoint(base, p.chunks[i], p.Span());
    }
  }

  lemma ExpandKeepsGood(p: Pool, base: int)
    requires p.Good() && p.Fresh(base) && |p.chunks| < MAX_EXP_TIME
    ensures ExpandSpec(p, base).Good()
  {
    var q, added := ExpandSpec(p, base), ChunkSlots(base, p.size, p.slots);
    forall a
      ensures q.IsSlot(a) <==> p.IsSlot(a) || a in added
    {
      ExpandedSlots(p, base, a);
    }
    forall m: nat | m < p.slots
      ensures !p.IsSlot(added[m])
    {
      FreshSlotsAreNew(p, base, m);
    }
    forall i, j | 0 <= i < j < p.slots
      ensures added[i] != added[j]
    {
      ChunkSlotAt(base, p.size, p.slots, i);
      ChunkSlotAt(base, p.size, p.slots, j);
      SlotStep(p.size, p.slots - 1 - j, p.slots - 1 - i);
    }
    forall i, j | 0 <= i < j < |q.free|
      ensures q.free[i] != q.free[j]
    {
      if i < p.slots <= j { assert p.IsSlot(p.free[j - p.slots]); }
    }
    forall a | a in added
      ensures a !in p.out
    {
      var m: nat :| m < p.slots && added[m] == a;
    }
    assert forall i | 0 <= i < |q.chunks| :: q.chunks[i] == if i < |p.chunks| then p.chunks[i] else base;
    MulStep(|p.chunks|, p.slots);
  }

  /** `mp_alloc` keeps the partition; it never hands out a slot twice; and it fails exactly
      when no slot is free and the pool cannot grow. */
  lemma AllocKeepsGood(p: Pool, malloc: int)
    requires p.Good() && (malloc != NULL ==> p.Fresh(malloc))
    ensures var (q, a) := AllocSpec(p, malloc);
            && q.Good()
            && (a == NULL <==> p.free == [] && !CanExpand(p, malloc))
            && (a == NULL ==> q == p)
            && (a != NULL ==> q.IsSlot(a) && a !in p.out && q.out == p.out + {a})
  {
    var grow := p.free == [] && CanExpand(p, malloc);
    var q := if grow then ExpandSpec(p, malloc) else p;
    if grow { ExpandKeepsGood(p, malloc); }
    assert q.Good();
    if q.free != [] {
      var a := q.free[0];
      assert q.IsSlot(a) && a > NULL by { SlotIsPositive(q, a); }
      PopKeepsGood(q);
    }
  }

  lemma SlotIsPositive(p: Pool, a: int)
    requires p.Good() && p.IsSlot(a)
    ensures a > NULL
  {
    var i: nat, k :| i < |p.chunks| && 0 <= k < p.slots && a == p.Slot(i, k);
    SlotBounds(p.size, p.slots, k);
  }

  lemma HeadIsPositive(p: Pool)
    requires p.Good()
    ensures p.slots > 0 && p.size >= MINIMUM_SIZE
    ensures p.free != [] ==> p.free[0] > NULL
  {
    if p.free != [] { SlotIsPositive(p, p.free[0]); }
  }

  lemma FreeIsDistinct(p: Pool)
    requires p.Good()
    ensures forall i, j | 0 <= i < j < |p.free| :: p.free[i] != p.free[j]
    ensures forall i | 0 <= i < |p.free| :: p.free[i] !in p.out
  {
  }

  lemma PopKeepsGood(q: Pool)
    requires q.Good() && q.free != []
    ensures q.(free := q.free[1..], out := q.out + {q.free[0]}).Good()
  {
    var r := q.(free := q.free[1..], out := q.out + {q.free[0]});
    assert q.free == [q.free[0]] + r.free;
    SameSlots(q, r);
  }

  lemma SameSlots(p: Pool, q: Pool)
    requires p.size == q.size && p.slots == q.slots && p.chunks == q.chunks
    ensures forall a :: p.IsSlot(a) <==> q.IsSlot(a)
  {
    forall a
      ensures p.IsSlot(a) <==> q.IsSlot(a)
    {
      if p.IsSlot(a) {
        var i: nat, k :| i < |p.chunks| && 0 <= k < p.slots && a == p.Slot(i, k);
        assert a == q.Slot(i, k);
      }
      if q.IsSlot(a) {
        var i: nat, k :| i < |q.chunks| && 0 <= k < q.slots && a == q.Slot(i, k);
        assert a == p.Slot(i, k);
      }
    }
  }

  lemma GoodCounts(p: Pool)
    requires p.Good()
    ensures |p.free| + |p.out| == |p.chunks| * p.slots
    ensures |p.chunks| <= MAX_EXP_TIME && p.slots > 0 && p.size >= MINIMUM_SIZE
  {
  }

  /** As long as malloc succeeds, allocation fails exactly with every slot of ten chunks out. */
  lemma AllocFailsOnlyWhenExhausted(p: Pool, malloc: int)
    requires p.Good() && p.Fresh(malloc)
    ensures AllocSpec(p, malloc).1 == NULL <==> |p.out| == MAX_EXP_TIME * p.slots
  {
    hide Pool.Good;
    GoodCounts(p);
    AllocKeepsGood(p, malloc);
    AllOutIff(|p.chunks|, p.slots, |p.free|, |p.out|);
  }

  lemma AllOutIff(chunks: nat, slots: int, free: nat, out: nat)
    requires chunks <= 10 && slots > 0 && free + out == chunks * slots
    ensures out == 10 * slots <==> chunks == 10 && free == 0
  {
    if chunks < 10 { SlotStep(slots, chunks, 10); }
  }

  /* ------------------------------- release -------------------------------- */

  /** `closest` is the least positive offset: the offset from the highest base below `mem`. */
  lemma {:induction false} ClosestIsLeast(chunks: seq<int>, mem: int, n: nat)
    requires n <= |chunks|
    ensures var c := Closest(chunks, mem, n);
            && (c == -1 <==> forall j | 0 <= j < n :: chunks[j] >= mem)
            && (c != -1 ==> c > 0 && exists j :: 0 <= j < n && chunks[j] == mem - c)
            && (forall j | 0 <= j < n && chunks[j] < mem :: c <= mem - chunks[j])
  {
    if n > 0 {
      ClosestIsLeast(chunks, mem, n - 1);
      var c := Closest(chunks, mem, n);
      if mem - chunks[n - 1] == c {
        assert chunks[n - 1] == mem - c;
      }
    }
  }

  /** For an address strictly inside a chunk the search finds the offset in that chunk,
      wherever the other chunks lie. */
  lemma ClosestInsideChunk(p: Pool, i: nat, mem: int)
    requires p.Good() && i < |p.chunks| && p.chunks[i] < mem < p.chunks[i] + p.Span()
    ensures Closest(p.chunks, mem, |p.chunks|) == mem - p.chunks[i]
  {
    ClosestIsLeast(p.chunks, mem, |p.chunks|);
    forall j | 0 <= j < |p.chunks|
      ensures j == i || Disjoint(p.chunks[i], p.chunks[j], p.Span())
    {
    }
    var c := Closest(p.chunks, mem, |p.chunks|);
    var j :| 0 <= j < |p.chunks| && p.chunks[j] == mem - c;
  }

  lemma OffsetOfSlot(p: Pool, i: nat, mem: int)
    requires p.Good() && i < |p.chunks| && p.chunks[i] < mem < p.chunks[i] + p.Span() && p.IsSlot(mem)
    ensures (mem - p.chunks[i]) % p.size == 0
  {
    forall j | 0 <= j < |p.chunks|
      ensures j == i || Disjoint(p.chunks[i], p.chunks[j], p.Span())
    {
    }
    var j: nat, k :| j < |p.chunks| && 0 <= k < p.slots && mem == p.Slot(j, k);
    SlotBounds(p.size, p.slots, k);
    MultipleIsAligned(k, p.size);
  }

  lemma SlotAtOffset(p: Pool, i: nat, d: int)
    requires p.size > 0 && i < |p.chunks| && 0 < d < p.Span() && d % p.size == 0
    ensures p.IsSlot(p.chunks[i] + d)
  {
    var k := d / p.size;
    assert d == k * p.size;
    assert k <= 0 ==> k * p.size <= 0;
    assert k >= p.slots ==> k * p.size >= p.slots * p.size;
    assert p.chunks[i] + d == p.Slot(i, k);
  }

  /** Strictly inside a chunk, `mp_free` accepts exactly the slot-aligned addresses. */
  lemma AcceptsInsideIffSlot(p: Pool, i: nat, mem: int)
    requires p.Good() && i < |p.chunks| && p.chunks[i] < mem < p.chunks[i] + p.Span()
    ensures Accepts(p, mem) <==> p.IsSlot(mem)
  {
    ClosestInsideChunk(p, i, mem);
    if Accepts(p, mem) {
      SlotAtOffset(p, i, mem - p.chunks[i]);
    } else if p.IsSlot(mem) {
      OffsetOfSlot(p, i, mem);
    }
  }

  lemma MultipleIsAligned(k: int, size: int)
    requires size > 0
    ensures (k * size) % size == 0
  {
    var q, r := (k * size) / size, (k * size) % size;
    assert k * size == q * size + r && 0 <= r < size;
    assert (k - q) * size == r;
    assert k - q >= 1 ==> (k - q) * size >= size;
    assert k - q <= -1 ==> (k - q) * size <= -size;
  }

  /** The base slot of a chunk is the exception: the offset 0 is ignored, so it is accepted
      only when a lower chunk exists and the nearest one lies a multiple of `size` below. */
  lemma AcceptsBaseIff(p: Pool, i: nat)
    requires p.Good() && i < |p.chunks|
    ensures Accepts(p, p.chunks[i]) <==>
            exists j :: 0 <= j < |p.chunks| && NearestBelow(p.chunks, i, j)
                        && (p.chunks[i] - p.chunks[j]) % p.size == 0
  {
    var mem := p.chunks[i];
    ClosestIsLeast(p.chunks, mem, |p.chunks|);
    var c := Closest(p.chunks, mem, |p.chunks|);
    if c != -1 {
      var j :| 0 <= j < |p.chunks| && p.chunks[j] == mem - c;
      assert NearestBelow(p.chunks, i, j);
    }
  }

  predicate NearestBelow(chunks: seq<int>, i: nat, j: nat)
    requires i < |chunks| && j < |chunks|
  {
    chunks[j] < chunks[i] && forall m | 0 <= m < |chunks| && chunks[m] < chunks[i] :: chunks[m] <= chunks[j]
  }

  /** So the base of the lowest chunk can never be given back. */
  lemma LowestBaseIsRefused(p: Pool, i: nat)
    requires p.Good() && i < |p.chunks|
    requires forall j | 0 <= j < |p.chunks| :: p.chunks[i] <= p.chunks[j]
    ensures !Accepts(p, p.chunks[i]) && FreeSpec(p, p.chunks[i]) == p
  {
    ClosestIsLeast(p.chunks, p.chunks[i], |p.chunks|);
  }

  /** Only base slots are ever refused. */
  lemma RefusedSlotIsBase(p: Pool, mem: int)
    requires p.Good() && p.IsSlot(mem) && !Accepts(p, mem)
    ensures mem in p.chunks
  {
    var i: nat, k :| i < |p.chunks| && 0 <= k < p.slots && mem == p.Slot(i, k);
    if k > 0 {
      SlotBounds(p.size, p.slots, k);
      SlotStep(p.size, 0, k);
      AcceptsInsideIffSlot(p, i, mem);
    }
  }

  lemma PushKeepsGood(p: Pool, mem: int)
    requires p.Good() && mem in p.out
    ensures p.(free := [mem] + p.free, out := p.out - {mem}).Good()
  {
    var q := p.(free := [mem] + p.free, out := p.out - {mem});
    SameSlots(p, q);
    forall a | q.IsSlot(a)
      ensures a in q.free || a in q.out
    {
      assert a in p.free || a in p.out;
    }
  }

  /** Giving back a slot that is out keeps the partition, and the slot is the next one to be
      handed out again. */
  lemma FreeKeepsGood(p: Pool, mem: int, malloc: int)
    requires p.Good() && mem in p.out
    ensures FreeSpec(p, mem).Good()
    ensures Accepts(p, mem) ==> AllocSpec(FreeSpec(p, mem), malloc) == (p, mem)
  {
    hide Pool.Good;
    GoodCounts(p);
    PushKeepsGood(p, mem);
    var q := FreeSpec(p, mem);
    assert Accepts(p, mem) ==> q.free[1..] == p.free && q.out + {mem} == p.out;
  }

  /** A double free is not detected: releasing an accepted slot leaves a list without
      duplicates if and only if the slot was out. */
  lemma DoubleFreeIff(p: Pool, mem: int)
    requires p.Good() && p.IsSlot(mem) && Accepts(p, mem)
    ensures FreeSpec(p, mem).Good() <==> mem in p.out
  {
    if mem in p.out {
      FreeKeepsGood(p, mem, NULL);
    } else {
      var m :| 0 <= m < |p.free| && p.free[m] == mem;
      var q := FreeSpec(p, mem);
      assert q.free[0] == mem && q.free[m + 1] == mem;
    }
  }

  /* --------------------------- whole histories ---------------------------- */

  datatype Op = Alloc(malloc: int) | Free(mem: int)

  /** What the environment owes: malloc returns fresh memory, callers free what they hold. */
  predicate Legal(p: Pool, op: Op) {
    match op
    case Alloc(malloc) => malloc != NULL ==> p.Fresh(malloc)
    case Free(mem) => mem in p.out
  }

  function Apply(p: Pool, op: Op): Pool
    requires p.slots > 0 && p.size > 1
  {
    match op
    case Alloc(malloc) => AllocSpec(p, malloc).0
    case Free(mem) => FreeSpec(p, mem)
  }

  ghost predicate History(p: Pool, ops: seq<Op>, q: Pool)
    decreases |ops|
  {
    if ops == [] then p == q
    else p.slots > 0 && p.size > 1 && Legal(p, ops[0]) && History(Apply(p, ops[0]), ops[1..], q)
  }

  function Empty(size: int, slots: int): Pool { Pool(size, slots, [], [], {}) }

  lemma StepKeepsGood(p: Pool, op: Op)
    requires p.Good() && Legal(p, op)
    ensures Apply(p, op).Good() && p.chunks <= Apply(p, op).chunks
  {
    match op
    case Alloc(malloc) => AllocKeepsGood(p, malloc);
    case Free(mem) => FreeKeepsGood(p, mem, NULL);
  }

  /** The partition holds in every state that legal calls can reach. */
  lemma {:induction false} HistoryKeepsGood(p: Pool, ops: seq<Op>, q: Pool)
    requires p.Good() && History(p, ops, q)
    ensures q.Good() && p.chunks <= q.chunks
    decreases |ops|
  {
    if ops != [] {
      StepKeepsGood(p, ops[0]);
      HistoryKeepsGood(Apply(p, ops[0]), ops[1..], q);
    }
  }

  lemma StepKeepsBaseOut(p: Pool, op: Op, base: int)
    requires p.Good() && Legal(p, op)
    requires base in p.out && base in p.chunks && forall j | 0 <= j < |p.chunks| :: base <= p.chunks[j]
    ensures base in Apply(p, op).out
  {
    match op
    case Alloc(malloc) => AllocKeepsGood(p, malloc);
    case Free(mem) =>
      var i :| 0 <= i < |p.chunks| && p.chunks[i] == base;
      LowestBaseIsRefused(p, i);
  }

  /** While no lower chunk is added the base slot of the lowest chunk, once handed out, stays
      out for good. */
  lemma {:induction false} LowestBaseIsLost(p: Pool, ops: seq<Op>, q: Pool, base: int)
    requires p.Good() && History(p, ops, q)
    requires base in p.out && base in p.chunks && forall j | 0 <= j < |q.chunks| :: base <= q.chunks[j]
    ensures base in q.out
    decreases |ops|
  {
    if ops != [] {
      var p' := Apply(p, ops[0]);
      StepKeepsGood(p, ops[0]);
      HistoryKeepsGood(p', ops[1..], q);
      assert forall j | 0 <= j < |p.chunks| :: p.chunks[j] == q.chunks[j];
      StepKeepsBaseOut(p, ops[0], base);
      assert base in p'.chunks;
      LowestBaseIsLost(p', ops[1..], q, base);
    }
  }

  /* ------------------------------ the object ------------------------------ */

  /** The word that slot `i` of the free list must hold. */
  function LinkWord(free: seq<int>, i: nat): int {
    if i + 1 < |free| then free[i + 1] else NULL
  }

  /** The words in the slots thread `free`, starting at `head` and ending in NULL. */
  ghost predicate Threads(head: int, link: map<int, int>, free: seq<int>) {
    && head == (if free == [] then NULL else free[0])
    && (forall i | 0 <= i < |free| :: free[i] in link && link[free[i]] == LinkWord(free, i))
  }

  lemma PushThreads(head: int, link: map<int, int>, free: seq<int>, a: int)
    requires Threads(head, link, free) && a !in free
    ensures Threads(a, link[a := head], [a] + free)
  {
    var r := [a] + free;
    forall i | 0 < i < |r|
      ensures r[i] != a && LinkWord(r, i) == LinkWord(free, i - 1)
    {
      assert free[i - 1] in free;
    }
  }

  lemma PopThreads(head: int, link: map<int, int>, free: seq<int>)
    requires Threads(head, link, free) && free != []
    requires forall i | 0 < i < |free| :: free[i] != free[0]
    ensures head == free[0] && head in link
    ensures Threads(link[head], link[head := 0], free[1..])
  {
    var r := free[1..];
    forall i | 0 <= i < |r|
      ensures r[i] == free[i + 1] && LinkWord(r, i) == LinkWord(free, i + 1)
    {
    }
    assert link[head] == LinkWord(free, 0);
  }

  lemma PopFacts(p: Pool, head: int, link: map<int, int>)
    requires p.Good() && Threads(head, link, p.free) && p.free != []
    ensures head == p.free[0] && head in link && head !in p.out
    ensures Threads(link[head], link[head := 0], p.free[1..])
    ensures p.(free := p.free[1..], out := p.out + {head}).Good()
  {
    PopKeepsGood(p);
    hide Pool.Good;
    FreeIsDistinct(p);
    PopThreads(head, link, p.free);
  }

  /** `link[a]` is the word stored at address `a`: the next free slot when slot `a` is free.
      `pool` is the abstract value that the fields represent. */
  class MemoryPool {
    var head: int
    var memory: array<int>
    var allocTime: nat
    var size: int
    var slots: int
    var blocks: int
    var usedSlots: int
    var link: map<int, int>

    ghost var pool: Pool

    ghost predicate Valid()
      reads this, memory
    {
      && memory.Length == MAX_EXP_TIME && allocTime <= MAX_EXP_TIME
      && pool.Good()
      && pool.size == size && pool.slots == slots && pool.chunks == memory[..allocTime]
      && Threads(head, link, pool.free)
      && blocks == |pool.free| && usedSlots == |pool.out|
    }

    /** The counters of a valid pool: free plus handed-out slots make up all chunks. */
    lemma CountersAddUp()
      requires Valid()
      ensures blocks + usedSlots == allocTime * slots
    {
    }

    /** The assignments of `mp_init` before it calls `mp_expand`. */
    constructor (size: int, slots: int)
      requires size >= MINIMUM_SIZE && slots > 0
      ensures Valid() && pool == Empty(size, slots) && fresh(memory)
    {
      this.size, this.slots := size, slots;
      head, usedSlots, allocTime, blocks := NULL, 0, 0, 0;
      memory := new int[MAX_EXP_TIME];
      link := map[];
      pool := Empty(size, slots);
    }

    /** `mp_expand`. */
    method Expand(malloc: int) returns (ok: bool)
      requires Valid() && (malloc != NULL ==> pool.Fresh(malloc))
      modifies this, memory
      ensures Valid() && memory == old(memory)
      ensures ok == CanExpand(old(pool), malloc)
      ensures pool == if ok then ExpandSpec(old(pool), malloc) else old(pool)
    {
      hide Pool.Good, Threads, Unlisted, Pool.Fresh;
      GoodCounts(pool);
      if allocTime == MAX_EXP_TIME { return false; }
      if malloc == NULL { return false; }
      ExpandKeepsGood(pool, malloc);
      FreshSlotsAreUnlisted(pool, malloc);
      memory[allocTime] := malloc;
      PushSlots(malloc);
      allocTime := allocTime + 1;
      assert memory[..allocTime] == memory[..allocTime - 1] + [malloc];
      pool := ExpandSpec(pool, malloc);
      return true;
    }

    /** The loop of `mp_expand`: every slot of the chunk is pushed on the free list. */
    method PushSlots(base: int)
      requires size > 0 && slots > 0 && Threads(head, link, pool.free)
      requires Unlisted(base, size, slots, pool.free)
      modifies this`head, this`link, this`blocks
      ensures Threads(head, link, ChunkSlots(base, size, slots) + pool.free)
      ensures blocks == old(blocks) + slots
    {
      hide Threads;
      var size, slots := size, slots;
      var end := base + size * slots;
      var ite := base;
      ghost var k, rest := 0, pool.free;
      assert ChunkSlots(base, size, 0) + rest == rest;
      while ite < end
        invariant 0 <= k <= slots && ite == base + k * size
        invariant Threads(head, link, ChunkSlots(base, size, k) + rest)
        invariant blocks == old(blocks) + k
        decreases slots - k
      {
        LoopGuard(base, size, slots, k);
        SlotNotYetPushed(base, size, slots, k, rest);
        PushThreads(head, link, ChunkSlots(base, size, k) + rest, ite);
        var temp := head;
        head := ite;
        link := link[head := temp];
        blocks := blocks + 1;
        ChunkSlotsStep(base, size, k, rest);
        ite := ite + size;
        k := k + 1;
      }
      LoopGuard(base, size, slots, k);
    }

    /** `mp_alloc`. */
    method Alloc(malloc: int) returns (mem: int)
      requires Valid() && (malloc != NULL ==> pool.Fresh(malloc))
      modifies this, memory
      ensures Valid() && memory == old(memory)
      ensures (pool, mem) == AllocSpec(old(pool), malloc)
    {
      HeadIsPositive(pool);
      hide Pool.Good;
      if head == NULL {
        var ok := Expand(malloc);
        if !ok { return NULL; }
      }
      mem := Unlink();
    }

    /** The second half of `mp_alloc`: the first free slot is unlinked. */
    method Unlink() returns (mem: int)
      requires Valid() && pool.free != []
      modifies this
      ensures Valid() && memory == old(memory)
      ensures mem == old(pool).free[0]
      ensures pool == old(pool).(free := old(pool).free[1..], out := old(pool).out + {mem})
    {
      hide Pool.Good, Threads;
      PopFacts(pool, head, link);
      mem := head;
      head := link[head];
      usedSlots := usedSlots + 1;
      blocks := blocks - 1;
      link := link[mem := 0];
      pool := pool.(free := pool.free[1..], out := pool.out + {mem});
    }

    /** The search loop of `mp_free`. */
    method Nearest(mem: int) returns (closest: int)
      requires Valid()
      ensures closest == Closest(pool.chunks, mem, |pool.chunks|)
    {
      hide Pool.Good, Threads;
      closest := -1;
      for i := 0 to allocTime
        invariant closest == Closest(pool.chunks, mem, i)
      {
        var difference := mem - memory[i];
        if difference > 0 && (difference < closest || closest == -1) {
          closest := difference;
        }
      }
    }

    /** `mp_free`, for any address.  The code does not check that the slot was handed out: the
        pool is certain to stay valid only if it was, or if the address is refused. */
    method Free(mem: int) returns (ok: bool)
      requires Valid()
      modifies this
      ensures ok == Accepts(old(pool), mem) && pool == FreeSpec(old(pool), mem)
      ensures !ok ==> unchanged(this)
      ensures ok ==> head == mem && link == old(link)[mem := old(head)] && unchanged(`memory, `allocTime, `size, `slots)
      ensures ok ==> blocks == old(blocks) + 1 && usedSlots == old(usedSlots) - 1
      ensures !ok || mem in old(pool).out ==> Valid()
    {
      HeadIsPositive(pool);
      hide Pool.Good, Threads;
      if mem in pool.out { FreeFacts(mem); }
      var closest := Nearest(mem);
      if closest % size != 0 { return false; }
      var temp := head;
      head := mem;
      link := link[mem := temp];
      blocks := blocks + 1;
      usedSlots := usedSlots - 1;
      pool := FreeSpec(pool, mem);
      return true;
    }

    /** What giving back an outstanding slot does to the value and to the links. */
    lemma FreeFacts(mem: int)
      requires Valid() && mem in pool.out
      ensures pool.size > 1 && FreeSpec(pool, mem).Good()
      ensures Accepts(pool, mem) ==> Threads(mem, link[mem := head], [mem] + pool.free)
    {
      HeadIsPositive(pool);
      FreeKeepsGood(pool, mem, NULL);
      FreeIsDistinct(pool);
      SlotIsPositive(pool, mem);
      hide Pool.Good;
      PushThreads(head, link, pool.free, mem);
    }
  }

  ghost predicate Unlisted(base: int, size: int, slots: nat, free: seq<int>) {
    forall i | 0 <= i < |free| :: free[i] !in ChunkSlots(base, size, slots)
  }

  lemma FreshSlotsAreUnlisted(p: Pool, base: int)
    requires p.Good() && p.Fresh(base)
    ensures Unlisted(base, p.size, p.slots, p.free)
  {
    forall i, m: nat | 0 <= i < |p.free| && m < p.slots
      ensures p.free[i] != ChunkSlots(base, p.size, p.slots)[m]
    {
      FreshSlotsAreNew(p, base, m);
    }
  }

  lemma LoopGuard(base: int, size: int, slots: int, k: int)
    requires size > 0
    ensures base + k * size < base + size * slots <==> k < slots
  {
    if k < slots { SlotStep(size, k, slots); }
    assert k >= slots ==> k * size >= slots * size;
  }

  lemma ChunkSlotsStep(base: int, size: int, k: nat, rest: seq<int>)
    ensures ChunkSlots(base, size, k + 1) + rest == [base + k * size] + (ChunkSlots(base, size, k) + rest)
    ensures base + (k + 1) * size == base + k * size + size
  {
  }

  lemma SlotNotYetPushed(base: int, size: int, slots: int, k: nat, rest: seq<int>)
    requires size > 0 && k < slots
    requires Unlisted(base, size, slots, rest)
    ensures base + k * size !in ChunkSlots(base, size, k) + rest
  {
    var a := base + k * size;
    ChunkSlotAt(base, size, slots, slots - 1 - k);
    assert ChunkSlots(base, size, slots)[slots - 1 - k] == a;
    forall i | 0 <= i < k
      ensures ChunkSlots(base, size, k)[i] != a
    {
      ChunkSlotAt(base, size, k, i);
      SlotStep(size, k - 1 - i, k);
    }
  }

  /** `mp_init`. */
  method Init(size: int, slots: int, malloc: int) returns (mp: MemoryPool, ok: bool)
    requires size >= MINIMUM_SIZE && slots > 0 && malloc >= NULL
    ensures mp.Valid() && fresh(mp) && fresh(mp.memory)
    ensures ok <==> malloc != NULL
    ensures mp.pool == if ok then ExpandSpec(Empty(size, slots), malloc) else Empty(size, slots)
  {
    mp := new MemoryPool(size, slots);
    ok := mp.Expand(malloc);
  }
}

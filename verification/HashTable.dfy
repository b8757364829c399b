/**
  The chained hash table of src/HashTable.c: one table per area, keyed by MAC address.

  The buckets hold singly linked chains that are relinked in place.  The class refines a
  finite map: `model` gives for each key its row and the pool slots (node, key and row) that
  were taken for it.  Each call is one critical section.
 */
module HashTable {
  import opened TrackingRow
  import Summary

  /** TOLERANT_NOT_SCANNING_TIME_IN_SEC. */
  const TOLERANT_NOT_SCANNING_TIME := 300

  /** The three pool slots that one object occupies. */
  datatype Slots = Slots(node: int, key: int, row: int)

  datatype Entry = Entry(row: Row, slots: Slots)

  /** `HNode`. */
  class Node {
    const key: string
    const slots: Slots
    var row: Row
    var next: Node?

    constructor (key: string, slots: Slots, row: Row, next: Node?)
      ensures this.key == key && this.slots == slots && this.row == row && this.next == next
    {
      this.key, this.slots, this.row, this.next := key, slots, row, next;
    }
  }

  ghost function NextsOf(nodes: set<Node>): map<Node, Node?>
    reads nodes`next
  {
    map n | n in nodes :: n.next
  }

  ghost function RowsOf(nodes: set<Node>): map<Node, Row>
    reads nodes`row
  {
    map n | n in nodes :: n.row
  }

  lemma NextsFacts(nodes: set<Node>)
    ensures NextsOf(nodes).Keys == nodes && forall n | n in nodes :: NextsOf(nodes)[n] == n.next
  {
  }

  lemma RowsFacts(nodes: set<Node>)
    ensures RowsOf(nodes).Keys == nodes && forall n | n in nodes :: RowsOf(nodes)[n] == n.row
  {
  }

  /** What position `k` of the chain `c` links to. */
  ghost function Following(c: seq<Node>, k: nat): Node? {
    if k + 1 < |c| then c[k + 1] else null
  }

  ghost function At(c: seq<Node>, k: nat): Node? { if k < |c| then c[k] else null }

  lemma AtFacts(c: seq<Node>, k: nat)
    ensures At(c, k) == null <==> k >= |c|
    ensures k < |c| ==> At(c, k) == c[k]
    ensures Following(c, k) == At(c, k + 1)
  {
  }

  /** `head` starts the chain `c`. */
  ghost predicate Chain(head: Node?, c: seq<Node>, next: map<Node, Node?>) {
    && head == (if c == [] then null else c[0])
    && (forall k: nat | k < |c| :: c[k] in next && next[c[k]] == Following(c, k))
  }

  ghost predicate DistinctKeys(c: seq<Node>) {
    forall i, j | 0 <= i < j < |c| :: c[i].key != c[j].key
  }

  /** The nodes of `c` carry the entries of their keys. */
  ghost predicate Carries(c: seq<Node>, m: map<string, Entry>, rows: map<Node, Row>) {
    forall k | 0 <= k < |c| ::
      c[k] in rows && c[k].key in m && m[c[k].key] == Entry(rows[c[k]], c[k].slots)
  }

  ghost predicate HasKey(c: seq<Node>, key: string) {
    exists k :: 0 <= k < |c| && c[k].key == key
  }

  ghost predicate Linked(heads: seq<Node?>, all: seq<seq<Node>>, next: map<Node, Node?>) {
    |heads| == |all| && forall b: nat | b < |all| :: Chain(heads[b], all[b], next)
  }

  ghost predicate Carried(all: seq<seq<Node>>, m: map<string, Entry>, rows: map<Node, Row>) {
    forall b: nat | b < |all| :: Carries(all[b], m, rows)
  }

  ghost function TotalLength(chains: seq<seq<Node>>): nat {
    if chains == [] then 0 else |chains[0]| + TotalLength(chains[1..])
  }

  lemma {:induction false} TotalLengthUpdate(chains: seq<seq<Node>>, b: nat, c: seq<Node>)
    requires b < |chains|
    ensures TotalLength(chains[b := c]) == TotalLength(chains) - |chains[b]| + |c|
  {
    if b > 0 {
      assert chains[b := c][1..] == chains[1..][b - 1 := c];
      TotalLengthUpdate(chains[1..], b - 1, c);
    } else {
      assert chains[b := c][1..] == chains[1..];
    }
  }

  lemma {:induction false} TotalLengthAppend(chains: seq<seq<Node>>, c: seq<Node>)
    ensures TotalLength([]) == 0 && TotalLength(chains + [c]) == TotalLength(chains) + |c|
  {
    if chains != [] {
      assert (chains + [c])[1..] == chains[1..] + [c];
      TotalLengthAppend(chains[1..], c);
    }
  }

  ghost function EmptyChains(n: nat): (r: seq<seq<Node>>)
    ensures |r| == n && TotalLength(r) == 0
    ensures forall b | 0 <= b < n :: r[b] == []
  {
    if n == 0 then [] else [[]] + EmptyChains(n - 1)
  }

  /** Not in use and without a sample. */
  predicate IsBlank(r: Record) {
    !r.inUse && r.writeIndex == 0 && forall k | 0 <= k < |r.rssi| :: r.rssi[k] == 0
  }

  /** Reported at `now`, without a summary, and with blank records only. */
  predicate IsNew(r: Row, now: int, beacons: nat) {
    r.lastReported == now && r.summaryUuid == "" && |r.records| == beacons
    && forall i | 0 <= i < |r.records| :: IsBlank(r.records[i])
  }

  /** The row that a first sighting creates: it stores no sample. */
  function EmptyRow(now: int, beacons: nat): (r: Row)
    ensures IsNew(r, now, beacons)
  {
    var record := Record(false, "", 0, 0, 0, 0, seq(RING_SIZE, _ => 0), 0.0, 0.0);
    Row("", 0, 0, 0, now, "", "", 0.0, 0.0, seq(beacons, _ => record))
  }

  lemma EmptyRowIsWellFormed(now: int, beacons: nat, n: nat)
    requires 1 <= n <= RING_SIZE
    ensures WellFormed(EmptyRow(now, beacons).records, n)
  {
  }

  predicate IsExpired(row: Row, now: int) { row.lastReported < now - TOLERANT_NOT_SCANNING_TIME }

  class Table {
    const hash: string -> nat
    const beacons: nat
    const params: Params
    const buckets: array<Node?>
    var count: int

    ghost var chains: seq<seq<Node>>
    ghost var nodes: set<Node>
    ghost var model: map<string, Entry>

    function Bucket(key: string): (b: nat)
      requires buckets.Length > 0
      ensures b < buckets.Length
    {
      hash(key) % buckets.Length
    }

    /** Every key hashes to the bucket it is in, and occurs there once. */
    ghost predicate InPlace(c: seq<Node>, b: nat)
      requires buckets.Length > 0
    {
      DistinctKeys(c) && forall k | 0 <= k < |c| :: Bucket(c[k].key) == b
    }

    ghost predicate Placed(all: seq<seq<Node>>) {
      |all| == buckets.Length > 0 && forall b: nat | b < |all| :: InPlace(all[b], b)
    }

    ghost predicate Keyed(all: seq<seq<Node>>, m: map<string, Entry>) {
      |all| == buckets.Length > 0 && forall key | key in m :: HasKey(all[Bucket(key)], key)
    }

    ghost predicate Rows(m: map<string, Entry>) {
      1 <= params.window <= RING_SIZE && forall k | k in m :: WellFormed(m[k].row.records, params.window)
    }

    ghost predicate Valid()
      reads this, buckets, nodes
    {
      && Placed(chains) && Keyed(chains, model) && Rows(model)
      && Linked(buckets[..], chains, NextsOf(nodes))
      && Carried(chains, model, RowsOf(nodes))
      && count == TotalLength(chains)
    }

    /** `hashtable_new`. */
    constructor (size: nat, hash: string -> nat, beacons: nat, params: Params)
      requires size > 0 && 1 <= params.window <= RING_SIZE
      ensures Valid() && model == map[] && count == 0 && fresh(buckets) && nodes == {}
    {
      this.hash, this.beacons, this.params := hash, beacons, params;
      buckets := new Node?[size](_ => null);
      count := 0;
      chains, nodes, model := EmptyChains(size), {}, map[];
    }

    lemma InPlaceFacts(c: seq<Node>, b: nat)
      requires buckets.Length > 0 && InPlace(c, b)
      ensures forall k | 0 <= k < |c| :: Bucket(c[k].key) == b
      ensures forall i, j | 0 <= i < |c| && 0 <= j < |c| && c[i].key == c[j].key :: i == j
    {
    }

    /* ------------------------------ lookup and update ------------------------ */

    /** The chain search that both `hashtable_maintain_key_part` and the put do. */
    method Find(key: string) returns (curr: Node?, ghost k: nat)
      requires Valid()
      ensures curr == null <==> key !in model
      ensures curr != null ==> Bucket(key) < |chains| && k < |chains[Bucket(key)]|
      ensures curr != null ==> chains[Bucket(key)][k] == curr && curr.key == key && curr in nodes
      ensures curr != null ==> model[key] == Entry(curr.row, curr.slots) && WellFormed(curr.row.records, params.window)
    {
      ghost var c := chains[Bucket(key)];
      assert InPlace(c, Bucket(key)) && Chain(buckets[Bucket(key)], c, NextsOf(nodes));
      assert key in model ==> HasKey(c, key);
      k := 0;
      curr := buckets[Bucket(key)];
      while curr != null
        invariant 0 <= k <= |c| && curr == (if k < |c| then c[k] else null)
        invariant forall i | 0 <= i < k :: c[i].key != key
        decreases |c| - k
      {
        if curr.key == key {
          assert Carries(c, model, RowsOf(nodes));
          return;
        }
        curr := curr.next;
        k := k + 1;
      }
    }

    lemma RowIsCarried(all: seq<seq<Node>>, m: map<string, Entry>, rows: map<Node, Row>, b: nat, k: nat, row: Row)
      requires Placed(all) && b < |all| && k < |all[b]| && Carried(all, m, rows)
      ensures var n := all[b][k];
              Carried(all, m[n.key := Entry(row, n.slots)], rows[n := row])
    {
      hide DistinctKeys;
      var n := all[b][k];
      InPlaceFacts(all[b], b);
      forall b': nat | b' < |all|
        ensures Carries(all[b'], m[n.key := Entry(row, n.slots)], rows[n := row])
      {
        InPlaceFacts(all[b'], b');
        assert Carries(all[b'], m, rows);
      }
    }

    /** Store a new row in the node at position `k` of bucket `b`. */
    method SetRow(n: Node, row: Row, ghost b: nat, ghost k: nat)
      requires Valid() && b < |chains| && k < |chains[b]| && chains[b][k] == n
      requires WellFormed(row.records, params.window)
      modifies n`row, this`model
      ensures Valid() && n.row == row
      ensures model == old(model)[n.key := Entry(row, n.slots)]
    {
      hide *;
      Parts();
      KeyIsModelled(b, k);
      ghost var rows := RowsOf(nodes);
      RowsFacts(nodes);
      n.row := row;
      RowIsCarried(chains, model, rows, b, k, row);
      RowsFacts(nodes);
      assert RowsOf(nodes) == rows[n := row];
      ReplaceKeepsKeys(model, n.key, Entry(row, n.slots));
      model := model[n.key := Entry(row, n.slots)];
      Whole();
    }

    lemma ReplaceKeepsKeys(m: map<string, Entry>, key: string, e: Entry)
      requires key in m && WellFormed(e.row.records, params.window)
      ensures Rows(m) ==> Rows(m[key := e])
      ensures Keyed(chains, m) ==> Keyed(chains, m[key := e])
    {
    }

    lemma KeyIsModelled(b: nat, k: nat)
      requires Valid() && b < |chains| && k < |chains[b]|
      ensures chains[b][k] in nodes && Bucket(chains[b][k].key) == b && chains[b][k].key in model
      ensures model[chains[b][k].key] == Entry(chains[b][k].row, chains[b][k].slots)
      ensures WellFormed(chains[b][k].row.records, params.window)
    {
      assert InPlace(chains[b], b) && Carries(chains[b], model, RowsOf(nodes));
    }

    lemma Parts()
      requires Valid()
      ensures Placed(chains) && Keyed(chains, model) && Rows(model)
      ensures Linked(buckets[..], chains, NextsOf(nodes)) && Carried(chains, model, RowsOf(nodes))
      ensures count == TotalLength(chains) && |chains| == buckets.Length > 0 && 1 <= params.window <= RING_SIZE
    {
    }

    lemma Whole()
      requires Placed(chains) && Keyed(chains, model) && Rows(model)
      requires Linked(buckets[..], chains, NextsOf(nodes)) && Carried(chains, model, RowsOf(nodes))
      requires count == TotalLength(chains)
      ensures Valid()
    {
    }

    /* -------------------------------- insertion ------------------------------ */

    lemma NewKeyIsNotChained(key: string)
      requires Valid() && key !in model
      ensures !HasKey(chains[Bucket(key)], key)
    {
      var c := chains[Bucket(key)];
      assert Carries(c, model, RowsOf(nodes));
    }

    ghost function Pushed(all: seq<seq<Node>>, node: Node): seq<seq<Node>>
      requires |all| == buckets.Length > 0
    {
      all[Bucket(node.key) := [node] + all[Bucket(node.key)]]
    }

    lemma PushKeepsPlaced(all: seq<seq<Node>>, m: map<string, Entry>, node: Node, e: Entry)
      requires Placed(all) && Keyed(all, m) && !HasKey(all[Bucket(node.key)], node.key)
      ensures Placed(Pushed(all, node)) && Keyed(Pushed(all, node), m[node.key := e])
      ensures TotalLength(Pushed(all, node)) == TotalLength(all) + 1
    {
      var b := Bucket(node.key);
      var d := [node] + all[b];
      TotalLengthUpdate(all, b, d);
      assert InPlace(d, b) by {
        hide HasKey;
        assert forall i | 0 <= i < |d| - 1 :: d[i + 1] == all[b][i];
        NoKeyMeansDistinct(node, all[b]);
      }
      forall key | key in m[node.key := e]
        ensures HasKey(Pushed(all, node)[Bucket(key)], key)
      {
        if key == node.key {
          assert d[0].key == key;
        } else if Bucket(key) == b {
          HasKeyLater(node, all[b], key);
        }
      }
    }

    lemma NoKeyMeansDistinct(node: Node, c: seq<Node>)
      requires DistinctKeys(c) && !HasKey(c, node.key)
      ensures DistinctKeys([node] + c)
    {
      var d := [node] + c;
      assert forall i | 0 < i < |d| :: d[i] == c[i - 1];
    }

    lemma HasKeyLater(node: Node, c: seq<Node>, key: string)
      requires HasKey(c, key)
      ensures HasKey([node] + c, key)
    {
      var k :| 0 <= k < |c| && c[k].key == key;
      assert ([node] + c)[k + 1].key == key;
    }

    lemma PushIsLinked(heads: seq<Node?>, all: seq<seq<Node>>, next: map<Node, Node?>, node: Node)
      requires Linked(heads, all, next) && |all| == buckets.Length > 0 && node !in next
      ensures var b := Bucket(node.key);
              Linked(heads[b := node], Pushed(all, node), next[node := heads[b]])
    {
      var b := Bucket(node.key);
      var d, next' := [node] + all[b], next[node := heads[b]];
      assert Chain(heads[b], all[b], next);
      assert forall k | 0 < k < |d| :: d[k] == all[b][k - 1];
      assert Chain(node, d, next');
      forall b': nat | b' < |all| && b' != b
        ensures Chain(heads[b'], all[b'], next')
      {
        assert Chain(heads[b'], all[b'], next);
      }
    }

    lemma PushIsCarried(all: seq<seq<Node>>, m: map<string, Entry>, rows: map<Node, Row>, node: Node, row: Row)
      requires Carried(all, m, rows) && Placed(all) && node !in rows && node.key !in m
      ensures Carried(Pushed(all, node), m[node.key := Entry(row, node.slots)], rows[node := row])
    {
      var next, m', rows' := Pushed(all, node), m[node.key := Entry(row, node.slots)], rows[node := row];
      forall b: nat | b < |all|
        ensures Carries(next[b], m', rows')
      {
        assert Carries(all[b], m, rows);
        assert Carries(all[b], m', rows');
        if b == Bucket(node.key) {
          assert forall k | 0 < k < |next[b]| :: next[b][k] == all[b][k - 1];
        }
      }
    }

    lemma SnapshotsWith(node: Node)
      ensures NextsOf(nodes + {node}) == NextsOf(nodes)[node := node.next]
      ensures RowsOf(nodes + {node}) == RowsOf(nodes)[node := node.row]
    {
    }

    lemma RowsWith(m: map<string, Entry>, key: string, e: Entry)
      requires Rows(m) && WellFormed(e.row.records, params.window)
      ensures Rows(m[key := e])
    {
    }

    /** A fresh node becomes the head of its bucket. */
    method PushNode(key: string, slots: Slots, row: Row) returns (node: Node)
      requires buckets.Length > 0
      modifies buckets, `count
      ensures fresh(node) && node.key == key && node.slots == slots && node.row == row
      ensures node.next == old(buckets[Bucket(key)])
      ensures buckets[..] == old(buckets[..])[Bucket(key) := node]
      ensures count == old(count) + 1
    {
      var b := Bucket(key);
      node := new Node(key, slots, row, buckets[b]);
      count := count + 1;
      buckets[b] := node;
    }

    /** The new-node part of `hashtable_maintain_key_part`. */
    method Insert(key: string, slots: Slots, now: int)
      requires Valid() && key !in model
      modifies this, buckets
      ensures Valid() && fresh(nodes - old(nodes)) && old(nodes) <= nodes
      ensures model == old(model)[key := Entry(EmptyRow(now, beacons), slots)]
      ensures count == old(count) + 1
    {
      hide *;
      Parts();
      NewKeyIsNotChained(key);
      var row := EmptyRow(now, beacons);
      EmptyRowIsWellFormed(now, beacons, params.window);
      ghost var heads, next, rows := buckets[..], NextsOf(nodes), RowsOf(nodes);
      NextsFacts(nodes);
      RowsFacts(nodes);
      var node := PushNode(key, slots, row);
      RowsWith(model, key, Entry(row, slots));
      PushKeepsPlaced(chains, model, node, Entry(row, slots));
      PushIsLinked(heads, chains, next, node);
      PushIsCarried(chains, model, rows, node, row);
      SnapshotsWith(node);
      chains, nodes, model := Pushed(chains, node), nodes + {node}, model[key := Entry(row, slots)];
      Whole();
    }

    /** `hashtable_put_new_tracking_data`.  The first sighting of an object creates its node
        and stores nothing else; `slots` are the pool slots taken in that case. */
    method Put(key: string, s: Sighting, slots: Slots, now: int)
      requires Valid()
      modifies this, buckets, nodes
      ensures Valid() && fresh(nodes - old(nodes)) && old(nodes) <= nodes
      ensures key !in old(model) ==>
                && model == old(model)[key := Entry(EmptyRow(now, beacons), slots)] && count == old(count) + 1
                && IsNew(model[key].row, now, beacons)
      ensures key in old(model) ==>
                var e := old(model)[key];
                model == old(model)[key := Entry(PutRow(e.row, s, now, params.window), e.slots)]
                && count == old(count)
    {
      hide EmptyRow, WellFormed, TotalLength, Chain, DistinctKeys, HasKey, Carries, InPlace, PutRecords;
      var curr, k := Find(key);
      if curr == null {
        Insert(key, slots, now);
      } else {
        PutKeepsWellFormed(curr.row.records, s, now, params.window);
        var row := PutSighting(curr.row, s, now, params.window);
        SetRow(curr, row, Bucket(key), k);
      }
    }

    lemma PutKeepsWellFormed(records: seq<Record>, s: Sighting, now: int, n: nat)
      requires WellFormed(records, n)
      ensures WellFormed(PutRecords(records, s, now, n), n)
    {
    }

    /* --------------------------------- eviction ------------------------------ */

    ghost function Dropped(all: seq<seq<Node>>, b: nat, k: nat): seq<seq<Node>>
      requires b < |all| && k < |all[b]|
    {
      all[b := all[b][..k] + all[b][k + 1..]]
    }

    lemma DropKeepsPlaced(all: seq<seq<Node>>, m: map<string, Entry>, b: nat, k: nat)
      requires Placed(all) && Keyed(all, m) && b < |all| && k < |all[b]|
      ensures Placed(Dropped(all, b, k)) && Keyed(Dropped(all, b, k), m - {all[b][k].key})
      ensures TotalLength(Dropped(all, b, k)) == TotalLength(all) - 1
    {
      var c, d := all[b], all[b][..k] + all[b][k + 1..];
      TotalLengthUpdate(all, b, d);
      InPlaceFacts(c, b);
      assert forall i | 0 <= i < |d| :: d[i] == c[if i < k then i else i + 1];
      forall key | key in m - {c[k].key}
        ensures HasKey(Dropped(all, b, k)[Bucket(key)], key)
      {
        assert HasKey(all[Bucket(key)], key);
        if Bucket(key) == b {
          var i :| 0 <= i < |c| && c[i].key == key;
          assert d[if i < k then i else i - 1].key == key;
        }
      }
    }

    lemma DropIsCarried(all: seq<seq<Node>>, m: map<string, Entry>, rows: map<Node, Row>, b: nat, k: nat)
      requires Carried(all, m, rows) && Placed(all) && b < |all| && k < |all[b]|
      ensures Carried(Dropped(all, b, k), m - {all[b][k].key}, rows)
    {
      var next, m' := Dropped(all, b, k), m - {all[b][k].key};
      InPlaceFacts(all[b], b);
      forall b': nat | b' < |all|
        ensures Carries(next[b'], m', rows)
      {
        InPlaceFacts(all[b'], b');
        assert Carries(all[b'], m, rows);
        if b' == b {
          assert forall i | 0 <= i < |next[b]| :: next[b][i] == all[b][if i < k then i else i + 1];
        }
      }
    }

    /** The links after the node at position `k` of `c` is taken out. */
    ghost function Bypassed(c: seq<Node>, k: nat, next: map<Node, Node?>): map<Node, Node?>
      requires k < |c| && c[k] in next
    {
      (if k == 0 then next else next[c[k - 1] := next[c[k]]])[c[k] := null]
    }

    lemma BypassedIs(c: seq<Node>, k: nat, next: map<Node, Node?>)
      requires k < |c| && next.Keys == nodes && c[k] in nodes && c[k].next == null
      requires k > 0 ==> c[k - 1] in nodes && c[k - 1].next == next[c[k]]
      requires forall o | o in nodes && o != c[k] && (k == 0 || o != c[k - 1]) :: o.next == next[o]
      ensures NextsOf(nodes) == Bypassed(c, k, next)
    {
    }

    /** The link out of the node at position `j` of `c`, once position `k` is dropped. */
    lemma LinkAfterDrop(head: Node?, c: seq<Node>, next: map<Node, Node?>, k: nat, j: nat)
      requires DistinctKeys(c) && k < |c| && j < |c| && j != k && Chain(head, c, next)
      ensures c[j] in Bypassed(c, k, next)
      ensures Bypassed(c, k, next)[c[j]] == if j + 1 == k then Following(c, k) else Following(c, j)
    {
      assert next[c[k]] == Following(c, k) && next[c[j]] == Following(c, j);
      assert c[j].key != c[k].key && (k > 0 && j != k - 1 ==> c[j].key != c[k - 1].key);
    }

    lemma DropFromChain(head: Node?, c: seq<Node>, next: map<Node, Node?>, k: nat)
      requires DistinctKeys(c) && k < |c| && Chain(head, c, next)
      ensures Chain(if k == 0 then next[c[k]] else head, c[..k] + c[k + 1..], Bypassed(c, k, next))
    {
      var d, next' := c[..k] + c[k + 1..], Bypassed(c, k, next);
      assert next[c[k]] == Following(c, k);
      hide DistinctKeys, Bypassed, Chain;
      assert forall i | 0 <= i < |d| :: d[i] == c[if i < k then i else i + 1];
      forall i: nat | i < |d|
        ensures d[i] in next' && next'[d[i]] == Following(d, i)
      {
        LinkAfterDrop(head, c, next, k, if i < k then i else i + 1);
      }
      ChainOf(if k == 0 then next[c[k]] else head, d, next', head, c, next);
    }

    lemma ChainOf(head: Node?, d: seq<Node>, next: map<Node, Node?>, was: Node?, c: seq<Node>, before: map<Node, Node?>)
      requires forall i: nat | i < |d| :: d[i] in next && next[d[i]] == Following(d, i)
      requires c != [] && Chain(was, c, before)
      requires head == (if d == [] then null else d[0]) || (d != [] && d[0] == c[0] && head == was)
      ensures Chain(head, d, next)
    {
    }

    lemma DropIsLinked(heads: seq<Node?>, all: seq<seq<Node>>, next: map<Node, Node?>, b: nat, k: nat)
      requires Placed(all) && b < |all| && k < |all[b]| && Linked(heads, all, next) && all[b][k] in next
      ensures Linked(if k == 0 then heads[b := next[all[b][k]]] else heads, Dropped(all, b, k), Bypassed(all[b], k, next))
    {
      var c, next' := all[b], Bypassed(all[b], k, next);
      DropFromChain(heads[b], c, next, k);
      InPlaceFacts(c, b);
      hide DistinctKeys;
      forall b': nat | b' < |all| && b' != b
        ensures Chain(heads[b'], all[b'], next')
      {
        assert Chain(heads[b'], all[b'], next);
        InPlaceFacts(all[b'], b');
        assert forall i | 0 <= i < |all[b']| :: all[b'][i] !in c;
      }
    }

    /** The relinking that takes `curr` out of its bucket. */
    method Relink(b: nat, prev: Node?, curr: Node)
      requires b < buckets.Length && prev != curr
      modifies buckets, `count, curr`next, (if prev == null then {} else {prev})`next
      ensures buckets[..] == if prev == null then old(buckets[..])[b := old(curr.next)] else old(buckets[..])
      ensures prev != null ==> prev.next == old(curr.next)
      ensures curr.next == null && count == old(count) - 1
    {
      if prev == null {
        buckets[b] := curr.next;
      } else {
        prev.next := curr.next;
      }
      curr.next := null;
      count := count - 1;
    }

    /** The eviction of the node at position `k` of bucket `b`. */
    method Evict(b: nat, prev: Node?, curr: Node, ghost k: nat)
      requires Valid() && b < |chains| && k < |chains[b]| && chains[b][k] == curr
      requires prev == if k == 0 then null else chains[b][k - 1]
      modifies this, buckets, nodes
      ensures Valid() && nodes == old(nodes) && count == old(count) - 1
      ensures chains == Dropped(old(chains), b, k)
      ensures model == old(model) - {curr.key}
    {
      hide *;
      Parts();
      ghost var heads, all, next, rows := buckets[..], chains, NextsOf(nodes), RowsOf(nodes);
      Neighbours(b, k);
      NextsFacts(nodes);
      DropIsLinked(heads, all, next, b, k);
      Relink(b, prev, curr);
      DropKeepsPlaced(all, model, b, k);
      DropIsCarried(all, model, rows, b, k);
      BypassedIs(all[b], k, next);
      RowsWithout(model, curr.key);
      chains, model := Dropped(all, b, k), model - {curr.key};
      Whole();
    }

    lemma RowsWithout(m: map<string, Entry>, key: string)
      requires Rows(m)
      ensures Rows(m - {key})
    {
    }

    lemma Neighbours(b: nat, k: nat)
      requires Valid() && b < |chains| && k < |chains[b]|
      ensures chains[b][k] in nodes && buckets.Length == |chains|
      ensures k > 0 ==> chains[b][k - 1] in nodes && chains[b][k - 1] != chains[b][k]
      ensures chains[b][k].next == Following(chains[b], k)
    {
      assert InPlace(chains[b], b) && Chain(buckets[b], chains[b], NextsOf(nodes));
    }

    /* ---------------------------------- the sweep ---------------------------- */

    /** The map once the keys of `done` are visited: their expired entries are gone and their
        other rows are summarized. */
    ghost function Swept(m: map<string, Entry>, done: set<string>, now: int): map<string, Entry>
      requires Rows(m)
    {
      map key | key in m && !(key in done && IsExpired(m[key].row, now)) ::
        if key in done then Entry(Summary.SummarizeRow(m[key].row, params, now), m[key].slots) else m[key]
    }

    /** `released` are the slots of exactly the expired entries among `done`, each once:
        `gone` names their keys. */
    ghost predicate Accounts(m: map<string, Entry>, done: set<string>, now: int, released: seq<Slots>, gone: seq<string>) {
      && |released| == |gone|
      && (forall i, j | 0 <= i < j < |gone| :: gone[i] != gone[j])
      && (forall i | 0 <= i < |gone| ::
            gone[i] in m && gone[i] in done && IsExpired(m[gone[i]].row, now) && released[i] == m[gone[i]].slots)
      && (forall key | key in m && key in done && IsExpired(m[key].row, now) :: key in gone)
    }

    ghost function Keys(c: seq<Node>): set<string> { set n | n in c :: n.key }

    ghost function InBucket(m: map<string, Entry>, b: nat): set<string>
      requires buckets.Length > 0
    {
      set key | key in m && Bucket(key) == b
    }

    lemma SummaryIsWellFormed(row: Row, now: int)
      requires WellFormed(row.records, params.window)
      ensures Summary.Averageable(row.records, params)
      ensures WellFormed(Summary.SummarizeRow(row, params, now).records, params.window)
    {
    }

    lemma SweptKeepsRows(m: map<string, Entry>, done: set<string>, now: int)
      requires Rows(m)
      ensures Rows(Swept(m, done, now))
    {
      forall key | key in Swept(m, done, now)
        ensures WellFormed(Swept(m, done, now)[key].row.records, params.window)
      {
        SummaryIsWellFormed(m[key].row, now);
      }
    }

    lemma SweptNext(m: map<string, Entry>, done: set<string>, now: int, key: string)
      requires Rows(m) && key in m && key !in done
      ensures key in Swept(m, done, now) && Swept(m, done, now)[key] == m[key]
      ensures Swept(m, done + {key}, now) ==
                if IsExpired(m[key].row, now) then Swept(m, done, now) - {key}
                else Swept(m, done, now)[key := Entry(Summary.SummarizeRow(m[key].row, params, now), m[key].slots)]
    {
      hide WellFormed, Summary.SummarizeRow;
    }

    lemma AccountsNext(m: map<string, Entry>, done: set<string>, now: int, released: seq<Slots>, gone: seq<string>, key: string)
      requires Accounts(m, done, now, released, gone) && key in m && key !in done
      ensures if IsExpired(m[key].row, now) then Accounts(m, done + {key}, now, released + [m[key].slots], gone + [key])
              else Accounts(m, done + {key}, now, released, gone)
    {
    }

    lemma SweptNone(m: map<string, Entry>, now: int)
      requires Rows(m)
      ensures Swept(m, Keys([]), now) == m && Accounts(m, Keys([]), now, [], [])
    {
    }

    lemma InBucketFacts(m: map<string, Entry>, b: nat, key: string)
      requires buckets.Length > 0
      ensures key in InBucket(m, b) <==> key in m && Bucket(key) == b
    {
    }

    lemma DroppedSuffix(all: seq<seq<Node>>, b: nat, k: nat)
      requires b < |all| && k < |all[b]|
      ensures |Dropped(all, b, k)| == |all| && k <= |Dropped(all, b, k)[b]|
      ensures Dropped(all, b, k)[b][k..] == all[b][k..][1..] && Dropped(all, b, k)[b][..k] == all[b][..k]
      ensures At(Dropped(all, b, k)[b], k) == Following(all[b], k)
    {
    }

    lemma SweptTwice(m: map<string, Entry>, d: set<string>, e: set<string>, now: int)
      requires Rows(m) && d !! e
      ensures Rows(Swept(m, d, now)) && Swept(Swept(m, d, now), e, now) == Swept(m, d + e, now)
    {
      SweptKeepsRows(m, d, now);
    }

    lemma ChainKeys(b: nat)
      requires Valid() && b < |chains|
      ensures DistinctKeys(chains[b]) && Keys(chains[b]) == InBucket(model, b)
    {
      var c := chains[b];
      assert InPlace(c, b) && Carries(c, model, RowsOf(nodes));
      forall key | key in InBucket(model, b)
        ensures key in Keys(c)
      {
        assert HasKey(c, key);
        var k :| 0 <= k < |c| && c[k].key == key;
        assert c[k] in c;
      }
    }

    lemma KeysNext(c: seq<Node>, j: nat)
      requires DistinctKeys(c) && j < |c|
      ensures c[j].key !in Keys(c[..j]) && c[j].key in Keys(c) && Keys(c[..j + 1]) == Keys(c[..j]) + {c[j].key}
    {
      assert c[..j + 1] == c[..j] + [c[j]];
      assert c[j] in c;
    }

    lemma FirstOf(b: nat)
      requires Valid() && b < |chains|
      ensures b < buckets.Length && buckets[b] == At(chains[b], 0)
    {
      assert Chain(buckets[b], chains[b], NextsOf(nodes));
    }

    /** One chain of the sweep: the traversal keeps the node before the current one, and an
        evicted node leaves that one in place. */
    method SweepBucket(b: nat, now: int) returns (released: seq<Slots>, ghost gone: seq<string>)
      requires Valid() && b < |chains|
      modifies this, buckets, nodes
      ensures Valid() && nodes == old(nodes) && |chains| == old(|chains|)
      ensures old(Rows(model)) && model == Swept(old(model), InBucket(old(model), b), now)
      ensures Accounts(old(model), InBucket(old(model), b), now, released, gone)
      ensures count == old(count) - |released|
    {
      hide *;
      Parts();
      FirstOf(b);
      ChainKeys(b);
      ghost var c, m := chains[b], model;
      ghost var j, k := 0, 0;
      var curr: Node?, prev: Node? := buckets[b], null;
      released, gone := [], [];
      SweptNone(m, now);
      assert c[..0] == [] && c[0..] == c;
      while curr != null
        invariant Valid() && nodes == old(nodes) && |chains| == old(|chains|)
        invariant k <= j <= |c| && k <= |chains[b]| && chains[b][k..] == c[j..]
        invariant curr == At(chains[b], k) && prev == if k == 0 then null else chains[b][k - 1]
        invariant model == Swept(m, Keys(c[..j]), now)
        invariant Accounts(m, Keys(c[..j]), now, released, gone)
        invariant count == old(count) - |released|
        decreases |c| - j
      {
        AtFacts(chains[b], k);
        assert curr == chains[b][k..][0] == c[j];
        KeysNext(c, j);
        KeyIsModelled(b, k);
        InBucketFacts(m, b, curr.key);
        SweptNext(m, Keys(c[..j]), now, curr.key);
        AccountsNext(m, Keys(c[..j]), now, released, gone, curr.key);
        Neighbours(b, k);
        if IsExpired(curr.row, now) {
          var next := curr.next;
          released, gone := released + [curr.slots], gone + [curr.key];
          ghost var all := chains;
          Evict(b, prev, curr, k);
          DroppedSuffix(all, b, k);
          curr := next;
        } else {
          SummaryIsWellFormed(curr.row, now);
          var row := Summary.Summarize(curr.row, params, now);
          SetRow(curr, row, b, k);
          prev, curr, k := curr, curr.next, k + 1;
        }
        j := j + 1;
      }
      AtFacts(chains[b], k);
      assert c[..j] == c;
    }

    /** `hashtable_summarize_location_information`: every chain is swept, the rows of the objects
        that are still seen are summarized, and the slots of the others are handed back. */
    method Sweep(now: int) returns (released: seq<Slots>, ghost gone: seq<string>)
      requires Valid()
      modifies this, buckets, nodes
      ensures Valid() && nodes == old(nodes)
      ensures model.Keys == set key | key in old(model) && old(model)[key].row.lastReported >= now - 300
      ensures forall key :: key in gone <==> key in old(model) && old(model)[key].row.lastReported < now - 300
      ensures forall key | key in model :: Summary.Averageable(old(model)[key].row.records, params)
      ensures forall key | key in model ::
                model[key] == Entry(Summary.SummarizeRow(old(model)[key].row, params, now), old(model)[key].slots)
      ensures count == old(count) - |released|
      ensures Accounts(old(model), old(model).Keys, now, released, gone)
    {
      hide *;
      Parts();
      ghost var m := model;
      var b := 0;
      released, gone := [], [];
      SweptNone(m, now);
      BelowNone(m);
      while b < buckets.Length
        invariant Valid() && nodes == old(nodes) && b <= |chains| == buckets.Length
        invariant model == Swept(m, Below(m, b), now)
        invariant Accounts(m, Below(m, b), now, released, gone)
        invariant count == old(count) - |released|
      {
        BelowNext(m, b, now);
        var more, moreGone := SweepBucket(b, now);
        AccountsJoin(m, b, now, released, gone, more, moreGone);
        released, gone := released + more, gone + moreGone;
        b := b + 1;
      }
      BelowAll(m, now);
      AccountsMeans(m, now, released, gone);
    }

    lemma AccountsMeans(m: map<string, Entry>, now: int, released: seq<Slots>, gone: seq<string>)
      requires Accounts(m, m.Keys, now, released, gone)
      ensures forall key :: key in gone <==> key in m && m[key].row.lastReported < now - 300
    {
    }

    /** An object that is put for the first time at time `t` is still in the table after a sweep
        at time `u` if and only if that is not more than 300 seconds later. */
    lemma NewObjectStaysIff(m: map<string, Entry>, key: string, slots: Slots, t: int, u: int)
      requires Rows(m) && key !in m
      ensures var n := m[key := Entry(EmptyRow(t, beacons), slots)];
              Rows(n) && (key in Swept(n, n.Keys, u) <==> u <= t + 300)
    {
      EmptyRowIsWellFormed(t, beacons, params.window);
      hide Summary.SummarizeRow;
    }

    /** An object that a sweep at time `t` leaves in the table is still there after the next one,
        at time `u`, if and only if that is not more than 300 seconds after `t`, for an object
        with a beacon that carries weight at `t`, or after its row was last reported, for another. */
    lemma SeenObjectStaysIff(m: map<string, Entry>, key: string, t: int, u: int)
      requires Rows(m) && key in m && m[key].row.lastReported >= t - 300
      ensures Summary.Averageable(m[key].row.records, params) && Rows(Swept(m, m.Keys, t))
      ensures var row := m[key].row;
              var n := Swept(m, m.Keys, t);
              key in n && (key in Swept(n, n.Keys, u) <==>
                u <= (if Summary.HasWeight(row.records, params, t) then t else row.lastReported) + 300)
    {
      var row := m[key].row;
      SummaryIsWellFormed(row, t);
      SweptKeepsRows(m, m.Keys, t);
      var i := Summary.SummaryIndex(row, params, t);
      Summary.CurrentIff(row, params, t, i);
      Summary.ClosestBeaconHysteresis(row, params, t, i);
      hide WellFormed, Summary.SummarizeRow, Summary.HasWeight, Summary.Averageable, Summary.SummaryIndex, Summary.Candidate,
           Summary.ClosestBeacon;
    }

    ghost function Below(m: map<string, Entry>, b: nat): set<string>
      requires buckets.Length > 0
    {
      set key | key in m && Bucket(key) < b
    }

    lemma BelowNone(m: map<string, Entry>)
      requires buckets.Length > 0
      ensures Below(m, 0) == Keys([]) == {}
    {
    }

    lemma BelowNext(m: map<string, Entry>, b: nat, now: int)
      requires buckets.Length > 0 && Rows(m)
      ensures Rows(Swept(m, Below(m, b), now))
      ensures Swept(Swept(m, Below(m, b), now), InBucket(Swept(m, Below(m, b), now), b), now) == Swept(m, Below(m, b + 1), now)
    {
      var e := InBucket(m, b);
      assert InBucket(Swept(m, Below(m, b), now), b) == e;
      assert Below(m, b) + e == Below(m, b + 1);
      SweptTwice(m, Below(m, b), e, now);
    }

    lemma AccountsJoin(m: map<string, Entry>, b: nat, now: int, released: seq<Slots>, gone: seq<string>,
                       more: seq<Slots>, moreGone: seq<string>)
      requires buckets.Length > 0 && Rows(m)
      requires Accounts(m, Below(m, b), now, released, gone)
      requires var n := Swept(m, Below(m, b), now); Accounts(n, InBucket(n, b), now, more, moreGone)
      ensures Accounts(m, Below(m, b + 1), now, released + more, gone + moreGone)
    {
      hide WellFormed, Summary.SummarizeRow;
    }

    lemma BelowAll(m: map<string, Entry>, now: int)
      requires buckets.Length > 0 && Rows(m)
      ensures Below(m, buckets.Length) == m.Keys
      ensures var n := Swept(m, m.Keys, now);
              && (n.Keys == set key | key in m && m[key].row.lastReported >= now - 300)
              && forall key | key in n :: Summary.Averageable(m[key].row.records, params)
                   && n[key] == Entry(Summary.SummarizeRow(m[key].row, params, now), m[key].slots)
    {
      hide Summary.SummarizeRow;
    }

    /** `count` is the number of objects in the table. */
    lemma CountIsSize()
      requires Valid()
      ensures count == |model|
    {
      hide *;
      Parts();
      BelowNone(model);
      var b: nat := 0;
      assert chains[..0] == [];
      TotalLengthAppend([], []);
      while b < |chains|
        invariant b <= |chains| && |Below(model, b)| == TotalLength(chains[..b])
      {
        ChainKeys(b);
        BelowGrows(model, b);
        KeysSize(chains[b]);
        assert chains[..b + 1] == chains[..b] + [chains[b]];
        TotalLengthAppend(chains[..b], chains[b]);
        b := b + 1;
      }
      assert chains[..b] == chains;
      BelowAll(model, 0);
    }

    lemma BelowGrows(m: map<string, Entry>, b: nat)
      requires buckets.Length > 0
      ensures |Below(m, b + 1)| == |Below(m, b)| + |InBucket(m, b)|
    {
      assert Below(m, b + 1) == Below(m, b) + InBucket(m, b);
    }

    lemma {:induction false} KeysSize(c: seq<Node>)
      requires DistinctKeys(c)
      ensures |Keys(c)| == |c|
    {
      if c != [] {
        var last := |c| - 1;
        KeysNext(c, last);
        assert c[..last + 1] == c;
        KeysSize(c[..last]);
      }
    }
  }
}

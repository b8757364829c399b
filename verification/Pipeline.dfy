/**
  The life of a buffer node in src/Server.c: taken from the node pool for a received packet,
  routed to a buffer list, removed by the scheduler, handed to the thread pool, and passed on
  or freed by a worker's routine.

  The steps of the receiving thread, the scheduler and the workers are interleaved; the thread
  pool inside is the machine of ThreadPool and the node pool is the value of Mempool.  A
  routine ends by passing its node on, and that is one step with its return.  The scheduler
  may take any list's head and may drop any node as too old, so what is shown here does not
  depend on its scanning order.  `owner` is a history of where each node went.
 */
module Pipeline {
  import Mempool
  import T = ThreadPool
  import opened Wire

  /* The buffer lists, in the order of their initialization; a list's number also stands for
     its function. */
  const COMMAND: nat := 0
  const GEO_FENCE_RECEIVE: nat := 1
  const DATA_RECEIVE: nat := 2
  const NSI_SEND: nat := 3
  const NSI_RECEIVE: nat := 4
  const BHM_RECEIVE: nat := 5
  const BHM_SEND: nat := 6
  const LISTS: nat := 7

  /** A received datagram. */
  datatype Request = Request(address: string, port: int, text: string)

  /** `BufferNode`; `origin` is the number of the datagram it was taken for. */
  datatype Buffer = Buffer(direction: int, kind: int, content: string, address: string, port: int, origin: nat)

  /** A datagram that was sent. */
  datatype Reply = Reply(address: string, port: int, text: string, origin: nat)

  /** A datagram that the routine of list `fn` has dealt with; `answer` is what a join request
      was answered. */
  datatype Handling = Handling(fn: nat, origin: nat, answer: Option<bool>)

  datatype Place = InList(i: nat) | InHand | InInbox | InJob(t: nat) | InTransit | Leaked

  datatype State = State(
    mem: Mempool.Pool, nodes: map<int, Buffer>, lists: seq<seq<int>>,
    hand: Option<(nat, int)>,   // the scheduler's node and the list it was in
    inbox: Option<int>,         // the receiver's node
    transit: Option<int>,       // used inside a step only
    pool: T.State, leaked: set<int>, owner: map<int, Place>,
    received: seq<Request>, handled: seq<Handling>, sent: seq<Reply>,
    dropped: seq<nat>)          // the datagrams whose node the scheduler dropped

  /** A pushed job whose routine has not returned. */
  predicate Open(pool: T.State, t: nat) {
    t < |pool.pushed| && pool.pushed[t] !in pool.done
  }

  /* ------------------------ every node has one owner ----------------------- */

  /** The node is where its owner says. */
  ghost predicate Really(s: State, n: int, p: Place) {
    match p
    case InList(i) => i < |s.lists| && n in s.lists[i]
    case InHand => s.hand.Some? && s.hand.value.1 == n
    case InInbox => s.inbox == Some(n)
    case InJob(t) => Open(s.pool, t) && s.pool.pushed[t].arg == n
    case InTransit => s.transit == Some(n)
    case Leaked => n in s.leaked
  }

  ghost predicate OwnedBy(s: State, n: int, p: Place) { n in s.owner && s.owner[n] == p }

  ghost predicate ListsOwned(s: State) {
    && |s.lists| == LISTS
    && (forall i: nat, k | i < |s.lists| && 0 <= k < |s.lists[i]| :: OwnedBy(s, s.lists[i][k], InList(i)))
    && (forall i: nat, k, l | i < |s.lists| && 0 <= k < l < |s.lists[i]| :: s.lists[i][k] != s.lists[i][l])
  }

  ghost predicate Owned(s: State) {
    && s.owner.Keys == s.mem.out
    && (forall n | n in s.owner :: Really(s, n, s.owner[n]))
    && ListsOwned(s)
    && (s.hand.Some? ==> OwnedBy(s, s.hand.value.1, InHand))
    && (s.inbox.Some? ==> OwnedBy(s, s.inbox.value, InInbox))
    && (s.transit.Some? ==> OwnedBy(s, s.transit.value, InTransit))
    && (forall t: nat | Open(s.pool, t) :: OwnedBy(s, s.pool.pushed[t].arg, InJob(t)))
    && (forall n | n in s.leaked :: OwnedBy(s, n, Leaked))
  }

  /* Half of a step: a node is picked up, or put down. */

  function PickList(s: State, i: nat): State
    requires i < |s.lists| && s.lists[i] != []
  {
    var n := s.lists[i][0];
    s.(lists := s.lists[i := s.lists[i][1..]], transit := Some(n), owner := s.owner[n := InTransit])
  }

  function PickHand(s: State): State
    requires s.hand.Some?
  {
    s.(hand := None, transit := Some(s.hand.value.1), owner := s.owner[s.hand.value.1 := InTransit])
  }

  function PickInbox(s: State): State
    requires s.inbox.Some?
  {
    s.(inbox := None, transit := s.inbox, owner := s.owner[s.inbox.value := InTransit])
  }

  /** The job's routine ends, and with it the worker's hold of the node. */
  function PickJob(s: State, w: nat): State
    requires T.Enabled(s.pool, T.Return(w))
  {
    var n := s.pool.pcs[w].job.arg;
    s.(pool := T.Apply(s.pool, T.Return(w)), transit := Some(n), owner := s.owner[n := InTransit])
  }

  /** `mp_alloc`, which succeeded. */
  function PickFree(s: State, malloc: int): State
    requires s.mem.slots > 0
  {
    var (mem, n) := Mempool.AllocSpec(s.mem, malloc);
    s.(mem := mem, transit := Some(n), owner := s.owner[n := InTransit])
  }

  /** `insert_list_tail` */
  function PutList(s: State, i: nat): State
    requires s.transit.Some? && i < |s.lists|
  {
    var n := s.transit.value;
    s.(lists := s.lists[i := s.lists[i] + [n]], transit := None, owner := s.owner[n := InList(i)])
  }

  function PutHand(s: State, i: nat): State
    requires s.transit.Some?
  {
    s.(hand := Some((i, s.transit.value)), transit := None, owner := s.owner[s.transit.value := InHand])
  }

  function PutInbox(s: State): State
    requires s.transit.Some?
  {
    s.(inbox := s.transit, transit := None, owner := s.owner[s.transit.value := InInbox])
  }

  /** `thpool_add_work` */
  function PutJob(s: State, fn: nat): State
    requires s.transit.Some? && T.Enabled(s.pool, T.Push(fn, s.transit.value))
  {
    s.(pool := T.Apply(s.pool, T.Push(fn, s.transit.value)), transit := None,
       owner := s.owner[s.transit.value := InJob(|s.pool.pushed|)])
  }

  /** `mp_free`, which may refuse a base slot: then nobody owns the node any more. */
  function PutFree(s: State): State
    requires s.transit.Some? && s.mem.size > 1
  {
    var n := s.transit.value;
    var mem := Mempool.FreeSpec(s.mem, n);
    if Mempool.Accepts(s.mem, n) then s.(mem := mem, transit := None, owner := s.owner - {n})
    else s.(transit := None, leaked := s.leaked + {n}, owner := s.owner[n := Leaked])
  }

  lemma PickListOwned(s: State, i: nat)
    requires Owned(s) && s.transit == None && i < |s.lists| && s.lists[i] != []
    ensures Owned(PickList(s, i))
  {
    var n, t := s.lists[i][0], PickList(s, i);
    assert OwnedBy(s, n, InList(i));
    forall m | m in t.owner
      ensures Really(t, m, t.owner[m])
    {
      assert Really(s, m, s.owner[m]);
      if m != n && s.owner[m] == InList(i) {
        var k :| 0 <= k < |s.lists[i]| && s.lists[i][k] == m;
        assert t.lists[i][k - 1] == m;
      }
    }
    hide Really;
    forall j: nat, k | j < |t.lists| && 0 <= k < |t.lists[j]|
      ensures OwnedBy(t, t.lists[j][k], InList(j))
    {
      assert OwnedBy(s, s.lists[j][if j == i then k + 1 else k], InList(j));
    }
  }

  lemma PickHandOwned(s: State)
    requires Owned(s) && s.transit == None && s.hand.Some?
    ensures Owned(PickHand(s))
  {
  }

  lemma PickInboxOwned(s: State)
    requires Owned(s) && s.transit == None && s.inbox.Some?
    ensures Owned(PickInbox(s))
  {
  }

  lemma PutListOwned(s: State, i: nat)
    requires Owned(s) && s.transit.Some? && i < |s.lists|
    ensures Owned(PutList(s, i))
  {
    var n, t := s.transit.value, PutList(s, i);
    forall m | m in t.owner
      ensures Really(t, m, t.owner[m])
    {
      assert Really(s, m, s.owner[m]);
    }
    hide Really;
    forall j: nat, k | j < |t.lists| && 0 <= k < |t.lists[j]|
      ensures OwnedBy(t, t.lists[j][k], InList(j))
    {
      if k < |s.lists[j]| { assert OwnedBy(s, s.lists[j][k], InList(j)); }
    }
  }

  lemma PutHandOwned(s: State, i: nat)
    requires Owned(s) && s.transit.Some? && s.hand == None
    ensures Owned(PutHand(s, i))
  {
  }

  lemma PutInboxOwned(s: State)
    requires Owned(s) && s.transit.Some? && s.inbox == None
    ensures Owned(PutInbox(s))
  {
  }

  lemma AllocFacts(p: Mempool.Pool, malloc: int)
    requires p.Good() && (malloc != 0 ==> p.Fresh(malloc))
    ensures p.slots > 0 && p.size > 1
    ensures var (q, n) := Mempool.AllocSpec(p, malloc);
            q.Good() && (n != 0 ==> n !in p.out && q.out == p.out + {n})
    ensures p.chunks <= Mempool.AllocSpec(p, malloc).0.chunks
  {
    Mempool.AllocKeepsGood(p, malloc);
  }

  lemma FreeFacts(p: Mempool.Pool, n: int)
    requires p.Good() && n in p.out
    ensures p.size > 1 && Mempool.FreeSpec(p, n).Good() && Mempool.FreeSpec(p, n).chunks == p.chunks
    ensures Mempool.FreeSpec(p, n).out == if Mempool.Accepts(p, n) then p.out - {n} else p.out
    ensures !Mempool.Accepts(p, n) ==> n in p.chunks
  {
    Mempool.FreeKeepsGood(p, n, 0);
    if !Mempool.Accepts(p, n) { Mempool.RefusedSlotIsBase(p, n); }
    hide Mempool.Pool.Good;
  }

  lemma NewOwned(s: State, mem: Mempool.Pool, n: int)
    requires Owned(s) && s.transit == None && n !in s.mem.out && mem.out == s.mem.out + {n}
    ensures Owned(s.(mem := mem, transit := Some(n), owner := s.owner[n := InTransit]))
  {
    var t := s.(mem := mem, transit := Some(n), owner := s.owner[n := InTransit]);
    forall m | m in t.owner
      ensures Really(t, m, t.owner[m])
    {
      if m != n { assert Really(s, m, s.owner[m]); }
    }
    hide Really, Open;
  }

  lemma PickFreeOwned(s: State, malloc: int)
    requires Owned(s) && s.transit == None && s.mem.Good() && (malloc != 0 ==> s.mem.Fresh(malloc))
    requires s.mem.slots > 0 && Mempool.AllocSpec(s.mem, malloc).1 != 0
    ensures Owned(PickFree(s, malloc)) && PickFree(s, malloc).mem.Good()
    ensures s.mem.chunks <= PickFree(s, malloc).mem.chunks
  {
    hide Owned, Mempool.AllocSpec, Mempool.Pool.Good, Mempool.Pool.Fresh;
    AllocFacts(s.mem, malloc);
    var r := Mempool.AllocSpec(s.mem, malloc);
    NewOwned(s, r.0, r.1);
  }

  lemma PutFreeOwned(s: State)
    requires Owned(s) && s.transit.Some? && s.mem.Good() && s.mem.size > 1
    ensures Owned(PutFree(s)) && PutFree(s).mem.Good()
    ensures s.mem.chunks == PutFree(s).mem.chunks
    ensures PutFree(s).leaked == s.leaked || (PutFree(s).leaked == s.leaked + {s.transit.value} && s.transit.value in s.mem.chunks)
  {
    hide Mempool.Accepts, Mempool.FreeSpec, Mempool.Pool.Good;
    assert s.transit.value in s.mem.out;
    FreeFacts(s.mem, s.transit.value);
  }

  /* ------------------------------ jobs and nodes --------------------------- */

  lemma ReachableNext(s: T.State, step: T.Step)
    requires T.Reachable(s) && T.Enabled(s, step)
    ensures T.Reachable(T.Apply(s, step))
  {
    var n: nat, steps: seq<T.Step> :| T.Run(T.Initial(n), steps, s);
    var t := T.Apply(s, step);
    hide T.Apply, T.Enabled;
    assert [step][1..] == [];
    assert T.Run(t, [], t);
    assert T.Run(s, [step], t);
    T.RunsCompose(T.Initial(n), steps, s, [step], t);
    assert T.Run(T.Initial(n), steps + [step], t);
  }

  /** Finished jobs were pushed, under their tickets. */
  lemma DoneWasPushed(pool: T.State, job: T.Job)
    requires T.Reachable(pool) && job in pool.done
    ensures job.ticket < |pool.pulled| <= |pool.pushed| && pool.pushed[job.ticket] == job
  {
    T.PulledOnce(pool, job);
    T.ReachableInv(pool);
    assert job in multiset(pool.done);
    var k :| 0 <= k < |pool.pulled| && pool.pulled[k] == job;
    assert pool.pushed[k] == job;
  }

  lemma PushOpens(pool: T.State, fn: nat, arg: int)
    requires T.Reachable(pool) && T.Enabled(pool, T.Push(fn, arg))
    ensures var q := T.Apply(pool, T.Push(fn, arg));
            && q.pushed == pool.pushed + [T.Job(|pool.pushed|, fn, arg)]
            && forall t: nat :: Open(q, t) <==> Open(pool, t) || t == |pool.pushed|
  {
    var job := T.Job(|pool.pushed|, fn, arg);
    if job in pool.done { DoneWasPushed(pool, job); }
  }

  /** The job that a return finishes is open until then. */
  lemma ReturnCloses(pool: T.State, w: nat)
    requires T.Reachable(pool) && T.Enabled(pool, T.Return(w))
    ensures var job, q := pool.pcs[w].job, T.Apply(pool, T.Return(w));
            && Open(pool, job.ticket) && pool.pushed[job.ticket] == job
            && q.pushed == pool.pushed
            && forall t: nat :: Open(q, t) <==> Open(pool, t) && t != job.ticket
  {
    var job, q := pool.pcs[w].job, T.Apply(pool, T.Return(w));
    T.NoJobRunsTwice(pool);
    T.HeldContains(pool.pcs, w);
    T.PulledOnce(pool, job);
    T.ReachableInv(pool);
    var k :| 0 <= k < |pool.pulled| && pool.pulled[k] == job;
    assert pool.pushed[k] == job && job.ticket == k;
    assert q.done == pool.done + [job] && q.pushed == pool.pushed;
    assert forall t | 0 <= t < |pool.pushed| :: pool.pushed[t].ticket == t;
  }

  lemma InternalKeepsOpen(pool: T.State, step: T.Step)
    requires T.Enabled(pool, step) && !step.Push? && !step.Return?
    ensures var q := T.Apply(pool, step); q.pushed == pool.pushed && q.done == pool.done
  {
    T.QueueFields(pool, step);
    T.DoneField(pool, step);
  }

  lemma PutJobOwned(s: State, fn: nat)
    requires Owned(s) && s.transit.Some? && T.Reachable(s.pool) && T.Enabled(s.pool, T.Push(fn, s.transit.value))
    ensures Owned(PutJob(s, fn))
  {
    var n := s.transit.value;
    PushOpens(s.pool, fn, n);
    hide Open, T.Apply, T.Enabled, T.Reachable;
    var t := PutJob(s, fn);
    assert OwnedBy(s, n, InTransit);
    forall m | m in t.owner
      ensures Really(t, m, t.owner[m])
    {
      OpenIsPushed(s.pool);
      assert Really(s, m, s.owner[m]);
    }
    forall k: nat | Open(t.pool, k)
      ensures OwnedBy(t, t.pool.pushed[k].arg, InJob(k))
    {
      OpenIsPushed(s.pool);
      if Open(s.pool, k) { assert OwnedBy(s, s.pool.pushed[k].arg, InJob(k)); }
    }
    hide Really;
  }

  lemma OpenIsPushed(pool: T.State)
    ensures forall t: nat | Open(pool, t) :: t < |pool.pushed|
  {
  }

  lemma PickJobOwned(s: State, w: nat)
    requires Owned(s) && s.transit == None && T.Reachable(s.pool) && T.Enabled(s.pool, T.Return(w))
    ensures Owned(PickJob(s, w))
    ensures var job := s.pool.pcs[w].job; OwnedBy(s, job.arg, InJob(job.ticket)) && s.pool.pushed[job.ticket] == job
  {
    ReturnCloses(s.pool, w);
    var job := s.pool.pcs[w].job;
    hide Open, T.Apply, T.Enabled, T.Reachable;
    var t := PickJob(s, w);
    OpenIsPushed(s.pool);
    assert OwnedBy(s, job.arg, InJob(job.ticket));
    forall m | m in t.owner
      ensures Really(t, m, t.owner[m])
    {
      assert Really(s, m, s.owner[m]);
    }
    hide Really;
    forall k: nat | Open(t.pool, k)
      ensures OwnedBy(t, t.pool.pushed[k].arg, InJob(k))
    {
      assert OwnedBy(s, s.pool.pushed[k].arg, InJob(k));
    }
  }

  lemma InternalOwned(s: State, step: T.Step)
    requires Owned(s) && T.Enabled(s.pool, step) && !step.Push? && !step.Return?
    ensures Owned(s.(pool := T.Apply(s.pool, step)))
  {
    InternalKeepsOpen(s.pool, step);
    hide T.Apply, T.Enabled;
    var t := s.(pool := T.Apply(s.pool, step));
    assert forall k: nat :: Open(t.pool, k) <==> Open(s.pool, k);
    forall m | m in t.owner
      ensures Really(t, m, t.owner[m])
    {
      assert Really(s, m, s.owner[m]);
    }
    hide Really;
  }

  /* -------------------------------- the steps ------------------------------ */

  predicate IsJoin(r: Request) {
    var p := Unframe(r.text);
    p.Some? && p.value.direction == FROM_GATEWAY && p.value.kind == REQUEST_TO_JOIN
  }

  /** The node of a received datagram; one that is not well formed keeps no packet type. */
  function NodeOf(r: Request, origin: nat): Buffer {
    match Unframe(r.text)
    case None => Buffer(0, 0, "", r.address, r.port, origin)
    case Some(p) => Buffer(p.direction, p.kind, p.content, r.address, r.port, origin)
  }

  /** The list that `Server_process_wifi_receive` puts a node in, if any. */
  function RouteOf(b: Buffer): (r: Option<nat>)
    ensures r.Some? ==> r.value < LISTS
  {
    if b.direction == FROM_GATEWAY then
      if b.kind == REQUEST_TO_JOIN then Some(NSI_RECEIVE)
      else if b.kind == TIME_CRITICAL_TRACKED_OBJECT_DATA then Some(GEO_FENCE_RECEIVE)
      else if b.kind == TRACKED_OBJECT_DATA then Some(DATA_RECEIVE)
      else if b.kind == GATEWAY_HEALTH_REPORT || b.kind == BEACON_HEALTH_REPORT then Some(BHM_RECEIVE)
      else None
    else if b.direction == FROM_GUI && b.kind == IPC_COMMAND then Some(COMMAND)
    else None
  }

  /** JOIN_ACK is 0 and JOIN_DENY is 1. */
  function Status(ack: bool): int { if ack then 0 else 1 }

  /** What `Server_NSI_routine` makes of a node. */
  function ResponseOf(b: Buffer, ack: bool): Buffer {
    b.(direction := FROM_SERVER, kind := JOIN_RESPONSE, content := Print(Status(ack)) + [';'])
  }

  /** What `Server_process_wifi_send` sends. */
  function ReplyOf(b: Buffer): Reply {
    Reply(b.address, b.port, Frame(b.direction, b.kind, b.content), b.origin)
  }

  function NodeAt(s: State, n: int): Buffer {
    if n in s.nodes then s.nodes[n] else Buffer(0, 0, "", "", 0, 0)
  }

  datatype Step =
    | Receive(r: Request, malloc: int)
    | Route
    | Take(i: nat)
    | Discard
    | Submit
    | Finish(w: nat, ack: bool)
    | Internal(step: T.Step)

  predicate Ready(s: State) {
    |s.lists| == LISTS && s.mem.slots > 0 && s.mem.size > 1 && s.transit == None
  }

  predicate Enabled(s: State, step: Step) {
    Ready(s) &&
    match step
    case Receive(_, malloc) => s.inbox == None && (malloc != 0 ==> s.mem.Fresh(malloc))
    case Route => s.inbox.Some?
    case Take(i) => s.hand == None && s.pool.client == T.Idle && i < LISTS && s.lists[i] != []
    case Discard => s.hand.Some?
    case Submit => s.hand.Some? && T.Enabled(s.pool, T.Push(s.hand.value.0, s.hand.value.1))
    case Finish(w, _) => T.Enabled(s.pool, T.Return(w))
    case Internal(p) => T.Enabled(s.pool, p) && !p.Push? && !p.Return? && (p.Destroy? ==> s.hand == None)
  }

  /** Only the routine for join requests has an answer. */
  function AnswerOf(fn: nat, ack: bool): Option<bool> { if fn == NSI_RECEIVE then Some(ack) else None }

  /** The end of the routine of list `fn`, with the node in transit. */
  function Routine(s: State, fn: nat, ack: bool): State
    requires s.transit.Some? && s.mem.size > 1 && |s.lists| == LISTS
  {
    var n := s.transit.value;
    var b := NodeAt(s, n);
    var handled := s.handled + [Handling(fn, b.origin, AnswerOf(fn, ack))];
    if fn == NSI_RECEIVE then PutList(s.(nodes := s.nodes[n := ResponseOf(b, ack)], handled := handled), NSI_SEND)
    else if fn == NSI_SEND || fn == BHM_SEND then PutFree(s.(sent := s.sent + [ReplyOf(b)]))
    else PutFree(s.(handled := handled))
  }

  function Apply(s: State, step: Step): State
    requires Enabled(s, step)
  {
    match step
    case Receive(r, malloc) =>
      var n := Mempool.AllocSpec(s.mem, malloc).1;
      if n == 0 then s
      else PutInbox(PickFree(s, malloc)).(received := s.received + [r], nodes := s.nodes[n := NodeOf(r, |s.received|)])
    case Route =>
      var u := PickInbox(s);
      (match RouteOf(NodeAt(s, s.inbox.value)) case None => PutFree(u) case Some(i) => PutList(u, i))
    case Take(i) => PutHand(PickList(s, i), i)
    case Discard => PutFree(PickHand(s).(dropped := s.dropped + [NodeAt(s, s.hand.value.1).origin]))
    case Submit => PutJob(PickHand(s), s.hand.value.0)
    case Finish(w, ack) => Routine(PickJob(s, w), s.pool.pcs[w].job.fn, ack)
    case Internal(p) => s.(pool := T.Apply(s.pool, p))
  }

  ghost predicate Run(s: State, steps: seq<Step>, t: State)
    decreases |steps|
  {
    if steps == [] then s == t
    else Enabled(s, steps[0]) && Run(Apply(s, steps[0]), steps[1..], t)
  }

  function Initial(workers: nat, mem: Mempool.Pool): State {
    State(mem, map[], [[], [], [], [], [], [], []], None, None, None, T.Initial(workers), {}, map[], [], [], [], [])
  }

  ghost predicate Reachable(s: State) {
    exists workers: nat, mem: Mempool.Pool, steps: seq<Step> ::
      mem.Good() && mem.out == {} && Run(Initial(workers, mem), steps, s)
  }

  /* ------------------------------ the invariant ---------------------------- */

  /** A refused slot is the base of a chunk. */
  ghost predicate LeakedAreBases(s: State) { forall n | n in s.leaked :: n in s.mem.chunks }

  ghost predicate Kept(s: State) {
    Ready(s) && s.mem.Good() && T.Reachable(s.pool) && Owned(s) && LeakedAreBases(s)
  }

  lemma ReceiveKept(s: State, r: Request, malloc: int)
    requires Kept(s) && Enabled(s, Receive(r, malloc))
    ensures Kept(Apply(s, Receive(r, malloc)))
  {
    if Mempool.AllocSpec(s.mem, malloc).1 != 0 {
      AllocFacts(s.mem, malloc);
      PickFreeOwned(s, malloc);
      var u := PickFree(s, malloc);
      hide Mempool.AllocSpec, Mempool.Pool.Good, Mempool.Pool.Fresh, T.Reachable;
      PutInboxOwned(u);
      OwnedIgnores(PutInbox(u), Apply(s, Receive(r, malloc)));
    }
  }

  /** Nodes and histories of messages do not matter to ownership. */
  lemma OwnedIgnores(s: State, t: State)
    requires Owned(s) && t == s.(nodes := t.nodes, received := t.received, handled := t.handled, sent := t.sent, dropped := t.dropped)
    ensures Owned(t)
  {
    forall n | n in t.owner
      ensures Really(t, n, t.owner[n])
    {
      assert Really(s, n, s.owner[n]);
    }
    hide Really;
    forall i: nat, k | i < |t.lists| && 0 <= k < |t.lists[i]|
      ensures OwnedBy(t, t.lists[i][k], InList(i))
    {
      assert OwnedBy(s, s.lists[i][k], InList(i));
    }
    forall k: nat | Open(t.pool, k)
      ensures OwnedBy(t, t.pool.pushed[k].arg, InJob(k))
    {
      assert OwnedBy(s, s.pool.pushed[k].arg, InJob(k));
    }
  }

  lemma PutFreeKept(s: State)
    requires Owned(s) && s.transit.Some? && s.mem.Good() && s.mem.size > 1 && s.mem.slots > 0 && |s.lists| == LISTS
    requires T.Reachable(s.pool) && LeakedAreBases(s)
    ensures Kept(PutFree(s))
  {
    PutFreeOwned(s);
    hide Owned, T.Reachable, Mempool.Pool.Good, Mempool.Accepts;
    assert Mempool.FreeSpec(s.mem, s.transit.value).size == s.mem.size;
  }

  lemma RoutineKept(s: State, fn: nat, ack: bool)
    requires Owned(s) && s.transit.Some? && s.mem.Good() && s.mem.size > 1 && s.mem.slots > 0 && |s.lists| == LISTS
    requires T.Reachable(s.pool) && LeakedAreBases(s)
    ensures Kept(Routine(s, fn, ack))
  {
    var n := s.transit.value;
    var b := NodeAt(s, n);
    if fn == NSI_RECEIVE {
      var u := s.(nodes := s.nodes[n := ResponseOf(b, ack)], handled := s.handled + [Handling(fn, b.origin, AnswerOf(fn, ack))]);
      OwnedIgnores(s, u);
      PutListOwned(u, NSI_SEND);
      hide Owned, T.Reachable, Mempool.Pool.Good;
    } else if fn == NSI_SEND || fn == BHM_SEND {
      var u := s.(sent := s.sent + [ReplyOf(b)]);
      OwnedIgnores(s, u);
      PutFreeKept(u);
    } else {
      var u := s.(handled := s.handled + [Handling(fn, b.origin, AnswerOf(fn, ack))]);
      OwnedIgnores(s, u);
      PutFreeKept(u);
    }
  }

  lemma FinishKept(s: State, w: nat, ack: bool)
    requires Kept(s) && Enabled(s, Finish(w, ack))
    ensures Kept(Apply(s, Finish(w, ack)))
  {
    PickJobOwned(s, w);
    ReachableNext(s.pool, T.Return(w));
    hide Owned, T.Reachable, Mempool.Pool.Good, T.Apply, T.Enabled, Routine;
    RoutineKept(PickJob(s, w), s.pool.pcs[w].job.fn, ack);
  }

  lemma SchedulerKept(s: State, step: Step)
    requires Kept(s) && Enabled(s, step) && (step.Route? || step.Take? || step.Discard? || step.Submit?)
    ensures Kept(Apply(s, step))
  {
    match step
    case Route =>
      PickInboxOwned(s);
      var u := PickInbox(s);
      hide Owned, T.Reachable, Mempool.Pool.Good, RouteOf, PutFree;
      var to := RouteOf(NodeAt(s, s.inbox.value));
      if to == None { PutFreeKept(u); } else { PutListOwned(u, to.value); }
    case Take(i) =>
      PickListOwned(s, i);
      hide Owned, T.Reachable, Mempool.Pool.Good;
      PutHandOwned(PickList(s, i), i);
    case Discard =>
      PickHandOwned(s);
      var u := PickHand(s).(dropped := s.dropped + [NodeAt(s, s.hand.value.1).origin]);
      OwnedIgnores(PickHand(s), u);
      hide Owned, T.Reachable, Mempool.Pool.Good, PutFree;
      PutFreeKept(u);
    case Submit =>
      PickHandOwned(s);
      ReachableNext(s.pool, T.Push(s.hand.value.0, s.hand.value.1));
      hide Owned, T.Reachable, Mempool.Pool.Good, T.Apply, T.Enabled;
      PutJobOwned(PickHand(s), s.hand.value.0);
  }

  lemma StepKept(s: State, step: Step)
    requires Kept(s) && Enabled(s, step)
    ensures Kept(Apply(s, step))
  {
    match step
    case Receive(r, malloc) => ReceiveKept(s, r, malloc);
    case Finish(w, ack) => FinishKept(s, w, ack);
    case Internal(p) =>
      InternalOwned(s, p);
      ReachableNext(s.pool, p);
      hide Owned, T.Reachable, Mempool.Pool.Good, T.Apply, T.Enabled;
    case _ => SchedulerKept(s, step);
  }

  /* --------------------------- what the nodes carry ------------------------ */

  /** In use: owned, and not leaked. */
  ghost predicate Live(s: State, n: int) { n in s.owner && s.owner[n] != Leaked }

  /** The stage of a node in the receiver's hand. */
  const INBOX: int := -2

  /** The list whose function the node is to be given to. */
  ghost function Stage(s: State, n: int): int {
    if n !in s.owner then -1 else
    match s.owner[n]
    case InList(i) => i
    case InHand => if s.hand.Some? then s.hand.value.0 else -1
    case InInbox => INBOX
    case InJob(t) => if t < |s.pool.pushed| then s.pool.pushed[t].fn else -1
    case _ => -1
  }

  /** The routine for join requests has answered the datagram so. */
  ghost predicate WasAnswered(handled: seq<Handling>, origin: nat, ack: bool) {
    Handling(NSI_RECEIVE, origin, Some(ack)) in handled
  }

  ghost predicate IsResponseTo(b: Buffer, r: Request, handled: seq<Handling>) {
    && IsJoin(r) && b.address == r.address && b.port == r.port
    && b.direction == FROM_SERVER && b.kind == JOIN_RESPONSE
    && exists ack :: b.content == Print(Status(ack)) + [';'] && WasAnswered(handled, b.origin, ack)
  }

  /** The packets that the routine of list `fn` is for. */
  predicate Suits(fn: int, b: Buffer) {
    || (fn == COMMAND && b.direction == FROM_GUI && b.kind == IPC_COMMAND)
    || (fn == GEO_FENCE_RECEIVE && b.direction == FROM_GATEWAY && b.kind == TIME_CRITICAL_TRACKED_OBJECT_DATA)
    || (fn == DATA_RECEIVE && b.direction == FROM_GATEWAY && b.kind == TRACKED_OBJECT_DATA)
    || (fn == NSI_RECEIVE && b.direction == FROM_GATEWAY && b.kind == REQUEST_TO_JOIN)
    || (fn == BHM_RECEIVE && b.direction == FROM_GATEWAY && (b.kind == GATEWAY_HEALTH_REPORT || b.kind == BEACON_HEALTH_REPORT))
  }

  /** What a node is at each stage, given the datagram it was taken for. */
  ghost predicate Proper(stage: int, b: Buffer, received: seq<Request>, handled: seq<Handling>) {
    && b.origin < |received| && stage < LISTS
    && (stage == INBOX ==> b == NodeOf(received[b.origin], b.origin))
    && (0 <= stage < LISTS && stage != NSI_SEND ==> Suits(stage, b) && b == NodeOf(received[b.origin], b.origin))
    && (stage == NSI_SEND ==> IsResponseTo(b, received[b.origin], handled))
  }

  ghost predicate NodesProper(s: State) {
    forall n | Live(s, n) :: n in s.nodes && Proper(Stage(s, n), s.nodes[n], s.received, s.handled)
  }

  /** No datagram has two nodes, or a node and a reply, or two replies. */
  ghost predicate OriginsApart(s: State) {
    && (forall n, m | Live(s, n) && Live(s, m) && n != m && n in s.nodes && m in s.nodes :: s.nodes[n].origin != s.nodes[m].origin)
    && (forall n, i | Live(s, n) && n in s.nodes && 0 <= i < |s.sent| :: s.sent[i].origin != s.nodes[n].origin)
    && (forall i, j | 0 <= i < j < |s.sent| :: s.sent[i].origin != s.sent[j].origin)
  }

  /** The reply is the join response to the datagram of its origin, sent where that came from. */
  ghost predicate Answers(a: Reply, received: seq<Request>, handled: seq<Handling>) {
    && a.origin < |received| && IsJoin(received[a.origin])
    && a.address == received[a.origin].address && a.port == received[a.origin].port
    && exists ack :: a.text == Frame(FROM_SERVER, JOIN_RESPONSE, Print(Status(ack)) + [';']) && WasAnswered(handled, a.origin, ack)
  }

  ghost predicate RepliesProper(s: State) {
    forall i | 0 <= i < |s.sent| :: Answers(s.sent[i], s.received, s.handled)
  }

  /** A datagram is dealt with at most once, by the routine for its type; what is still to be
      dealt with has not been. */
  ghost predicate HandledOnce(s: State) {
    && (forall i | 0 <= i < |s.handled| :: IsHandled(s.handled[i], s.received))
    && (forall i, j | 0 <= i < j < |s.handled| :: s.handled[i].origin != s.handled[j].origin)
    && (forall n, i | Live(s, n) && n in s.nodes && Stage(s, n) != NSI_SEND && 0 <= i < |s.handled| ::
          s.handled[i].origin != s.nodes[n].origin)
  }

  ghost predicate IsHandled(h: Handling, received: seq<Request>) {
    h.origin < |received| && Suits(h.fn, NodeOf(received[h.origin], h.origin))
  }

  /** A datagram that some routine is for. */
  ghost predicate Suited(r: Request, origin: nat) { exists fn: nat :: Suits(fn, NodeOf(r, origin)) }

  ghost predicate Pending(s: State, origin: nat) { exists n :: Live(s, n) && n in s.nodes && s.nodes[n].origin == origin }

  /** Replied to, if it is a join request, and dealt with, if it is another one. */
  ghost predicate Settled(s: State, origin: nat)
    requires origin < |s.received|
  {
    if IsJoin(s.received[origin]) then exists i :: 0 <= i < |s.sent| && s.sent[i].origin == origin
    else exists i :: 0 <= i < |s.handled| && s.handled[i].origin == origin
  }

  /** What became of a datagram that was received. */
  ghost predicate Accounted(s: State, origin: nat)
    requires origin < |s.received|
  {
    || !Suited(s.received[origin], origin)
    || Pending(s, origin)
    || Settled(s, origin)
    || origin in s.dropped
  }

  ghost predicate AllAccounted(s: State) { forall origin: nat | origin < |s.received| :: Accounted(s, origin) }

  ghost predicate Labelled(s: State) {
    NodesProper(s) && OriginsApart(s) && RepliesProper(s) && HandledOnce(s) && AllAccounted(s)
  }

  /** Nothing is forgotten of what has been dealt with. */
  ghost predicate HistoryGrows(s: State, t: State) {
    && s.received <= t.received && s.sent <= t.sent && s.handled <= t.handled && s.dropped <= t.dropped
  }

  lemma SettledLater(s: State, t: State, origin: nat)
    requires HistoryGrows(s, t) && origin < |s.received| && Settled(s, origin)
    ensures Settled(t, origin)
  {
    hide IsJoin;
    if IsJoin(s.received[origin]) {
      var i :| 0 <= i < |s.sent| && s.sent[i].origin == origin;
      assert t.sent[i] == s.sent[i];
    } else {
      var i :| 0 <= i < |s.handled| && s.handled[i].origin == origin;
      assert t.handled[i] == s.handled[i];
    }
  }

  /** All datagrams but that of node `n` stay accounted for. */
  lemma StayAccounted(s: State, t: State, n: int, origin: nat)
    requires AllAccounted(s) && OthersStay(s, t, n) && HistoryGrows(s, t)
    requires origin < |s.received| && (Live(s, n) && n in s.nodes ==> origin != s.nodes[n].origin)
    ensures Accounted(t, origin)
  {
    hide Live, Suited, Settled, Stage;
    assert Accounted(s, origin);
    if Settled(s, origin) {
      SettledLater(s, t, origin);
    } else if Pending(s, origin) {
      var m :| Live(s, m) && m in s.nodes && s.nodes[m].origin == origin;
      assert Live(t, m) && t.nodes[m].origin == origin;
    }
  }

  /** All datagrams stay accounted for if that of node `n` does. */
  lemma AllStayAccounted(s: State, t: State, n: int)
    requires AllAccounted(s) && OthersStay(s, t, n) && HistoryGrows(s, t)
    requires Live(s, n) && n in s.nodes && s.nodes[n].origin < |s.received| ==> Accounted(t, s.nodes[n].origin)
    requires forall origin: nat | |s.received| <= origin < |t.received| :: Accounted(t, origin)
    ensures AllAccounted(t)
  {
    forall origin: nat | origin < |t.received|
      ensures Accounted(t, origin)
    {
      if origin < |s.received| && (Live(s, n) && n in s.nodes ==> origin != s.nodes[n].origin) {
        StayAccounted(s, t, n, origin);
      }
    }
  }

  lemma LiveIsAccounted(s: State, n: int)
    requires Live(s, n) && n in s.nodes && s.nodes[n].origin < |s.received|
    ensures Accounted(s, s.nodes[n].origin)
  {
    hide Live, Suited, Settled;
  }

  /** All nodes but `n` keep their stage and contents. */
  ghost predicate OthersStay(s: State, t: State, n: int) {
    && (forall m | m != n :: Live(t, m) <==> Live(s, m))
    && (forall m | m != n && Live(t, m) :: Stage(t, m) == Stage(s, m))
    && (forall m | m != n && m in s.nodes :: m in t.nodes && t.nodes[m] == s.nodes[m])
  }

  /** One node moves on, or is given up for a reason. */
  lemma MoveLabels(s: State, t: State, n: int)
    requires Labelled(s) && OthersStay(s, t, n) && t.received == s.received && t.sent == s.sent && t.handled == s.handled
    requires s.dropped <= t.dropped && Live(s, n) && n in s.nodes
    requires Live(t, n) ==> n in t.nodes && t.nodes[n].origin == s.nodes[n].origin
    requires Live(t, n) ==> Proper(Stage(t, n), t.nodes[n], t.received, t.handled)
    requires Live(t, n) ==> Stage(s, n) != NSI_SEND || Stage(t, n) == NSI_SEND
    requires !Live(t, n) && s.nodes[n].origin < |t.received| ==> Accounted(t, s.nodes[n].origin)
    ensures Labelled(t)
  {
    hide Stage, Proper, Answers, Live, IsHandled, Accounted, HistoryGrows;
    if Live(t, n) && s.nodes[n].origin < |s.received| { LiveIsAccounted(t, n); }
    SameHistory(s, t);
    AllStayAccounted(s, t, n);
    hide AllAccounted;
  }

  lemma SameHistory(s: State, t: State)
    requires t.received == s.received && t.sent == s.sent && t.handled == s.handled && s.dropped <= t.dropped
    ensures HistoryGrows(s, t)
  {
  }

  lemma ProperOnceHandled(stage: int, b: Buffer, received: seq<Request>, handled: seq<Handling>, h: Handling)
    requires Proper(stage, b, received, handled)
    ensures Proper(stage, b, received, handled + [h])
  {
    hide IsJoin, NodeOf, Suits, Print;
    if stage == NSI_SEND {
      var ack :| b.content == Print(Status(ack)) + [';'] && WasAnswered(handled, b.origin, ack);
      assert WasAnswered(handled + [h], b.origin, ack);
    }
  }

  lemma AnsweredOnceHandled(a: Reply, received: seq<Request>, handled: seq<Handling>, h: Handling)
    requires Answers(a, received, handled)
    ensures Answers(a, received, handled + [h])
  {
    hide IsJoin, Print, Frame;
    var ack :| a.text == Frame(FROM_SERVER, JOIN_RESPONSE, Print(Status(ack)) + [';']) && WasAnswered(handled, a.origin, ack);
    assert WasAnswered(handled + [h], a.origin, ack);
  }

  /** What the nodes and replies are stays true as more is dealt with. */
  lemma HandlingKeepsLabels(s: State, t: State, n: int, h: Handling)
    requires NodesProper(s) && RepliesProper(s) && OthersStay(s, t, n) && t.received == s.received && t.sent == s.sent
    requires t.handled == s.handled + [h]
    requires Live(t, n) ==> n in t.nodes && Proper(Stage(t, n), t.nodes[n], t.received, t.handled)
    ensures NodesProper(t) && RepliesProper(t)
  {
    hide Stage, Proper, Answers, Live;
    forall m | Live(t, m)
      ensures m in t.nodes && Proper(Stage(t, m), t.nodes[m], t.received, t.handled)
    {
      if m != n { ProperOnceHandled(Stage(s, m), s.nodes[m], s.received, s.handled, h); }
    }
    forall i | 0 <= i < |t.sent|
      ensures Answers(t.sent[i], t.received, t.handled)
    {
      AnsweredOnceHandled(s.sent[i], s.received, s.handled, h);
    }
  }

  lemma HandlingKeepsOrigins(s: State, t: State, n: int, h: Handling)
    requires NodesProper(s) && OriginsApart(s) && HandledOnce(s) && OthersStay(s, t, n)
    requires t.received == s.received && t.sent == s.sent && t.handled == s.handled + [h]
    requires Live(s, n) && n in s.nodes && n in t.nodes && Stage(s, n) != NSI_SEND && h.origin == s.nodes[n].origin && IsHandled(h, s.received)
    requires Live(t, n) ==> Stage(t, n) == NSI_SEND && t.nodes[n].origin == h.origin
    ensures OriginsApart(t) && HandledOnce(t)
  {
    hide Stage, Proper, Live, IsHandled;
  }

  lemma HandledIsAccounted(t: State, n: int, h: Handling)
    requires h.origin < |t.received| && h in t.handled
    requires if Live(t, n) then n in t.nodes && t.nodes[n].origin == h.origin else !IsJoin(t.received[h.origin])
    ensures Accounted(t, h.origin)
  {
    hide IsJoin, Suited, Live;
    if Live(t, n) {
      LiveIsAccounted(t, n);
    } else {
      var i :| 0 <= i < |t.handled| && t.handled[i] == h;
      assert Settled(t, h.origin);
    }
  }

  /** One node is dealt with: it is given up, or goes on as a response. */
  lemma HandleLabels(s: State, t: State, n: int, h: Handling)
    requires Labelled(s) && OthersStay(s, t, n) && t.received == s.received && t.sent == s.sent && t.handled == s.handled + [h]
    requires t.dropped == s.dropped
    requires Live(s, n) && n in s.nodes && n in t.nodes && Stage(s, n) != NSI_SEND && h.origin == s.nodes[n].origin && IsHandled(h, s.received)
    requires Live(t, n) ==> Stage(t, n) == NSI_SEND && t.nodes[n].origin == h.origin && Proper(NSI_SEND, t.nodes[n], t.received, t.handled)
    requires !Live(t, n) && h.origin < |s.received| ==> !IsJoin(s.received[h.origin])
    ensures Labelled(t)
  {
    hide NodesProper, RepliesProper, OriginsApart, HandledOnce, AllAccounted, OthersStay, Stage, Proper, Live, Accounted, IsJoin;
    HandlingKeepsLabels(s, t, n, h);
    HandlingKeepsOrigins(s, t, n, h);
    HandledIsAccounted(t, n, h);
    AllStayAccounted(s, t, n);
  }

  lemma SendingKeepsLabels(s: State, t: State, n: int, a: Reply)
    requires NodesProper(s) && OriginsApart(s) && RepliesProper(s) && HandledOnce(s) && OthersStay(s, t, n)
    requires t.received == s.received && t.handled == s.handled && t.sent == s.sent + [a]
    requires Live(s, n) && !Live(t, n) && n in s.nodes && a.origin == s.nodes[n].origin && Answers(a, s.received, s.handled)
    ensures NodesProper(t) && OriginsApart(t) && RepliesProper(t) && HandledOnce(t)
  {
    hide Stage, Proper, Answers, Live;
  }

  lemma SentIsAccounted(t: State, a: Reply)
    requires a in t.sent && Answers(a, t.received, t.handled)
    ensures Accounted(t, a.origin)
  {
    hide IsJoin, Suited, Live;
    var i :| 0 <= i < |t.sent| && t.sent[i] == a;
    assert Settled(t, a.origin);
  }

  /** One node is sent and given up. */
  lemma SendLabels(s: State, t: State, n: int, a: Reply)
    requires Labelled(s) && OthersStay(s, t, n) && t.received == s.received && t.handled == s.handled && t.dropped == s.dropped
    requires t.sent == s.sent + [a]
    requires Live(s, n) && !Live(t, n) && n in s.nodes && a.origin == s.nodes[n].origin && Answers(a, s.received, s.handled)
    ensures Labelled(t)
  {
    hide NodesProper, RepliesProper, OriginsApart, HandledOnce, AllAccounted, OthersStay, Stage, Live, Accounted, Answers;
    SendingKeepsLabels(s, t, n, a);
    SentIsAccounted(t, a);
    AllStayAccounted(s, t, n);
  }

  lemma ProperLater(stage: int, b: Buffer, received: seq<Request>, handled: seq<Handling>, r: Request)
    requires Proper(stage, b, received, handled)
    ensures Proper(stage, b, received + [r], handled)
  {
  }

  /** One node is new. */
  lemma ReceiveLabels(s: State, t: State, n: int, r: Request)
    requires Labelled(s) && OthersStay(s, t, n) && t.received == s.received + [r] && t.sent == s.sent && t.handled == s.handled
    requires t.dropped == s.dropped && !Live(s, n) && Live(t, n)
    requires n in t.nodes && t.nodes[n].origin == |s.received| && Proper(Stage(t, n), t.nodes[n], t.received, t.handled)
    ensures Labelled(t)
  {
    hide AllAccounted;
    forall m | Live(t, m)
      ensures m in t.nodes && Proper(Stage(t, m), t.nodes[m], t.received, t.handled)
      ensures m != n ==> t.nodes[m].origin < |s.received|
    {
      if m != n { ProperLater(Stage(s, m), s.nodes[m], s.received, s.handled, r); }
    }
    forall i | 0 <= i < |t.sent|
      ensures Answers(t.sent[i], t.received, t.handled) && t.sent[i].origin < |s.received|
    {
      assert Answers(s.sent[i], s.received, s.handled);
    }
    forall i | 0 <= i < |t.handled|
      ensures IsHandled(t.handled[i], t.received) && t.handled[i].origin < |s.received|
    {
      assert IsHandled(s.handled[i], s.received);
    }
    hide Stage, Proper, Answers, Live, IsHandled, Accounted;
    LiveIsAccounted(t, n);
    AllStayAccounted(s, t, n);
  }

  lemma NewStays(s: State, t: State, n: int, b: Buffer)
    requires Owned(s) && n !in s.mem.out
    requires t.owner == s.owner[n := InInbox] && t.nodes == s.nodes[n := b] && t.hand == s.hand && t.pool == s.pool
    ensures OthersStay(s, t, n) && Stage(t, n) == INBOX && !Live(s, n) && Live(t, n)
  {
  }

  /** What receiving does to the fields that labels depend on. */
  lemma ReceiveFields(s: State, r: Request, malloc: int)
    requires Enabled(s, Receive(r, malloc)) && Mempool.AllocSpec(s.mem, malloc).1 != 0
    ensures var n, t := Mempool.AllocSpec(s.mem, malloc).1, Apply(s, Receive(r, malloc));
            && t.owner == s.owner[n := InInbox] && t.nodes == s.nodes[n := NodeOf(r, |s.received|)]
            && t.hand == s.hand && t.pool == s.pool && t.sent == s.sent && t.handled == s.handled && t.received == s.received + [r]
            && t.dropped == s.dropped
  {
    hide Mempool.AllocSpec, Mempool.Pool.Fresh, NodeOf;
    var n := Mempool.AllocSpec(s.mem, malloc).1;
    assert s.owner[n := InTransit][n := InInbox] == s.owner[n := InInbox];
  }

  lemma ReceiveLabelled(s: State, r: Request, malloc: int)
    requires Kept(s) && Labelled(s) && Enabled(s, Receive(r, malloc))
    ensures Labelled(Apply(s, Receive(r, malloc)))
  {
    if Mempool.AllocSpec(s.mem, malloc).1 != 0 {
      AllocFacts(s.mem, malloc);
      ReceiveFields(s, r, malloc);
      hide *;
      var n, t := Mempool.AllocSpec(s.mem, malloc).1, Apply(s, Receive(r, malloc));
      KeptIsOwned(s);
      NewStays(s, t, n, NodeOf(r, |s.received|));
      NewProper(s.received, s.handled, r);
      ReceiveLabels(s, t, n, r);
    }
  }

  lemma KeptIsOwned(s: State)
    requires Kept(s)
    ensures Owned(s)
  {
  }

  lemma NewProper(received: seq<Request>, handled: seq<Handling>, r: Request)
    ensures Proper(INBOX, NodeOf(r, |received|), received + [r], handled) && NodeOf(r, |received|).origin == |received|
  {
  }

  lemma FreedStays(s: State, u: State, n: int)
    requires OthersStay(s, u, n) && u.transit == Some(n) && u.mem.size > 1
    ensures !Live(PutFree(u), n) && OthersStay(s, PutFree(u), n)
  {
    hide Mempool.Accepts, Mempool.FreeSpec;
  }

  /** The node in transit is freed, or refused: no routine is for its datagram, or the scheduler
      drops it. */
  lemma FreedLabels(s: State, u: State, n: int)
    requires Labelled(s) && OthersStay(s, u, n) && u.transit == Some(n) && u.mem.size > 1 && Live(s, n) && n in s.nodes
    requires u.received == s.received && u.sent == s.sent && u.handled == s.handled && s.dropped <= u.dropped
    requires var o := s.nodes[n].origin; o < |s.received| && (o in u.dropped || !Suited(s.received[o], o))
    ensures Labelled(PutFree(u))
  {
    var t := PutFree(u);
    FreedStays(s, u, n);
    assert t.dropped == u.dropped && t.received == u.received;
    hide Labelled, OthersStay, Live, Stage, PutFree, Suited, Pending, Settled, Proper;
    MoveLabels(s, t, n);
  }

  lemma ListedStays(s: State, u: State, n: int, i: nat)
    requires OthersStay(s, u, n) && u.transit == Some(n) && i < |u.lists|
    ensures var t := PutList(u, i);
            && OthersStay(s, t, n) && Stage(t, n) == i && t.nodes == u.nodes
            && t.received == u.received && t.sent == u.sent && t.handled == u.handled && t.dropped == u.dropped
  {
  }

  /** The node in transit is put in a list. */
  lemma ListedLabels(s: State, u: State, n: int, i: nat)
    requires Labelled(s) && OthersStay(s, u, n) && u.transit == Some(n) && i < |u.lists|
    requires u.received == s.received && u.sent == s.sent && u.handled == s.handled && u.dropped == s.dropped
    requires Live(s, n) && n in s.nodes && n in u.nodes && u.nodes[n].origin == s.nodes[n].origin
    requires Proper(i, u.nodes[n], s.received, s.handled) && (Stage(s, n) != NSI_SEND || i == NSI_SEND)
    ensures Labelled(PutList(u, i))
  {
    var t := PutList(u, i);
    ListedStays(s, u, n, i);
    hide *;
    MoveLabels(s, t, n);
  }

  lemma PickInboxStays(s: State)
    requires Owned(s) && s.inbox.Some?
    ensures OthersStay(s, PickInbox(s), s.inbox.value) && Live(s, s.inbox.value) && Stage(s, s.inbox.value) == INBOX
  {
    assert OwnedBy(s, s.inbox.value, InInbox);
  }

  lemma LiveIsProper(s: State, n: int)
    requires Labelled(s) && Live(s, n)
    ensures n in s.nodes && Proper(Stage(s, n), s.nodes[n], s.received, s.handled)
  {
  }

  lemma RouteLabelled(s: State)
    requires Kept(s) && Labelled(s) && Enabled(s, Route)
    ensures Labelled(Apply(s, Route))
  {
    var n, u := s.inbox.value, PickInbox(s);
    PickInboxStays(s);
    hide Owned, Mempool.Pool.Good, T.Reachable, NodeOf, Labelled, RouteOf, Proper, OthersStay, Live, Stage, PutFree, PutList, Suited;
    LiveIsProper(s, n);
    var b := s.nodes[n];
    RouteIsSuited(b);
    InboxIsNew(b, s.received, s.handled);
    var to := RouteOf(b);
    if to == None {
      FreedLabels(s, u, n);
    } else {
      RoutedProper(b, s.received, s.handled);
      ListedLabels(s, u, n, to.value);
    }
  }

  lemma InboxIsNew(b: Buffer, received: seq<Request>, handled: seq<Handling>)
    requires Proper(INBOX, b, received, handled)
    ensures b.origin < |received| && (Suited(received[b.origin], b.origin) <==> exists fn: nat :: Suits(fn, b))
  {
  }

  /** The switch of `Server_process_wifi_receive` picks the list whose routine is for the packet,
      and there is at most one. */
  lemma RouteIsSuited(b: Buffer)
    ensures forall fn: nat :: Suits(fn, b) <==> RouteOf(b) == Some(fn)
  {
  }

  lemma RoutedProper(b: Buffer, received: seq<Request>, handled: seq<Handling>)
    requires Proper(INBOX, b, received, handled) && RouteOf(b).Some?
    ensures Proper(RouteOf(b).value, b, received, handled) && RouteOf(b).value != NSI_SEND && RouteOf(b).value != BHM_SEND
  {
  }

  lemma PickListStays(s: State, i: nat)
    requires Owned(s) && i < |s.lists| && s.lists[i] != []
    ensures OthersStay(s, PickList(s, i), s.lists[i][0]) && Live(s, s.lists[i][0]) && Stage(s, s.lists[i][0]) == i
  {
    assert OwnedBy(s, s.lists[i][0], InList(i));
  }

  lemma TakeLabelled(s: State, i: nat)
    requires Kept(s) && Labelled(s) && Enabled(s, Take(i))
    ensures Labelled(Apply(s, Take(i)))
  {
    var n, t := s.lists[i][0], Apply(s, Take(i));
    PickListStays(s, i);
    LiveIsProper(s, n);
    assert forall m | m in s.owner :: s.owner[m] != InHand by {
      assert forall m | m in s.owner :: Really(s, m, s.owner[m]);
    }
    hide Owned, Mempool.Pool.Good, T.Reachable, Labelled, Proper;
    TakenStays(s, t, i);
    hide OthersStay, Live, Stage, Enabled, Apply;
    MoveLabels(s, t, n);
  }

  lemma TakenStays(s: State, t: State, i: nat)
    requires i < |s.lists| && s.lists[i] != [] && t == PutHand(PickList(s, i), i)
    requires forall m | m in s.owner :: s.owner[m] != InHand
    ensures OthersStay(s, t, s.lists[i][0]) && Stage(t, s.lists[i][0]) == i
  {
  }

  lemma PickHandStays(s: State)
    requires Owned(s) && s.hand.Some?
    ensures OthersStay(s, PickHand(s), s.hand.value.1)
    ensures Live(s, s.hand.value.1) && Stage(s, s.hand.value.1) == s.hand.value.0
  {
    assert OwnedBy(s, s.hand.value.1, InHand);
    forall m | m != s.hand.value.1 && Live(s, m)
      ensures s.owner[m] != InHand
    {
      assert Really(s, m, s.owner[m]);
    }
  }

  lemma SubmittedStays(s: State)
    requires Owned(s) && T.Reachable(s.pool) && Enabled(s, Submit)
    ensures var fn, n, t := s.hand.value.0, s.hand.value.1, Apply(s, Submit);
            && OthersStay(s, t, n) && Stage(t, n) == fn && Live(t, n)
            && t.received == s.received && t.sent == s.sent && t.handled == s.handled && t.nodes == s.nodes && t.dropped == s.dropped
  {
    PickHandStays(s);
    PushOpens(s.pool, s.hand.value.0, s.hand.value.1);
    JobsBelow(s);
    hide Owned, T.Reachable, T.Apply, T.Enabled, Open;
  }

  lemma SubmitLabelled(s: State)
    requires Kept(s) && Labelled(s) && Enabled(s, Submit)
    ensures Labelled(Apply(s, Submit))
  {
    var n, t := s.hand.value.1, Apply(s, Submit);
    PickHandStays(s);
    LiveIsProper(s, n);
    SubmittedStays(s);
    hide *;
    MoveLabels(s, t, n);
  }

  lemma JobsBelow(s: State)
    requires Owned(s)
    ensures forall m | m in s.owner && s.owner[m].InJob? :: s.owner[m].t < |s.pool.pushed|
  {
    forall m | m in s.owner && s.owner[m].InJob?
      ensures s.owner[m].t < |s.pool.pushed|
    {
      assert Really(s, m, s.owner[m]);
    }
  }

  lemma DiscardLabelled(s: State)
    requires Kept(s) && Labelled(s) && Enabled(s, Discard)
    ensures Labelled(Apply(s, Discard))
  {
    var n := s.hand.value.1;
    PickHandStays(s);
    hide Owned, Mempool.Pool.Good, T.Reachable, Labelled, Live, Stage, PutFree, Suited;
    LiveIsProper(s, n);
    var u := PickHand(s).(dropped := s.dropped + [s.nodes[n].origin]);
    assert OthersStay(s, u, n);
    hide OthersStay;
    FreedLabels(s, u, n);
  }

  lemma PickJobStays(s: State, w: nat)
    requires Owned(s) && s.transit == None && T.Reachable(s.pool) && T.Enabled(s.pool, T.Return(w))
    ensures var job := s.pool.pcs[w].job;
            OthersStay(s, PickJob(s, w), job.arg) && Live(s, job.arg) && Stage(s, job.arg) == job.fn
  {
    PickJobOwned(s, w);
    ReturnCloses(s.pool, w);
    hide Owned, T.Reachable, T.Apply, T.Enabled;
  }

  lemma ReplyIsProper(b: Buffer, received: seq<Request>, handled: seq<Handling>)
    requires Proper(NSI_SEND, b, received, handled)
    ensures Answers(ReplyOf(b), received, handled) && ReplyOf(b).origin == b.origin
  {
    hide IsJoin, Print;
    var ack :| b.content == Print(Status(ack)) + [';'] && WasAnswered(handled, b.origin, ack);
    assert ReplyOf(b).text == Frame(FROM_SERVER, JOIN_RESPONSE, Print(Status(ack)) + [';']);
  }

  lemma SuitedIsJoin(b: Buffer, received: seq<Request>, handled: seq<Handling>)
    requires Proper(NSI_RECEIVE, b, received, handled)
    ensures IsJoin(received[b.origin]) && b.address == received[b.origin].address && b.port == received[b.origin].port
  {
  }

  lemma ResponseIsProper(b: Buffer, ack: bool, received: seq<Request>, handled: seq<Handling>)
    requires Proper(NSI_RECEIVE, b, received, handled)
    ensures ResponseOf(b, ack).origin == b.origin
    ensures Proper(NSI_SEND, ResponseOf(b, ack), received, handled + [Handling(NSI_RECEIVE, b.origin, Some(ack))])
  {
    SuitedIsJoin(b, received, handled);
    hide IsJoin, Print, Unframe;
    assert ResponseOf(b, ack).content == Print(Status(ack)) + [';'];
    assert WasAnswered(handled + [Handling(NSI_RECEIVE, b.origin, Some(ack))], b.origin, ack);
  }

  lemma SentLabels(s: State, u: State, n: int)
    requires Labelled(s) && OthersStay(s, u, n) && u.transit == Some(n) && u.mem.size > 1
    requires u.received == s.received && u.sent == s.sent && u.handled == s.handled && u.nodes == s.nodes && u.dropped == s.dropped
    requires Live(s, n) && Stage(s, n) == NSI_SEND
    ensures Labelled(PutFree(u.(sent := s.sent + [ReplyOf(NodeAt(u, n))])))
  {
    LiveIsProper(s, n);
    ReplyIsProper(s.nodes[n], s.received, s.handled);
    FreedStays(s, u, n);
    var t := PutFree(u.(sent := s.sent + [ReplyOf(NodeAt(u, n))]));
    assert t == PutFree(u).(sent := s.sent + [ReplyOf(s.nodes[n])]);
    HistoryStays(s, PutFree(u), t, n);
    hide *;
    assert n in s.nodes;
    SendLabels(s, t, n, ReplyOf(s.nodes[n]));
  }

  lemma HistoryStays(s: State, u: State, t: State, n: int)
    requires OthersStay(s, u, n) && !Live(u, n) && t == u.(sent := t.sent, handled := t.handled)
    ensures OthersStay(s, t, n) && !Live(t, n)
  {
  }

  lemma ProperIsHandled(stage: int, b: Buffer, received: seq<Request>, handled: seq<Handling>, answer: Option<bool>)
    requires Proper(stage, b, received, handled) && 0 <= stage < LISTS && stage != NSI_SEND
    ensures IsHandled(Handling(stage, b.origin, answer), received) && stage != BHM_SEND
    ensures IsJoin(received[b.origin]) <==> stage == NSI_RECEIVE
  {
  }

  lemma RespondedLabels(s: State, u: State, n: int, ack: bool)
    requires Labelled(s) && OthersStay(s, u, n) && u.transit == Some(n) && |u.lists| == LISTS
    requires u.received == s.received && u.sent == s.sent && u.handled == s.handled && u.nodes == s.nodes && u.dropped == s.dropped
    requires Live(s, n) && Stage(s, n) == NSI_RECEIVE && n in s.nodes
    ensures var b := s.nodes[n];
            var h := Handling(NSI_RECEIVE, b.origin, Some(ack));
            Labelled(PutList(u.(nodes := u.nodes[n := ResponseOf(b, ack)], handled := u.handled + [h]), NSI_SEND))
  {
    LiveIsProper(s, n);
    var b := s.nodes[n];
    var h := Handling(NSI_RECEIVE, b.origin, Some(ack));
    ResponseIsProper(b, ack, s.received, s.handled);
    ProperIsHandled(NSI_RECEIVE, b, s.received, s.handled, Some(ack));
    hide Labelled, Proper, ResponseOf, IsHandled, IsJoin;
    var t := PutList(u.(nodes := u.nodes[n := ResponseOf(b, ack)], handled := u.handled + [h]), NSI_SEND);
    assert OthersStay(s, t, n) && Stage(t, n) == NSI_SEND && Live(t, n);
    hide OthersStay, Stage, Live;
    HandleLabels(s, t, n, h);
  }

  lemma DealtWithLabels(s: State, u: State, n: int, fn: nat)
    requires Labelled(s) && OthersStay(s, u, n) && u.transit == Some(n) && u.mem.size > 1
    requires u.received == s.received && u.sent == s.sent && u.handled == s.handled && u.nodes == s.nodes && u.dropped == s.dropped
    requires Live(s, n) && Stage(s, n) == fn && fn < LISTS && fn != NSI_SEND && fn != NSI_RECEIVE && n in s.nodes
    ensures Labelled(PutFree(u.(handled := u.handled + [Handling(fn, s.nodes[n].origin, None)])))
  {
    LiveIsProper(s, n);
    var h := Handling(fn, s.nodes[n].origin, None);
    ProperIsHandled(fn, s.nodes[n], s.received, s.handled, None);
    FreedStays(s, u, n);
    var t := PutFree(u.(handled := u.handled + [h]));
    assert t == PutFree(u).(handled := s.handled + [h]);
    HistoryStays(s, PutFree(u), t, n);
    hide *;
    assert n in s.nodes && n in t.nodes;
    HandleLabels(s, t, n, h);
  }

  lemma RoutineLabelled(s: State, u: State, n: int, fn: nat, ack: bool)
    requires Labelled(s) && OthersStay(s, u, n) && u.transit == Some(n) && u.mem.size > 1 && |u.lists| == LISTS
    requires u.received == s.received && u.sent == s.sent && u.handled == s.handled && u.nodes == s.nodes && u.dropped == s.dropped
    requires Live(s, n) && Stage(s, n) == fn
    ensures Labelled(Routine(u, fn, ack))
  {
    LiveIsProper(s, n);
    assert fn < LISTS && fn != BHM_SEND;
    hide Labelled, OthersStay, Live, Stage, PutFree, PutList, Proper, ReplyOf, ResponseOf;
    if fn == NSI_RECEIVE {
      RespondedLabels(s, u, n, ack);
    } else if fn == NSI_SEND {
      SentLabels(s, u, n);
    } else {
      DealtWithLabels(s, u, n, fn);
    }
  }

  lemma FinishFields(s: State, w: nat, ack: bool)
    requires Kept(s) && Enabled(s, Finish(w, ack))
    ensures var job, u := s.pool.pcs[w].job, PickJob(s, w);
            && OthersStay(s, u, job.arg) && Live(s, job.arg) && Stage(s, job.arg) == job.fn
            && u.transit == Some(job.arg) && u.mem.size > 1 && |u.lists| == LISTS
            && u.received == s.received && u.sent == s.sent && u.handled == s.handled && u.nodes == s.nodes && u.dropped == s.dropped
            && Apply(s, Finish(w, ack)) == Routine(u, job.fn, ack)
  {
    PickJobStays(s, w);
    hide Routine, T.Apply, T.Reachable, Owned, OthersStay, Live, Stage, Mempool.Pool.Good;
  }

  lemma FinishLabelled(s: State, w: nat, ack: bool)
    requires Kept(s) && Labelled(s) && Enabled(s, Finish(w, ack))
    ensures Labelled(Apply(s, Finish(w, ack)))
  {
    hide Kept, Labelled, Routine, T.Apply, OthersStay, Live, Stage;
    FinishFields(s, w, ack);
    RoutineLabelled(s, PickJob(s, w), s.pool.pcs[w].job.arg, s.pool.pcs[w].job.fn, ack);
  }

  lemma InternalLabelled(s: State, p: T.Step)
    requires Kept(s) && Labelled(s) && Enabled(s, Internal(p))
    ensures Labelled(Apply(s, Internal(p)))
  {
    var t := Apply(s, Internal(p));
    InternalKeepsOpen(s.pool, p);
    hide Owned, Mempool.Pool.Good, T.Reachable, T.Apply, T.Enabled, Labelled;
    assert forall m :: Stage(t, m) == Stage(s, m) && Live(t, m) == Live(s, m);
    hide Stage, Live;
    NothingMoved(s, t);
  }

  lemma NothingMoved(s: State, t: State)
    requires Labelled(s) && forall m :: Stage(t, m) == Stage(s, m) && Live(t, m) == Live(s, m)
    requires t.nodes == s.nodes && t.received == s.received && t.sent == s.sent && t.handled == s.handled && t.dropped == s.dropped
    ensures Labelled(t)
  {
    hide Stage, Live, Proper, Answers, Suited, IsJoin;
    forall origin: nat | origin < |t.received|
      ensures Accounted(t, origin)
    {
      assert Accounted(s, origin);
      if Pending(s, origin) {
        var m :| Live(s, m) && m in s.nodes && s.nodes[m].origin == origin;
        assert Live(t, m) && m in t.nodes;
      } else if Settled(s, origin) {
        SameHistory(s, t);
        SettledLater(s, t, origin);
      }
    }
    hide Accounted;
  }

  ghost predicate Inv(s: State) { Kept(s) && Labelled(s) }

  lemma StepKeepsInv(s: State, step: Step)
    requires Inv(s) && Enabled(s, step)
    ensures Inv(Apply(s, step))
  {
    StepKept(s, step);
    hide Kept, Labelled, Apply, Enabled;
    match step
    case Receive(r, malloc) => ReceiveLabelled(s, r, malloc);
    case Route => RouteLabelled(s);
    case Take(i) => TakeLabelled(s, i);
    case Discard => DiscardLabelled(s);
    case Submit => SubmitLabelled(s);
    case Finish(w, ack) => FinishLabelled(s, w, ack);
    case Internal(p) => InternalLabelled(s, p);
  }

  lemma InitialInv(workers: nat, mem: Mempool.Pool)
    requires mem.Good() && mem.out == {}
    ensures Inv(Initial(workers, mem))
  {
    assert T.Run(T.Initial(workers), [], T.Initial(workers));
    Mempool.HeadIsPositive(mem);
    hide Mempool.Pool.Good, T.Run;
  }

  lemma {:induction false} RunKeepsInv(s: State, steps: seq<Step>, t: State)
    requires Run(s, steps, t) && Inv(s)
    ensures Inv(t)
    decreases |steps|
  {
    if steps != [] {
      StepKeepsInv(s, steps[0]);
      hide Inv, Enabled, Apply;
      RunKeepsInv(Apply(s, steps[0]), steps[1..], t);
    }
  }

  lemma ReachableInv(s: State)
    requires Reachable(s)
    ensures Inv(s)
  {
    var workers: nat, mem: Mempool.Pool, steps: seq<Step> :|
      mem.Good() && mem.out == {} && Run(Initial(workers, mem), steps, s);
    hide Inv, Run, Mempool.Pool.Good;
    InitialInv(workers, mem);
    RunKeepsInv(Initial(workers, mem), steps, s);
  }

  /* -------------------------------- the results ---------------------------- */

  /** A definite place of a node. */
  datatype Spot =
    | Listed(i: nat, k: nat) | WithScheduler | WithReceiver
    | Queued(k: nat) | WithWorker(w: nat) | Cleared(k: nat) | Refused

  ghost predicate IsAt(s: State, n: int, p: Spot) {
    match p
    case Listed(i, k) => i < |s.lists| && k < |s.lists[i]| && s.lists[i][k] == n
    case WithScheduler => s.hand.Some? && s.hand.value.1 == n
    case WithReceiver => s.inbox == Some(n)
    case Queued(k) => k < |s.pool.queue| && s.pool.queue[k].arg == n
    case WithWorker(w) => w < |s.pool.pcs| && T.Holds(s.pool.pcs[w]) && s.pool.pcs[w].job.arg == n
    case Cleared(k) => k < |s.pool.cleared| && s.pool.cleared[k].arg == n
    case Refused => n in s.leaked
  }

  /** The job at a place inside the thread pool. */
  ghost predicate IsJobAt(pool: T.State, t: nat, p: Spot) {
    match p
    case Queued(k) => k < |pool.queue| && t == |pool.pulled| + |pool.cleared| + k
    case Cleared(k) => k < |pool.cleared| && t == |pool.pulled| + k
    case WithWorker(w) => w < |pool.pcs| && T.Holds(pool.pcs[w]) && t == pool.pcs[w].job.ticket
    case _ => false
  }

  lemma {:induction false} HeldByWorker(pcs: seq<T.Pc>, job: T.Job) returns (w: nat)
    requires T.Held(pcs)[job] >= 1
    ensures w < |pcs| && T.Holds(pcs[w]) && pcs[w].job == job
  {
    if T.Holds(pcs[0]) && pcs[0].job == job {
      w := 0;
    } else {
      var v := HeldByWorker(pcs[1..], job);
      w := v + 1;
    }
  }

  /** Where the job of ticket `t` is. */
  lemma OpenJobHasSpot(pool: T.State, t: nat) returns (p: Spot)
    requires T.Reachable(pool) && Open(pool, t)
    ensures IsJobAt(pool, t, p)
  {
    T.ReachableInv(pool);
    if t < |pool.pulled| {
      var job := pool.pushed[t];
      assert job == pool.pulled[t];
      T.PulledOnce(pool, job);
      assert multiset(pool.done)[job] == 0;
      var w := HeldByWorker(pool.pcs, job);
      p := WithWorker(w);
    } else if t < |pool.pulled| + |pool.cleared| {
      p := Cleared(t - |pool.pulled|);
    } else {
      p := Queued(t - |pool.pulled| - |pool.cleared|);
    }
  }

  lemma WorkersJob(pool: T.State, w: nat)
    requires T.Reachable(pool) && w < |pool.pcs| && T.Holds(pool.pcs[w])
    ensures var job := pool.pcs[w].job;
            job.ticket < |pool.pulled| && Open(pool, job.ticket) && pool.pushed[job.ticket] == job
  {
    var job := pool.pcs[w].job;
    T.HeldContains(pool.pcs, w);
    T.PulledOnce(pool, job);
    assert multiset(pool.done)[job] == 0;
    T.ReachableInv(pool);
    var k :| 0 <= k < |pool.pulled| && pool.pulled[k] == job;
    assert pool.pushed[k] == job;
  }

  lemma SpotIsOpen(pool: T.State, t: nat, p: Spot)
    requires T.Reachable(pool) && IsJobAt(pool, t, p)
    ensures Open(pool, t)
    ensures p.Queued? ==> pool.pushed[t] == pool.queue[p.k]
    ensures p.Cleared? ==> pool.pushed[t] == pool.cleared[p.k]
    ensures p.WithWorker? ==> pool.pushed[t] == pool.pcs[p.w].job && t < |pool.pulled|
  {
    T.ReachableInv(pool);
    if p.WithWorker? {
      WorkersJob(pool, p.w);
    } else if pool.pushed[t] in pool.done {
      DoneWasPushed(pool, pool.pushed[t]);
    }
  }

  lemma JobSpotIsUnique(pool: T.State, t: nat, p: Spot, q: Spot)
    requires T.Reachable(pool) && IsJobAt(pool, t, p) && IsJobAt(pool, t, q)
    ensures p == q
  {
    SpotIsOpen(pool, t, p);
    SpotIsOpen(pool, t, q);
    if p.WithWorker? && q.WithWorker? && p.w != q.w {
      T.PulledOnce(pool, pool.pushed[t]);
      var a, b := if p.w < q.w then p.w else q.w, if p.w < q.w then q.w else p.w;
      T.HeldTwice(pool.pcs, a, b);
    }
  }

  /** The owner that goes with a spot. */
  ghost function PlaceOf(s: State, p: Spot): Place {
    match p
    case Listed(i, _) => InList(i)
    case WithScheduler => InHand
    case WithReceiver => InInbox
    case Queued(k) => InJob(|s.pool.pulled| + |s.pool.cleared| + k)
    case Cleared(k) => InJob(|s.pool.pulled| + k)
    case WithWorker(w) => if w < |s.pool.pcs| && T.Holds(s.pool.pcs[w]) then InJob(s.pool.pcs[w].job.ticket) else InTransit
    case Refused => Leaked
  }

  lemma SpotIsOwner(s: State, n: int, p: Spot)
    requires Kept(s) && IsAt(s, n, p)
    ensures OwnedBy(s, n, PlaceOf(s, p))
  {
    if p.Queued? || p.Cleared? || p.WithWorker? {
      var t := PlaceOf(s, p).t;
      SpotIsOpen(s.pool, t, p);
      hide T.Reachable, Mempool.Pool.Good;
    } else {
      hide T.Reachable, Mempool.Pool.Good;
    }
  }

  lemma OwnerIsSpot(s: State, n: int) returns (p: Spot)
    requires Kept(s) && n in s.owner
    ensures IsAt(s, n, p)
  {
    assert Really(s, n, s.owner[n]);
    match s.owner[n]
    case InList(i) =>
      var k: nat :| k < |s.lists[i]| && s.lists[i][k] == n;
      p := Listed(i, k);
    case InHand => p := WithScheduler;
    case InInbox => p := WithReceiver;
    case InJob(t) =>
      p := OpenJobHasSpot(s.pool, t);
      SpotIsOpen(s.pool, t, p);
    case Leaked => p := Refused;
  }

  /** In every reachable state each node that is not free is in exactly one place: one position
      of one list, one hand, one queued job, one worker, or, if the pool would not take it
      back, nowhere else. */
  lemma EachNodeInOnePlace(s: State, n: int)
    requires Reachable(s)
    ensures n in s.mem.out <==> exists p :: IsAt(s, n, p)
    ensures forall p, q | IsAt(s, n, p) && IsAt(s, n, q) :: p == q
  {
    ReachableInv(s);
    assert Kept(s) && s.owner.Keys == s.mem.out;
    if n in s.owner {
      var p := OwnerIsSpot(s, n);
    }
    forall p, q | IsAt(s, n, p) && IsAt(s, n, q)
      ensures p == q
    {
      SpotIsOwner(s, n, p);
      SpotIsOwner(s, n, q);
      SameOwner(s, n, p, q);
    }
    forall p | IsAt(s, n, p)
      ensures n in s.owner
    {
      SpotIsOwner(s, n, p);
    }
  }

  lemma SameOwner(s: State, n: int, p: Spot, q: Spot)
    requires Kept(s) && IsAt(s, n, p) && IsAt(s, n, q) && PlaceOf(s, p) == PlaceOf(s, q)
    ensures p == q
  {
    if PlaceOf(s, p).InJob? {
      JobSpotIsUnique(s.pool, PlaceOf(s, p).t, p, q);
    } else if p.Listed? {
      assert ListsOwned(s);
      hide Kept, Owned;
    }
  }

  /** What is not in a place is in the free list, and there once. */
  lemma OtherwiseFree(s: State, n: int)
    requires Reachable(s) && s.mem.IsSlot(n)
    ensures (exists p :: IsAt(s, n, p)) <==> n !in s.mem.free
    ensures forall i, j | 0 <= i < j < |s.mem.free| :: s.mem.free[i] != s.mem.free[j]
  {
    ReachableInv(s);
    EachNodeInOnePlace(s, n);
  }

  lemma LeakFacts(s: State)
    requires Kept(s)
    ensures s.leaked <= Elements(s.mem.chunks) && s.mem.Good()
  {
    hide Owned, T.Reachable, Mempool.Pool.Good;
    forall n | n in s.leaked
      ensures n in Elements(s.mem.chunks)
    {
      assert n in s.mem.chunks;
    }
  }

  /** The pool never refuses more than one node a chunk. */
  lemma LeakIsBounded(s: State)
    requires Reachable(s)
    ensures |s.leaked| <= Mempool.MAX_EXP_TIME
  {
    ReachableInv(s);
    hide Kept, Labelled, Mempool.Pool.Good, Reachable, Elements;
    LeakFacts(s);
    Mempool.GoodCounts(s.mem);
    ElementsSize(s.mem.chunks);
    SubsetSize(s.leaked, Elements(s.mem.chunks));
  }

  ghost function Elements(c: seq<int>): set<int> { set x | x in c }

  lemma {:induction false} ElementsSize(c: seq<int>)
    ensures |Elements(c)| <= |c|
  {
    if c != [] {
      ElementsSize(c[1..]);
      assert Elements(c) == Elements(c[1..]) + {c[0]};
    }
  }

  lemma {:induction false} SubsetSize(a: set<int>, b: set<int>)
    requires a <= b
    ensures |a| <= |b|
  {
    assert b == a + (b - a);
  }

  /** The text is the join response that says what the routine answered. */
  ghost predicate SaysAnswer(text: string, answer: Option<bool>) {
    || (answer == Some(true) && text == "2;2;2.2;0;")
    || (answer == Some(false) && text == "2;2;2.2;1;")
  }

  /** The routine for join requests has dealt with the reply's request and answered it so. */
  ghost predicate RepliesTo(a: Reply, h: Handling) {
    h.fn == NSI_RECEIVE && h.origin == a.origin && SaysAnswer(a.text, h.answer)
  }

  /** The reply is for a join request, goes to the address and port that it came from, and says
      what the routine has answered. */
  ghost predicate IsJoinResponse(a: Reply, received: seq<Request>, handled: seq<Handling>) {
    && a.origin < |received| && IsJoin(received[a.origin])
    && a.address == received[a.origin].address && a.port == received[a.origin].port
    && exists h :: h in handled && RepliesTo(a, h)
  }

  /** Everything that is sent is a join response to a received join request, and no request is
      answered twice. */
  lemma JoinResponses(s: State)
    requires Reachable(s)
    ensures forall i | 0 <= i < |s.sent| :: IsJoinResponse(s.sent[i], s.received, s.handled)
    ensures forall i, j | 0 <= i < j < |s.sent| :: s.sent[i].origin != s.sent[j].origin
  {
    ReachableInv(s);
    RepliesApart(s);
    hide *;
    forall i | 0 <= i < |s.sent|
      ensures IsJoinResponse(s.sent[i], s.received, s.handled)
    {
      AnswerMeans(s.sent[i], s.received, s.handled);
    }
  }

  lemma RepliesApart(s: State)
    requires Inv(s)
    ensures forall i | 0 <= i < |s.sent| :: Answers(s.sent[i], s.received, s.handled)
    ensures forall i, j | 0 <= i < j < |s.sent| :: s.sent[i].origin != s.sent[j].origin
  {
    hide Answers;
  }

  lemma AnswerMeans(a: Reply, received: seq<Request>, handled: seq<Handling>)
    requires Answers(a, received, handled)
    ensures IsJoinResponse(a, received, handled)
  {
    ResponseTexts();
    hide IsJoin, Print, Frame;
    var ack :| a.text == Frame(FROM_SERVER, JOIN_RESPONSE, Print(Status(ack)) + [';']) && WasAnswered(handled, a.origin, ack);
    assert RepliesTo(a, Handling(NSI_RECEIVE, a.origin, Some(ack)));
  }

  lemma ResponseTexts()
    ensures Frame(FROM_SERVER, JOIN_RESPONSE, Print(0) + [';']) == "2;2;2.2;0;"
    ensures Frame(FROM_SERVER, JOIN_RESPONSE, Print(1) + [';']) == "2;2;2.2;1;"
  {
    assert Print(2) == "2" && Print(0) == "0" && Print(1) == "1";
  }

  /** Every received datagram is dealt with at most once, and only by the routine of the list
      for its type; datagrams of other types, or that are not well formed, by none. */
  lemma EachPacketHandledOnce(s: State)
    requires Reachable(s)
    ensures forall i | 0 <= i < |s.handled| ::
              var h := s.handled[i];
              h.origin < |s.received| && Suits(h.fn, NodeOf(s.received[h.origin], h.origin))
    ensures forall i, j | 0 <= i < j < |s.handled| :: s.handled[i].origin != s.handled[j].origin
  {
    ReachableInv(s);
    forall i | 0 <= i < |s.handled|
      ensures var h := s.handled[i];
              h.origin < |s.received| && Suits(h.fn, NodeOf(s.received[h.origin], h.origin))
    {
      assert IsHandled(s.handled[i], s.received);
    }
  }

  /* ------------------------------ nothing is lost -------------------------- */

  /** A node of the datagram is in one of the places of `IsAt`, and was not refused. */
  ghost predicate IsUnderWay(s: State, origin: nat) {
    exists n, p :: IsAt(s, n, p) && p != Refused && n in s.nodes && s.nodes[n].origin == origin
  }

  lemma PendingIsUnderWay(s: State, origin: nat)
    requires Kept(s) && Pending(s, origin)
    ensures IsUnderWay(s, origin)
  {
    var n :| Live(s, n) && n in s.nodes && s.nodes[n].origin == origin;
    hide Kept;
    var p := OwnerIsSpot(s, n);
    SpotIsOwner(s, n, p);
  }

  /** Every received datagram whose type some routine is for is on its way in one place, or has
      been dealt with, or the scheduler has dropped it.  A join request has been dealt with when
      its response is sent, any other datagram when its routine has run. */
  lemma NothingIsLost(s: State, origin: nat, fn: nat)
    requires Reachable(s) && origin < |s.received| && Suits(fn, NodeOf(s.received[origin], origin))
    ensures || IsUnderWay(s, origin)
            || origin in s.dropped
            || (if fn == NSI_RECEIVE then exists i :: 0 <= i < |s.sent| && s.sent[i].origin == origin
                else exists i :: 0 <= i < |s.handled| && s.handled[i].fn == fn && s.handled[i].origin == origin)
  {
    ReachableInv(s);
    EachPacketHandledOnce(s);
    assert Accounted(s, origin) && Suited(s.received[origin], origin);
    RouteIsSuited(NodeOf(s.received[origin], origin));
    JoinIsForNsi(s.received[origin], origin, fn);
    hide Kept, IsJoin, Suited, Suits, NodeOf;
    if Pending(s, origin) {
      PendingIsUnderWay(s, origin);
    } else if Settled(s, origin) && fn != NSI_RECEIVE {
      var i :| 0 <= i < |s.handled| && s.handled[i].origin == origin;
      assert Suits(s.handled[i].fn, NodeOf(s.received[origin], origin));
    }
  }

  lemma JoinIsForNsi(r: Request, origin: nat, fn: nat)
    requires Suits(fn, NodeOf(r, origin))
    ensures IsJoin(r) <==> fn == NSI_RECEIVE
  {
  }

  /** The node is back on the free list, or the pool has refused it. */
  ghost predicate GivenBack(s: State, t: State, n: int) {
    && s.mem.size > 1 && t.mem == Mempool.FreeSpec(s.mem, n)
    && (t.mem.out == s.mem.out - {n} || (t.mem == s.mem && t.leaked == s.leaked + {n}))
  }

  lemma PutFreeGivesBack(s: State)
    requires s.transit.Some? && s.mem.size > 1 && s.mem.Good() && s.transit.value in s.mem.out
    ensures GivenBack(s, PutFree(s), s.transit.value) && PutFree(s).lists == s.lists && PutFree(s).inbox == s.inbox
  {
    FreeFacts(s.mem, s.transit.value);
    hide Mempool.Pool.Good;
  }

  /** What the receiver does with its node: it becomes the last one of the list whose routine is
      for its packet, and is given back if there is none; every other list stays. */
  lemma RoutedIff(s: State)
    requires Inv(s) && Enabled(s, Route)
    ensures var n, t := s.inbox.value, Apply(s, Route);
            && n in s.nodes && s.nodes[n].origin < |s.received| && |t.lists| == |s.lists| == LISTS && t.inbox == None
            && var b := NodeOf(s.received[s.nodes[n].origin], s.nodes[n].origin);
               && (forall fn: nat | fn < LISTS :: t.lists[fn] == if Suits(fn, b) then s.lists[fn] + [n] else s.lists[fn])
               && (if exists fn: nat :: Suits(fn, b) then t.mem == s.mem && t.leaked == s.leaked else GivenBack(s, t, n))
  {
    var n, u := s.inbox.value, PickInbox(s);
    PickInboxStays(s);
    LiveIsProper(s, n);
    assert n in s.mem.out;
    RouteIsSuited(s.nodes[n]);
    if RouteOf(s.nodes[n]) == None { PutFreeGivesBack(u); }
    hide Kept, Labelled, Live, Stage, OthersStay, NodeOf, RouteOf, Suits, PutFree, GivenBack;
  }

  /** What a node says of a datagram: where it came from, and its fields; without three fields
      it says nothing that a routine is for. */
  ghost predicate Reads(b: Buffer, r: Request, origin: nat) {
    && b.address == r.address && b.port == r.port && b.origin == origin
    && match Unframe(r.text)
       case Some(p) => b.direction == p.direction && b.kind == p.kind && b.content == p.content
       case None => forall fn: nat :: !Suits(fn, b)
  }

  lemma NodeReads(r: Request, origin: nat)
    ensures Reads(NodeOf(r, origin), r, origin)
  {
  }

  lemma AllocFails(p: Mempool.Pool, malloc: int)
    requires p.Good() && (malloc != 0 ==> p.Fresh(malloc)) && p.slots > 0
    ensures var (q, n) := Mempool.AllocSpec(p, malloc);
            n == 0 <==> p.free == [] && (malloc == 0 || |p.chunks| == Mempool.MAX_EXP_TIME)
  {
    Mempool.AllocKeepsGood(p, malloc);
    Mempool.GoodCounts(p);
    hide Mempool.Pool.Good, Mempool.Pool.Fresh, Mempool.AllocSpec;
  }

  /** A datagram is lost before it is received only if the pool has no free slot and gets no
      memory; otherwise a node that was free is taken for it. */
  lemma ReceivedIff(s: State, r: Request, malloc: int)
    requires Inv(s) && Enabled(s, Receive(r, malloc))
    ensures var t := Apply(s, Receive(r, malloc));
            if s.mem.free == [] && (malloc == 0 || |s.mem.chunks| == Mempool.MAX_EXP_TIME) then t == s
            else
              && t.received == s.received + [r] && t.lists == s.lists && t.inbox.Some?
              && var n := t.inbox.value;
                 n !in s.mem.out && t.mem.out == s.mem.out + {n} && n in t.nodes && Reads(t.nodes[n], r, |s.received|)
  {
    AllocFacts(s.mem, malloc);
    AllocFails(s.mem, malloc);
    NodeReads(r, |s.received|);
    hide Kept, Labelled, Mempool.AllocSpec, Mempool.Pool.Good, Mempool.Pool.Fresh, NodeOf, Reads;
  }

  /** The scheduler takes the oldest node of a list. */
  lemma TakesOldest(s: State, i: nat)
    requires Inv(s) && Enabled(s, Take(i))
    ensures var t := Apply(s, Take(i));
            && t.hand.Some? && t.hand.value.0 == i && s.lists[i] == [t.hand.value.1] + t.lists[i]
            && t.nodes == s.nodes && t.mem == s.mem && t.pool == s.pool
            && forall fn: nat | fn < LISTS && fn != i :: t.lists[fn] == s.lists[fn]
  {
    hide Kept, Labelled;
  }

  /** Its node is pushed as the argument of a job for the function of its list. */
  lemma SubmitsJob(s: State)
    requires Inv(s) && Enabled(s, Submit)
    ensures var t := Apply(s, Submit);
            && t.pool.pushed == s.pool.pushed + [T.Job(|s.pool.pushed|, s.hand.value.0, s.hand.value.1)]
            && t.hand == None && t.lists == s.lists && t.nodes == s.nodes && t.mem == s.mem && t.dropped == s.dropped
  {
    PushOpens(s.pool, s.hand.value.0, s.hand.value.1);
    hide Kept, Labelled, T.Apply, T.Enabled;
  }

  /** The node is the join response to what it was before: same address, port and datagram. */
  ghost predicate BecomesResponse(before: Buffer, b: Buffer, ack: bool) {
    && b.address == before.address && b.port == before.port && b.origin == before.origin
    && b.direction == 2 && b.kind == 2 && b.content == if ack then "0;" else "1;"
  }

  lemma ResponseBecomes(b: Buffer, ack: bool)
    ensures BecomesResponse(b, ResponseOf(b, ack), ack)
  {
    ResponseTexts();
    assert Print(0) == "0" && Print(1) == "1";
  }

  /** What a routine has done with its node when it returns: a join request is answered and goes
      to the tail of the nodes to send; every other node is given back. */
  lemma FinishedIff(s: State, w: nat, ack: bool)
    requires Inv(s) && Enabled(s, Finish(w, ack))
    ensures var fn, n, t := s.pool.pcs[w].job.fn, s.pool.pcs[w].job.arg, Apply(s, Finish(w, ack));
            && n in s.nodes && n in t.nodes && |s.lists| == |t.lists| == LISTS
            && (forall i: nat | i < LISTS :: t.lists[i] == if fn == NSI_RECEIVE && i == NSI_SEND then s.lists[i] + [n] else s.lists[i])
            && (if fn == NSI_RECEIVE then BecomesResponse(s.nodes[n], t.nodes[n], ack) && t.mem == s.mem else GivenBack(s, t, n))
            && t.handled == s.handled + (if fn == NSI_SEND then []
                                         else [Handling(fn, s.nodes[n].origin, if fn == NSI_RECEIVE then Some(ack) else None)])
            && |t.sent| == |s.sent| + (if fn == NSI_SEND then 1 else 0)
  {
    var fn, n, u := s.pool.pcs[w].job.fn, s.pool.pcs[w].job.arg, PickJob(s, w);
    hide Kept, Labelled, Apply, Routine, PutFree, GivenBack, PickJob, Enabled, Live, OthersStay, Stage, BecomesResponse, ResponseOf;
    FinishFields(s, w, ack);
    LiveIsProper(s, n);
    ResponseBecomes(s.nodes[n], ack);
    PickedJob(s, w);
    RoutineEffect(u, fn, ack);
  }

  lemma PickedJob(s: State, w: nat)
    requires Kept(s) && T.Enabled(s.pool, T.Return(w))
    ensures var u := PickJob(s, w);
            u.mem == s.mem && u.lists == s.lists && u.leaked == s.leaked && s.pool.pcs[w].job.arg in s.mem.out && s.mem.Good()
  {
    PickJobOwned(s, w);
    hide T.Reachable, Mempool.Pool.Good, T.Apply, T.Enabled, Open;
  }

  lemma RoutineEffect(u: State, fn: nat, ack: bool)
    requires u.transit.Some? && u.mem.size > 1 && |u.lists| == LISTS && u.transit.value in u.nodes
    requires u.mem.Good() && u.transit.value in u.mem.out && fn != BHM_SEND
    ensures var n, t := u.transit.value, Routine(u, fn, ack);
            var b := u.nodes[n];
            && |t.lists| == LISTS
            && (forall i: nat | i < LISTS :: t.lists[i] == if fn == NSI_RECEIVE && i == NSI_SEND then u.lists[i] + [n] else u.lists[i])
            && t.nodes == (if fn == NSI_RECEIVE then u.nodes[n := ResponseOf(b, ack)] else u.nodes)
            && (if fn == NSI_RECEIVE then t.mem == u.mem else GivenBack(u, t, n))
            && t.handled == u.handled + (if fn == NSI_SEND then [] else [Handling(fn, b.origin, if fn == NSI_RECEIVE then Some(ack) else None)])
            && t.sent == u.sent + (if fn == NSI_SEND then [ReplyOf(b)] else [])
  {
    PutFreeGivesBack(u);
    hide Mempool.Pool.Good, Mempool.Accepts, Mempool.FreeSpec, ResponseOf, ReplyOf;
  }

  lemma DiscardDrops(s: State)
    requires Inv(s) && Enabled(s, Discard)
    ensures var n, t := s.hand.value.1, Apply(s, Discard);
            n in s.nodes && t.dropped == s.dropped + [s.nodes[n].origin] && t.hand == None && GivenBack(s, t, n)
  {
    var n := s.hand.value.1;
    PickHandStays(s);
    LiveIsProper(s, n);
    assert n in s.mem.out;
    hide Kept, Labelled, Live, Stage, OthersStay, PutFree;
    var u := PickHand(s).(dropped := s.dropped + [s.nodes[n].origin]);
    GoodOfKept(s);
    PutFreeGivesBack(u);
    assert PutFree(u).dropped == u.dropped && PutFree(u).hand == None by { PutFreeKeeps(u); }
  }

  lemma GoodOfKept(s: State)
    requires Kept(s)
    ensures s.mem.Good()
  {
  }

  lemma PutFreeKeeps(s: State)
    requires s.transit.Some? && s.mem.size > 1
    ensures PutFree(s).dropped == s.dropped && PutFree(s).hand == s.hand
  {
  }

  lemma RoutineDropsNothing(u: State, fn: nat, ack: bool)
    requires u.transit.Some? && u.mem.size > 1 && |u.lists| == LISTS
    ensures Routine(u, fn, ack).dropped == u.dropped
  {
    hide Mempool.Accepts, Mempool.FreeSpec, ResponseOf, ReplyOf;
  }

  lemma NothingDropped(s: State, step: Step)
    requires Inv(s) && Enabled(s, step) && !step.Discard?
    ensures Apply(s, step).dropped == s.dropped
  {
    match step
    case Finish(w, ack) =>
      hide Kept, Labelled, Routine, PickJob, T.Apply, OthersStay, Live, Stage;
      FinishFields(s, w, ack);
      RoutineDropsNothing(PickJob(s, w), s.pool.pcs[w].job.fn, ack);
    case Route =>
      hide Kept, Labelled, Mempool.FreeSpec, Mempool.Accepts, RouteOf;
    case _ =>
      hide Kept, Labelled, Routine, T.Apply, T.Enabled, Mempool.AllocSpec, NodeOf;
  }

  /** Only the scheduler drops datagrams, and when it drops one the node is given back. */
  lemma DroppedIff(s: State, step: Step)
    requires Inv(s) && Enabled(s, step)
    ensures var t := Apply(s, step);
            if step.Discard? then
              && s.hand.value.1 in s.nodes && t.dropped == s.dropped + [s.nodes[s.hand.value.1].origin]
              && t.hand == None && GivenBack(s, t, s.hand.value.1)
            else t.dropped == s.dropped
  {
    if step.Discard? {
      hide Inv, Apply, Enabled, GivenBack;
      DiscardDrops(s);
    } else {
      NothingDropped(s, step);
      hide *;
    }
  }

  /** What entered a list in a step, and what left it, by its length. */
  ghost function EnteredIn(s: State, t: State, fn: nat): seq<int>
    requires fn < |s.lists| && fn < |t.lists|
  {
    if |t.lists[fn]| > |s.lists[fn]| then t.lists[fn][|s.lists[fn]|..] else []
  }

  ghost function LeftIn(s: State, t: State, fn: nat): seq<int>
    requires fn < |s.lists| && fn < |t.lists|
  {
    if |t.lists[fn]| < |s.lists[fn]| then s.lists[fn][..|s.lists[fn]| - |t.lists[fn]|] else []
  }

  ghost function Entered(s: State, steps: seq<Step>, fn: nat): seq<int>
    decreases |steps|
  {
    if steps == [] || !Enabled(s, steps[0]) then []
    else
      var t := Apply(s, steps[0]);
      (if fn < |s.lists| && fn < |t.lists| then EnteredIn(s, t, fn) else []) + Entered(t, steps[1..], fn)
  }

  ghost function Left(s: State, steps: seq<Step>, fn: nat): seq<int>
    decreases |steps|
  {
    if steps == [] || !Enabled(s, steps[0]) then []
    else
      var t := Apply(s, steps[0]);
      (if fn < |s.lists| && fn < |t.lists| then LeftIn(s, t, fn) else []) + Left(t, steps[1..], fn)
  }

  lemma ListsStay(s: State, step: Step)
    requires Inv(s) && Enabled(s, step) && (step.Receive? || step.Discard? || step.Internal?)
    ensures Apply(s, step).lists == s.lists
  {
    hide Kept, Labelled, T.Apply, T.Enabled, Mempool.AllocSpec, Mempool.FreeSpec, Mempool.Accepts, NodeOf;
  }

  /** The list stays, gets a last node, or loses its first one. */
  ghost predicate IsFifo(s: State, t: State, fn: nat) {
    && fn < LISTS == |s.lists| == |t.lists|
    && (t.lists[fn] == s.lists[fn]
        || (exists n :: t.lists[fn] == s.lists[fn] + [n])
        || (exists n :: s.lists[fn] == [n] + t.lists[fn]))
  }

  lemma RouteIsFifo(s: State, fn: nat)
    requires Inv(s) && Enabled(s, Route) && fn < LISTS
    ensures IsFifo(s, Apply(s, Route), fn)
  {
    RoutedIff(s);
    hide Inv, Apply, Enabled, Suits, GivenBack, NodeOf;
  }

  lemma TakeIsFifo(s: State, i: nat, fn: nat)
    requires Inv(s) && Enabled(s, Take(i)) && fn < LISTS
    ensures IsFifo(s, Apply(s, Take(i)), fn)
  {
    TakesOldest(s, i);
    StepKept(s, Take(i));
    hide Owned, T.Reachable, Mempool.Pool.Good, Labelled, Apply;
  }

  lemma FinishIsFifo(s: State, w: nat, ack: bool, fn: nat)
    requires Inv(s) && Enabled(s, Finish(w, ack)) && fn < LISTS
    ensures IsFifo(s, Apply(s, Finish(w, ack)), fn)
  {
    FinishedIff(s, w, ack);
    hide Inv, Apply, Enabled, GivenBack, BecomesResponse;
  }

  lemma StepIsFifo(s: State, step: Step, fn: nat)
    requires Inv(s) && Enabled(s, step) && fn < LISTS
    ensures IsFifo(s, Apply(s, step), fn)
  {
    match step
    case Route => RouteIsFifo(s, fn);
    case Take(i) => TakeIsFifo(s, i, fn);
    case Finish(w, ack) => FinishIsFifo(s, w, ack, fn);
    case Submit =>
      SubmitsJob(s);
      hide Owned, T.Reachable, Mempool.Pool.Good, Labelled, Apply;
    case _ =>
      ListsStay(s, step);
      hide Owned, T.Reachable, Mempool.Pool.Good, Labelled, Apply;
  }

  lemma FifoKeepsOrder(s: State, t: State, fn: nat)
    requires IsFifo(s, t, fn)
    ensures |s.lists| == |t.lists| == LISTS
    ensures s.lists[fn] + EnteredIn(s, t, fn) == LeftIn(s, t, fn) + t.lists[fn]
  {
  }

  /** In every run, nodes leave each list in the order in which they entered it. */
  lemma {:induction false} ListsAreFifo(s: State, steps: seq<Step>, t: State, fn: nat)
    requires Inv(s) && Run(s, steps, t) && fn < LISTS
    ensures |s.lists| == |t.lists| == LISTS
    ensures s.lists[fn] + Entered(s, steps, fn) == Left(s, steps, fn) + t.lists[fn]
    decreases |steps|
  {
    if steps != [] {
      StepIsFifo(s, steps[0], fn);
      FifoKeepsOrder(s, Apply(s, steps[0]), fn);
      StepKeepsInv(s, steps[0]);
      hide Inv, Enabled, Apply, EnteredIn, LeftIn, IsFifo;
      var u := Apply(s, steps[0]);
      ListsAreFifo(u, steps[1..], t, fn);
      FifoJoins(s.lists[fn], EnteredIn(s, u, fn), LeftIn(s, u, fn), u.lists[fn],
                Entered(u, steps[1..], fn), Left(u, steps[1..], fn), t.lists[fn]);
    }
  }

  lemma FifoJoins(a: seq<int>, e: seq<int>, l: seq<int>, b: seq<int>, e': seq<int>, l': seq<int>, c: seq<int>)
    requires a + e == l + b && b + e' == l' + c
    ensures a + (e + e') == (l + l') + c
  {
    assert a + (e + e') == (a + e) + e';
    assert l + (b + e') == (l + b) + e';
    assert l + (l' + c) == (l + l') + c;
  }

  /** The kinds of packets, by the numbers of their first two fields, and the lists they are for. */
  lemma SuitsByNumber(b: Buffer, fn: nat)
    ensures Suits(fn, b) <==> (b.direction, b.kind, fn) in {(6, 1, 4), (6, 3, 1), (6, 4, 2), (6, 5, 5), (6, 6, 5), (3, 8, 0)}
  {
  }
}

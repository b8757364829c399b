/**
  The worker protocol of import/thpool.c as interleaved steps.

  Each step is one lock-protected section, or one read of a volatile field, of one thread.
  `rwmutex` is explicit, because push and pull post the semaphore while they hold it; the
  semaphore's own mutex protects single steps only.  The condition variable follows POSIX:
  a signal wakes at least one waiter when there is one, and a waiter may also wake for no
  reason.  The client is the one thread (CommUnit_routine) that adds work and destroys the
  pool.  Job functions may take any time but return.
 */
module ThreadPool {

  /** A job; `ticket` is its position in the order of pushes. */
  datatype Job = Job(ticket: nat, fn: nat, arg: int)

  /** Where a worker is in `thread_do`. */
  datatype Pc =
    | Starting          // before num_threads_alive is counted
    | LoopTest          // about to test keepalive in the while condition
    | AtWait            // entering bsem_wait
    | Blocked           // inside pthread_cond_wait
    | Signalled         // woken, about to test v again
    | Woken             // bsem_wait has returned, keepalive is tested once more
    | Counting          // about to increment num_threads_working
    | Pulling           // about to lock rwmutex in jobqueue_pull
    | Posting(job: Job) // holds rwmutex, has taken a job, about to post
    | Running(job: Job) // executing the job
    | Uncounting        // about to decrement num_threads_working
    | Leaving           // about to decrement num_threads_alive
    | Gone

  /** Where the client is. */
  datatype Client =
    | Init              // thpool_init, polling num_threads_alive
    | Idle
    | Pushing           // jobqueue_push: holds rwmutex, job linked, about to post
    | Destroying        // thpool_destroy, polling num_threads_alive
    | Clearing          // jobqueue_clear
    | Destroyed

  datatype Holder = Free | ByClient | ByWorker(i: nat)

  datatype State = State(
    pcs: seq<Pc>, client: Client, holder: Holder, keepalive: bool,
    queue: seq<Job>, v: nat, alive: int, working: int,
    pushed: seq<Job>, pulled: seq<Job>, done: seq<Job>, cleared: seq<Job>)

  /** The state after thpool_init has created its `n` threads. */
  function Initial(n: nat): State {
    State(seq(n, _ => Starting), Init, Free, true, [], 0, 0, 0, [], [], [], [])
  }

  /* ------------------------------- the steps ------------------------------- */

  datatype Step =
    | Start(i: nat) | Test(i: nat) | Wait(i: nat) | Spurious(i: nat) | Recheck(i: nat)
    | Count(i: nat) | Pull(i: nat) | PullPost(i: nat, woken: set<nat>)
    | Return(i: nat) | Uncount(i: nat) | Leave(i: nat)
    | Ready | Push(fn: nat, arg: int) | PushPost(woken: set<nat>)
    | Destroy | PostAll | AllLeft | ClearPull | ClearDone

  predicate IsBlocked(pcs: seq<Pc>, i: nat) { i < |pcs| && pcs[i] == Blocked }

  predicate AnyBlocked(pcs: seq<Pc>) { exists i: nat :: i < |pcs| && IsBlocked(pcs, i) }

  /** pthread_cond_signal: some waiters wake, at least one if there are any. */
  predicate LegalSignal(pcs: seq<Pc>, woken: set<nat>) {
    && (forall i | i in woken :: IsBlocked(pcs, i))
    && (AnyBlocked(pcs) ==> woken != {})
  }

  function Wake(pcs: seq<Pc>, woken: set<nat>): (r: seq<Pc>)
    ensures |r| == |pcs|
    ensures forall i | 0 <= i < |pcs| :: r[i] == if i in woken then Signalled else pcs[i]
  {
    seq(|pcs|, i requires 0 <= i < |pcs| => if i in woken then Signalled else pcs[i])
  }

  /** pthread_cond_broadcast. */
  function WakeAll(pcs: seq<Pc>): (r: seq<Pc>)
    ensures |r| == |pcs|
    ensures forall i | 0 <= i < |pcs| :: r[i] == if pcs[i] == Blocked then Signalled else pcs[i]
  {
    seq(|pcs|, i requires 0 <= i < |pcs| => if pcs[i] == Blocked then Signalled else pcs[i])
  }

  predicate At(s: State, i: nat, pc: Pc) { i < |s.pcs| && s.pcs[i] == pc }

  predicate Enabled(s: State, step: Step) {
    match step
    case Start(i) => At(s, i, Starting)
    case Test(i) => At(s, i, LoopTest)
    case Wait(i) => At(s, i, AtWait) || At(s, i, Signalled)
    case Spurious(i) => At(s, i, Blocked)
    case Recheck(i) => At(s, i, Woken)
    case Count(i) => At(s, i, Counting)
    case Pull(i) => At(s, i, Pulling) && s.holder == Free
    case PullPost(i, woken) => i < |s.pcs| && s.pcs[i].Posting? && LegalSignal(s.pcs, woken)
    case Return(i) => i < |s.pcs| && s.pcs[i].Running?
    case Uncount(i) => At(s, i, Uncounting)
    case Leave(i) => At(s, i, Leaving)
    case Ready => s.client == Init && s.alive == |s.pcs|
    case Push(_, _) => s.client == Idle && s.holder == Free
    case PushPost(woken) => s.client == Pushing && LegalSignal(s.pcs, woken)
    case Destroy => s.client == Idle
    case PostAll => s.client == Destroying && s.alive != 0
    case AllLeft => s.client == Destroying && s.alive == 0
    case ClearPull => s.client == Clearing && s.queue != [] && s.holder == Free
    case ClearDone => s.client == Clearing && s.queue == []
  }

  function Apply(s: State, step: Step): State
    requires Enabled(s, step)
  {
    match step
    case Start(i) => s.(pcs := s.pcs[i := LoopTest], alive := s.alive + 1)
    case Test(i) => s.(pcs := s.pcs[i := if s.keepalive then AtWait else Leaving])
    case Wait(i) =>
      if s.v == 1 then s.(pcs := s.pcs[i := Woken], v := 0) else s.(pcs := s.pcs[i := Blocked])
    case Spurious(i) => s.(pcs := s.pcs[i := Signalled])
    case Recheck(i) => s.(pcs := s.pcs[i := if s.keepalive then Counting else LoopTest])
    case Count(i) => s.(pcs := s.pcs[i := Pulling], working := s.working + 1)
    case Pull(i) =>
      if s.queue == [] then s.(pcs := s.pcs[i := Uncounting])
      else
        var job := s.queue[0];
        var t := s.(queue := s.queue[1..], pulled := s.pulled + [job]);
        if |s.queue| == 1 then t.(pcs := s.pcs[i := Running(job)])
        else t.(pcs := s.pcs[i := Posting(job)], holder := ByWorker(i))
    case PullPost(i, woken) =>
      s.(pcs := Wake(s.pcs, woken)[i := Running(s.pcs[i].job)], v := 1, holder := Free)
    case Return(i) => s.(pcs := s.pcs[i := Uncounting], done := s.done + [s.pcs[i].job])
    case Uncount(i) => s.(pcs := s.pcs[i := LoopTest], working := s.working - 1)
    case Leave(i) => s.(pcs := s.pcs[i := Gone], alive := s.alive - 1)
    case Ready => s.(client := Idle)
    case Push(fn, arg) =>
      var job := Job(|s.pushed|, fn, arg);
      s.(queue := s.queue + [job], pushed := s.pushed + [job], client := Pushing, holder := ByClient)
    case PushPost(woken) =>
      s.(pcs := Wake(s.pcs, woken), v := 1, client := Idle, holder := Free)
    case Destroy => s.(keepalive := false, client := Destroying)
    case PostAll => s.(pcs := WakeAll(s.pcs), v := 1)
    case AllLeft => s.(client := Clearing)
    case ClearPull =>
      s.(queue := s.queue[1..], cleared := s.cleared + [s.queue[0]],
         v := if |s.queue| > 1 then 1 else s.v)
    case ClearDone => s.(v := 0, client := Destroyed)
  }

  ghost predicate Run(s: State, steps: seq<Step>, t: State)
    decreases |steps|
  {
    if steps == [] then s == t
    else Enabled(s, steps[0]) && Run(Apply(s, steps[0]), steps[1..], t)
  }

  ghost predicate Reachable(s: State) {
    exists n: nat, steps: seq<Step> :: Run(Initial(n), steps, s)
  }

  /* ------------------------------- counting -------------------------------- */

  /** Inside the worker loop, as far as num_threads_alive is concerned. */
  predicate IsAlive(pc: Pc) { pc != Starting && pc != Gone }

  /** Between the increment and the decrement of num_threads_working. */
  predicate IsWorking(pc: Pc) { pc == Pulling || pc.Posting? || pc.Running? || pc == Uncounting }

  function CountAlive(pcs: seq<Pc>): (n: nat)
    ensures n <= |pcs|
  {
    if pcs == [] then 0 else CountAlive(pcs[1..]) + One(IsAlive(pcs[0]))
  }

  function CountWorking(pcs: seq<Pc>): nat {
    if pcs == [] then 0 else CountWorking(pcs[1..]) + One(IsWorking(pcs[0]))
  }

  /** The jobs that workers hold: taken from the queue, not yet finished. */
  function Held(pcs: seq<Pc>): multiset<Job> {
    if pcs == [] then multiset{} else HeldBy(pcs[0]) + Held(pcs[1..])
  }

  function HeldBy(pc: Pc): multiset<Job> {
    if pc.Posting? || pc.Running? then multiset{pc.job} else multiset{}
  }

  /** How far a worker is from leaving once keepalive is 0. */
  function Rank(pc: Pc): nat {
    match pc
    case Gone => 0 case Leaving => 1 case LoopTest => 2
    case Starting => 3 case Uncounting => 3 case Woken => 3
    case AtWait => 4 case Blocked => 4 case Signalled => 4 case Running(_) => 4
    case Posting(_) => 5 case Pulling => 6 case Counting => 7
  }

  function SumRank(pcs: seq<Pc>): nat {
    if pcs == [] then 0 else Rank(pcs[0]) + SumRank(pcs[1..])
  }

  /** 1 for a worker inside the loop; 1 for a working one. */
  function One(b: bool): nat { if b then 1 else 0 }

  /** What one worker's move does to the sums. */
  lemma {:induction false} UpdateSums(pcs: seq<Pc>, i: nat, pc: Pc)
    requires i < |pcs|
    ensures CountAlive(pcs[i := pc]) + One(IsAlive(pcs[i])) == CountAlive(pcs) + One(IsAlive(pc))
    ensures CountWorking(pcs[i := pc]) + One(IsWorking(pcs[i])) == CountWorking(pcs) + One(IsWorking(pc))
    ensures SumRank(pcs[i := pc]) + Rank(pcs[i]) == SumRank(pcs) + Rank(pc)
  {
    var r := pcs[i := pc];
    if i == 0 {
      assert r[1..] == pcs[1..];
    } else {
      assert r[1..] == pcs[1..][i - 1 := pc];
      UpdateSums(pcs[1..], i - 1, pc);
    }
  }

  lemma {:induction false} UpdateHeld(pcs: seq<Pc>, i: nat, pc: Pc)
    requires i < |pcs|
    ensures Held(pcs[i := pc]) + HeldBy(pcs[i]) == Held(pcs) + HeldBy(pc)
  {
    var r := pcs[i := pc];
    if i == 0 {
      assert r[1..] == pcs[1..];
    } else {
      var rest := pcs[1..];
      assert r[1..] == rest[i - 1 := pc];
      UpdateHeld(rest, i - 1, pc);
      hide HeldBy;
      AddFirst(HeldBy(pcs[0]), Held(rest[i - 1 := pc]), HeldBy(pcs[i]), Held(rest), HeldBy(pc));
    }
  }

  lemma AddFirst(first: multiset<Job>, a: multiset<Job>, b: multiset<Job>, c: multiset<Job>, d: multiset<Job>)
    requires a + b == c + d
    ensures (first + a) + b == (first + c) + d
  {
    assert (first + a) + b == first + (a + b);
  }

  lemma Cancel(a: multiset<Job>, b: multiset<Job>, c: multiset<Job>)
    requires a + c == b + c
    ensures a == b
  {
    assert a == (a + c) - c && b == (b + c) - c;
  }

  /** Waking a blocked worker changes none of them. */
  lemma {:induction false} WakeSums(pcs: seq<Pc>, r: seq<Pc>)
    requires |r| == |pcs|
    requires forall i | 0 <= i < |pcs| :: r[i] == pcs[i] || (pcs[i] == Blocked && r[i] == Signalled)
    ensures CountAlive(r) == CountAlive(pcs) && CountWorking(r) == CountWorking(pcs)
    ensures Held(r) == Held(pcs) && SumRank(r) == SumRank(pcs)
  {
    if pcs != [] {
      assert r[0] == pcs[0] || (pcs[0] == Blocked && r[0] == Signalled);
      WakeSums(pcs[1..], r[1..]);
    }
  }

  /* ------------------------------ the invariant ---------------------------- */

  /** A worker between its wait and its pull: it has taken the semaphore's bit and will look
      at the queue. */
  predicate InBetween(pc: Pc) { pc == Woken || pc == Counting || pc == Pulling }

  ghost predicate SomeInBetween(pcs: seq<Pc>) { exists i :: 0 <= i < |pcs| && InBetween(pcs[i]) }

  ghost predicate SomeSignalled(pcs: seq<Pc>) { exists i :: 0 <= i < |pcs| && pcs[i] == Signalled }

  /** No wake-up is lost: with keepalive set, a non-empty queue means that the semaphore is 1,
      or that a worker is on its way to the queue, or that a post is about to happen; and a
      semaphore at 1 with a worker asleep means that a sleeper has been signalled. */
  ghost predicate NoLostWakeup(s: State) {
    && (s.keepalive && s.queue != [] ==> s.v == 1 || SomeInBetween(s.pcs) || s.holder != Free)
    && (s.v == 1 && AnyBlocked(s.pcs) ==> SomeSignalled(s.pcs))
  }

  /** rwmutex is held exactly by who is about to post. */
  ghost predicate MutexInv(s: State) {
    && (forall i | 0 <= i < |s.pcs| :: s.pcs[i].Posting? <==> s.holder == ByWorker(i))
    && (s.client == Pushing <==> s.holder == ByClient)
    && (s.holder.ByWorker? ==> s.holder.i < |s.pcs|)
  }

  /** num_threads_alive and num_threads_working count the workers they should. */
  ghost predicate CountInv(s: State) {
    s.alive == CountAlive(s.pcs) && s.working == CountWorking(s.pcs)
  }

  /** The phases of thpool_init, normal work and thpool_destroy. */
  ghost predicate PhaseInv(s: State) {
    && s.v <= 1
    && (s.keepalive <==> s.client.Init? || s.client.Idle? || s.client.Pushing?)
    && (s.keepalive ==> forall i | 0 <= i < |s.pcs| :: s.pcs[i] != Leaving && s.pcs[i] != Gone)
    && (s.client != Init ==> forall i | 0 <= i < |s.pcs| :: s.pcs[i] != Starting)
    && (s.client.Clearing? || s.client.Destroyed? ==> forall i | 0 <= i < |s.pcs| :: s.pcs[i] == Gone)
    && (s.client.Destroyed? ==> s.queue == [])
    && (s.cleared != [] ==> s.client.Clearing? || s.client.Destroyed?)
  }

  /** FIFO: what was pushed is what was pulled, then what was cleared, then what is queued;
      the pulled jobs are exactly the held and the finished ones. */
  ghost predicate FifoInv(s: State) {
    && s.pushed == s.pulled + s.cleared + s.queue
    && (forall t | 0 <= t < |s.pushed| :: s.pushed[t].ticket == t)
    && multiset(s.pulled) == Held(s.pcs) + multiset(s.done)
  }

  ghost predicate Inv(s: State) {
    NoLostWakeup(s) && MutexInv(s) && CountInv(s) && PhaseInv(s) && FifoInv(s)
  }

  lemma {:induction false} InitialSums(n: nat)
    ensures CountAlive(seq(n, _ => Starting)) == 0 && CountWorking(seq(n, _ => Starting)) == 0
    ensures Held(seq(n, _ => Starting)) == multiset{}
  {
    if n > 0 {
      assert seq(n, _ => Starting)[1..] == seq(n - 1, _ => Starting);
      InitialSums(n - 1);
    }
  }

  lemma InitialInv(n: nat)
    ensures Inv(Initial(n))
  {
    InitialSums(n);
  }

  /** Everybody is gone exactly when the counters of alive workers say so. */
  lemma {:induction false} CountAliveZero(pcs: seq<Pc>)
    ensures CountAlive(pcs) == 0 <==> forall i | 0 <= i < |pcs| :: !IsAlive(pcs[i])
  {
    if pcs != [] {
      CountAliveZero(pcs[1..]);
      if CountAlive(pcs) == 0 {
        forall i | 0 <= i < |pcs|
          ensures !IsAlive(pcs[i])
        {
          if i > 0 { assert pcs[i] == pcs[1..][i - 1]; }
        }
      }
    }
  }

  lemma {:induction false} CountAliveFull(pcs: seq<Pc>)
    ensures CountAlive(pcs) == |pcs| <==> forall i | 0 <= i < |pcs| :: IsAlive(pcs[i])
  {
    if pcs != [] {
      CountAliveFull(pcs[1..]);
      if CountAlive(pcs) == |pcs| {
        forall i | 0 <= i < |pcs|
          ensures IsAlive(pcs[i])
        {
          if i > 0 { assert pcs[i] == pcs[1..][i - 1]; }
        }
      }
    }
  }

  /** The worker that takes a step. */
  function Actor(step: Step): int {
    match step
    case Start(i) => i case Test(i) => i case Wait(i) => i case Spurious(i) => i case Recheck(i) => i
    case Count(i) => i case Pull(i) => i case PullPost(i, _) => i case Return(i) => i
    case Uncount(i) => i case Leave(i) => i
    case _ => -1
  }

  /** The workers after the wake-ups of a step, before its actor moves. */
  function Woke(s: State, step: Step): seq<Pc> {
    match step
    case PullPost(_, woken) => Wake(s.pcs, woken)
    case PushPost(woken) => Wake(s.pcs, woken)
    case PostAll => WakeAll(s.pcs)
    case _ => s.pcs
  }

  lemma StepShape(s: State, step: Step)
    requires Enabled(s, step)
    ensures var t, w, i := Apply(s, step), Woke(s, step), Actor(step);
            && |w| == |t.pcs| == |s.pcs|
            && (forall j | 0 <= j < |w| :: w[j] == s.pcs[j] || (s.pcs[j] == Blocked && w[j] == Signalled))
            && (i < 0 ==> t.pcs == w)
            && (i >= 0 ==> i < |w| && w[i] == s.pcs[i] && t.pcs == w[i := t.pcs[i]])
  {
  }

  /** Where the actor of a step ends up. */
  function NewPc(s: State, step: Step): Pc
    requires Enabled(s, step) && Actor(step) >= 0
  {
    match step
    case Start(_) => LoopTest
    case Test(_) => if s.keepalive then AtWait else Leaving
    case Wait(_) => if s.v == 1 then Woken else Blocked
    case Spurious(_) => Signalled
    case Recheck(_) => if s.keepalive then Counting else LoopTest
    case Count(_) => Pulling
    case Pull(_) =>
      if s.queue == [] then Uncounting else if |s.queue| == 1 then Running(s.queue[0]) else Posting(s.queue[0])
    case PullPost(i, _) => Running(s.pcs[i].job)
    case Return(_) => Uncounting
    case Uncount(_) => LoopTest
    case Leave(_) => Gone
  }

  lemma ActorMoves(s: State, step: Step)
    requires Enabled(s, step) && Actor(step) >= 0
    ensures Actor(step) < |s.pcs| == |Apply(s, step).pcs|
    ensures Apply(s, step).pcs[Actor(step)] == NewPc(s, step)
  {
  }

  /** A step changes each sum by what its actor's move contributes. */
  lemma StepSums(s: State, step: Step)
    requires Enabled(s, step)
    ensures var t, i := Apply(s, step), Actor(step);
            && |t.pcs| == |s.pcs| && i < |s.pcs|
            && (i < 0 ==> CountAlive(t.pcs) == CountAlive(s.pcs) && CountWorking(t.pcs) == CountWorking(s.pcs)
                          && SumRank(t.pcs) == SumRank(s.pcs))
            && (i >= 0 ==>
                  && CountAlive(t.pcs) + One(IsAlive(s.pcs[i])) == CountAlive(s.pcs) + One(IsAlive(t.pcs[i]))
                  && CountWorking(t.pcs) + One(IsWorking(s.pcs[i])) == CountWorking(s.pcs) + One(IsWorking(t.pcs[i]))
                  && SumRank(t.pcs) + Rank(s.pcs[i]) == SumRank(s.pcs) + Rank(t.pcs[i]))
  {
    StepShape(s, step);
    var t, w, i := Apply(s, step), Woke(s, step), Actor(step);
    hide Apply, Enabled, Woke, Actor, Rank, IsAlive, IsWorking, HeldBy, One;
    WakeSums(s.pcs, w);
    if i >= 0 { UpdateSums(w, i, t.pcs[i]); }
  }

  lemma StepHeld(s: State, step: Step)
    requires Enabled(s, step)
    ensures var t, i := Apply(s, step), Actor(step);
            && |t.pcs| == |s.pcs| && i < |s.pcs|
            && (i < 0 ==> Held(t.pcs) == Held(s.pcs))
            && (i >= 0 ==> Held(t.pcs) + HeldBy(s.pcs[i]) == Held(s.pcs) + HeldBy(t.pcs[i]))
            && (i >= 0 && HeldBy(s.pcs[i]) == HeldBy(t.pcs[i]) ==> Held(t.pcs) == Held(s.pcs))
  {
    StepShape(s, step);
    var t, w, i := Apply(s, step), Woke(s, step), Actor(step);
    hide Apply, Enabled, Woke, Actor, Rank, IsAlive, IsWorking, HeldBy, One;
    WakeSums(s.pcs, w);
    if i >= 0 {
      UpdateHeld(w, i, t.pcs[i]);
      if HeldBy(s.pcs[i]) == HeldBy(t.pcs[i]) { Cancel(Held(t.pcs), Held(s.pcs), HeldBy(s.pcs[i])); }
    }
  }

  /* ------------------------- each part is preserved ------------------------ */

  lemma StepKeepsMutex(s: State, step: Step)
    requires Enabled(s, step) && MutexInv(s)
    ensures MutexInv(Apply(s, step))
  {
  }

  lemma ActorCounts(s: State, step: Step)
    requires Enabled(s, step)
    ensures var t, i := Apply(s, step), Actor(step);
            && i < |s.pcs| && i < |t.pcs|
            && (i < 0 ==> t.alive == s.alive && t.working == s.working)
            && (i >= 0 ==> t.alive - s.alive == One(IsAlive(t.pcs[i])) - One(IsAlive(s.pcs[i])))
            && (i >= 0 ==> t.working - s.working == One(IsWorking(t.pcs[i])) - One(IsWorking(s.pcs[i])))
  {
    StepShape(s, step);
    hide Woke;
  }

  lemma StepKeepsCounts(s: State, step: Step)
    requires Enabled(s, step) && CountInv(s)
    ensures CountInv(Apply(s, step))
  {
    hide Apply, Enabled, CountAlive, CountWorking, SumRank, Rank;
    ActorCounts(s, step);
    StepSums(s, step);
  }

  lemma WorkerKeepsPhase(s: State, step: Step)
    requires Enabled(s, step) && PhaseInv(s) && Actor(step) >= 0
    ensures PhaseInv(Apply(s, step))
  {
    hide LegalSignal, IsWorking;
  }

  lemma ClientKeepsPhase(s: State, step: Step)
    requires Enabled(s, step) && PhaseInv(s) && CountInv(s) && Actor(step) < 0
    ensures PhaseInv(Apply(s, step))
  {
    CountAliveZero(s.pcs);
    CountAliveFull(s.pcs);
    hide CountAlive, CountWorking, LegalSignal, IsWorking;
  }

  lemma StepKeepsPhase(s: State, step: Step)
    requires Enabled(s, step) && PhaseInv(s) && CountInv(s)
    ensures PhaseInv(Apply(s, step))
  {
    hide PhaseInv, CountInv, Apply, Enabled;
    if Actor(step) >= 0 { WorkerKeepsPhase(s, step); } else { ClientKeepsPhase(s, step); }
  }

  predicate TakesJob(s: State, step: Step) { step.Pull? && s.queue != [] }

  /** What a step does to the histories and the queue. */
  lemma QueueFields(s: State, step: Step)
    requires Enabled(s, step)
    ensures var t := Apply(s, step);
            if step.Push? then
              var job := Job(|s.pushed|, step.fn, step.arg);
              t.pushed == s.pushed + [job] && t.queue == s.queue + [job]
              && t.pulled == s.pulled && t.cleared == s.cleared
            else
              t.pushed == s.pushed
              && (if TakesJob(s, step) then
                    t.queue == s.queue[1..] && t.pulled == s.pulled + [s.queue[0]] && t.cleared == s.cleared
                  else if step.ClearPull? then
                    s.queue != [] && t.queue == s.queue[1..] && t.pulled == s.pulled
                    && t.cleared == s.cleared + [s.queue[0]]
                  else t.queue == s.queue && t.pulled == s.pulled && t.cleared == s.cleared)
  {
    hide Wake, WakeAll, LegalSignal;
  }

  lemma PullsAreWorkersOnly(s: State, step: Step)
    requires Enabled(s, step) && PhaseInv(s) && step.Pull?
    ensures s.cleared == []
  {
    assert s.pcs[step.i] == Pulling;
  }

  lemma StepKeepsOrder(s: State, step: Step)
    requires Enabled(s, step) && FifoInv(s) && PhaseInv(s)
    ensures var t := Apply(s, step);
            t.pushed == t.pulled + t.cleared + t.queue && forall n | 0 <= n < |t.pushed| :: t.pushed[n].ticket == n
  {
    QueueFields(s, step);
    if step.Pull? { PullsAreWorkersOnly(s, step); }
    hide Apply, Enabled, PhaseInv, Held;
    if TakesJob(s, step) || step.ClearPull? {
      assert s.queue == [s.queue[0]] + s.queue[1..];
    }
  }

  /** What the actor's move does to the job it holds. */
  lemma ActorHolds(s: State, step: Step)
    requires Enabled(s, step) && Actor(step) >= 0
    ensures Actor(step) < |s.pcs|
    ensures var was, now := s.pcs[Actor(step)], NewPc(s, step);
            if TakesJob(s, step) then !Holds(was) && Holds(now) && now.job == s.queue[0]
            else if step.Return? then Holds(was) && !Holds(now)
            else Holds(was) == Holds(now) && (Holds(was) ==> was.job == now.job)
  {
  }

  predicate Holds(pc: Pc) { pc.Posting? || pc.Running? }

  /** The job a return finishes. */
  function Finished(s: State, step: Step): Job
    requires Enabled(s, step) && step.Return?
  {
    s.pcs[step.i].job
  }

  /** Only a successful pull and a return change which jobs the workers hold. */
  lemma StepHolds(s: State, step: Step)
    requires Enabled(s, step)
    ensures var t := Apply(s, step);
            && (TakesJob(s, step) ==> Held(t.pcs) == Held(s.pcs) + multiset{s.queue[0]})
            && (step.Return? ==> Held(t.pcs) + multiset{Finished(s, step)} == Held(s.pcs))
            && (!TakesJob(s, step) && !step.Return? ==> Held(t.pcs) == Held(s.pcs))
  {
    StepHeld(s, step);
    var i := Actor(step);
    if i >= 0 {
      ActorHolds(s, step);
      ActorMoves(s, step);
    }
    hide Apply, Enabled, Held, Actor, NewPc, LegalSignal;
  }

  lemma DoneField(s: State, step: Step)
    requires Enabled(s, step)
    ensures Apply(s, step).done == if step.Return? then s.done + [Finished(s, step)] else s.done
  {
    hide Wake, WakeAll, LegalSignal;
  }

  lemma StepKeepsHeld(s: State, step: Step)
    requires Enabled(s, step) && multiset(s.pulled) == Held(s.pcs) + multiset(s.done)
    ensures var t := Apply(s, step); multiset(t.pulled) == Held(t.pcs) + multiset(t.done)
  {
    QueueFields(s, step);
    DoneField(s, step);
    StepHolds(s, step);
    hide Apply, Enabled, Held;
    var t := Apply(s, step);
    if TakesJob(s, step) {
      assert multiset(t.pulled) == multiset(s.pulled) + multiset{s.queue[0]};
    } else if step.Return? {
      assert multiset(t.done) == multiset(s.done) + multiset{Finished(s, step)};
    }
  }

  lemma StepKeepsFifo(s: State, step: Step)
    requires Enabled(s, step) && FifoInv(s) && PhaseInv(s)
    ensures FifoInv(Apply(s, step))
  {
    StepKeepsOrder(s, step);
    StepKeepsHeld(s, step);
    hide Apply;
  }

  /** A worker that is not the actor and not asleep stays where it is. */
  lemma OthersStay(s: State, step: Step, k: nat)
    requires Enabled(s, step) && k < |s.pcs| && k != Actor(step)
    ensures k < |Apply(s, step).pcs|
    ensures s.pcs[k] != Blocked ==> Apply(s, step).pcs[k] == s.pcs[k]
    ensures s.pcs[k] == Blocked ==> Apply(s, step).pcs[k] == Blocked || Apply(s, step).pcs[k] == Signalled
  {
    StepShape(s, step);
  }

  lemma StepKeepsQueueWatched(s: State, step: Step)
    requires Enabled(s, step) && NoLostWakeup(s) && MutexInv(s) && PhaseInv(s)
    ensures var t := Apply(s, step);
            t.keepalive && t.queue != [] && t.v != 1 && t.holder == Free ==> SomeInBetween(t.pcs)
  {
    var t := Apply(s, step);
    if t.keepalive && t.queue != [] && t.v != 1 && t.holder == Free {
      if step.Wait? && s.v == 1 {
        assert InBetween(t.pcs[step.i]);
      } else if step.Recheck? || step.Count? {
        assert InBetween(t.pcs[step.i]);
      } else {
        assert !step.Pull? && s.queue != [] && s.v != 1 && s.holder == Free;
        var k: nat :| k < |s.pcs| && InBetween(s.pcs[k]);
        OthersStay(s, step, k);
        assert InBetween(t.pcs[k]);
      }
    }
  }

  lemma StepKeepsSleepersCovered(s: State, step: Step)
    requires Enabled(s, step) && NoLostWakeup(s) && MutexInv(s) && PhaseInv(s)
    ensures var t := Apply(s, step); t.v == 1 && AnyBlocked(t.pcs) ==> SomeSignalled(t.pcs)
  {
    var t := Apply(s, step);
    if t.v == 1 && AnyBlocked(t.pcs) {
      var b: nat :| b < |t.pcs| && IsBlocked(t.pcs, b);
      StepShape(s, step);
      if step.Wait? {
      } else {
        assert s.pcs[b] == Blocked && IsBlocked(s.pcs, b);
        if step.PullPost? || step.PushPost? {
          var k: nat :| k in step.woken;
          assert IsBlocked(s.pcs, k);
          assert t.pcs[k] == Signalled;
        } else if step.Spurious? {
          assert t.pcs[step.i] == Signalled;
        } else {
          assert s.v == 1;
          var k: nat :| k < |s.pcs| && s.pcs[k] == Signalled;
          OthersStay(s, step, k);
          assert t.pcs[k] == Signalled;
        }
      }
    }
  }

  lemma StepKeepsWakeup(s: State, step: Step)
    requires Enabled(s, step) && NoLostWakeup(s) && MutexInv(s) && PhaseInv(s)
    ensures NoLostWakeup(Apply(s, step))
  {
    StepKeepsQueueWatched(s, step);
    StepKeepsSleepersCovered(s, step);
  }

  /** Every step keeps the whole invariant, so it holds in every reachable state. */
  lemma StepKeepsInv(s: State, step: Step)
    requires Enabled(s, step) && Inv(s)
    ensures Inv(Apply(s, step))
  {
    StepKeepsWakeup(s, step);
    StepKeepsMutex(s, step);
    StepKeepsCounts(s, step);
    StepKeepsPhase(s, step);
    StepKeepsFifo(s, step);
  }

  lemma {:induction false} RunKeepsInv(s: State, steps: seq<Step>, t: State)
    requires Run(s, steps, t) && Inv(s)
    ensures Inv(t) && |t.pcs| == |s.pcs|
    decreases |steps|
  {
    if steps != [] {
      StepKeepsInv(s, steps[0]);
      StepShape(s, steps[0]);
      hide Inv, Enabled, Apply;
      RunKeepsInv(Apply(s, steps[0]), steps[1..], t);
    }
  }

  lemma ReachableInv(s: State)
    requires Reachable(s)
    ensures Inv(s)
  {
    var n: nat, steps: seq<Step> :| Run(Initial(n), steps, s);
    InitialInv(n);
    RunKeepsInv(Initial(n), steps, s);
  }

  /* ------------------------------- consequences ---------------------------- */

  /** With work queued, keepalive set and no push under way, the workers are never all asleep. */
  lemma NeverAllAsleep(s: State)
    requires Reachable(s) && s.keepalive && s.queue != [] && s.client != Pushing && s.pcs != []
    ensures exists i :: 0 <= i < |s.pcs| && s.pcs[i] != Blocked
  {
    ReachableInv(s);
    if forall i | 0 <= i < |s.pcs| :: s.pcs[i] == Blocked {
      assert s.pcs[0] == Blocked;
      assert IsBlocked(s.pcs, 0);
      assert AnyBlocked(s.pcs);
    }
  }

  lemma {:induction false} HeldContains(pcs: seq<Pc>, i: nat)
    requires i < |pcs| && Holds(pcs[i])
    ensures Held(pcs)[pcs[i].job] >= 1
  {
    if i > 0 { HeldContains(pcs[1..], i - 1); }
  }

  lemma {:induction false} HeldTwice(pcs: seq<Pc>, i: nat, j: nat)
    requires i < j < |pcs| && Holds(pcs[i]) && Holds(pcs[j])
    ensures pcs[i].job == pcs[j].job ==> Held(pcs)[pcs[i].job] >= 2
  {
    if i == 0 {
      HeldContains(pcs[1..], j - 1);
    } else {
      HeldTwice(pcs[1..], i - 1, j - 1);
    }
  }

  lemma {:induction false} CountOnce<T>(s: seq<T>, x: T)
    requires forall i, j | 0 <= i < j < |s| :: s[i] != s[j]
    ensures multiset(s)[x] <= 1
  {
    if s != [] {
      assert s == [s[0]] + s[1..];
      CountOnce(s[1..], x);
      if x == s[0] { assert x !in s[1..]; }
    }
  }

  lemma {:induction false} CountTwice<T>(s: seq<T>, i: nat, j: nat)
    requires i < j < |s| && s[i] == s[j]
    ensures multiset(s)[s[i]] >= 2
  {
    assert s == s[..j] + [s[j]] + s[j + 1..];
    assert s[..j][i] == s[i];
  }

  /** Each pulled job is held by one worker or finished once, never both and never twice. */
  lemma PulledOnce(s: State, job: Job)
    requires Reachable(s)
    ensures Held(s.pcs)[job] + multiset(s.done)[job] <= 1
    ensures Held(s.pcs)[job] + multiset(s.done)[job] == 1 <==> job in s.pulled
  {
    ReachableInv(s);
    forall i, j | 0 <= i < j < |s.pulled|
      ensures s.pulled[i] != s.pulled[j]
    {
      assert s.pulled[i] == s.pushed[i] && s.pulled[j] == s.pushed[j];
    }
    CountOnce(s.pulled, job);
    assert multiset(s.pulled)[job] == Held(s.pcs)[job] + multiset(s.done)[job];
    assert job in multiset(s.pulled) <==> job in s.pulled;
  }

  /** No job runs twice: not at the same time, not again later. */
  lemma NoJobRunsTwice(s: State)
    requires Reachable(s)
    ensures forall i, j | 0 <= i < j < |s.pcs| && s.pcs[i].Running? && s.pcs[j].Running? ::
              s.pcs[i].job != s.pcs[j].job
    ensures forall i | 0 <= i < |s.pcs| && s.pcs[i].Running? :: s.pcs[i].job !in s.done
    ensures forall i, j | 0 <= i < j < |s.done| :: s.done[i] != s.done[j]
  {
    forall i, j | 0 <= i < j < |s.pcs| && s.pcs[i].Running? && s.pcs[j].Running?
      ensures s.pcs[i].job != s.pcs[j].job
    {
      PulledOnce(s, s.pcs[i].job);
      HeldTwice(s.pcs, i, j);
    }
    forall i | 0 <= i < |s.pcs| && s.pcs[i].Running?
      ensures s.pcs[i].job !in s.done
    {
      var job := s.pcs[i].job;
      PulledOnce(s, job);
      HeldContains(s.pcs, i);
      assert multiset(s.done)[job] == 0;
    }
    forall i, j | 0 <= i < j < |s.done|
      ensures s.done[i] != s.done[j]
    {
      PulledOnce(s, s.done[i]);
      if s.done[i] == s.done[j] { CountTwice(s.done, i, j); }
    }
  }

  /* -------------------------------- shutdown ------------------------------- */

  function ClientRank(c: Client): nat {
    match c case Destroyed => 0 case Clearing => 1 case _ => 2
  }

  /** What is left to do once thpool_destroy has begun. */
  function Work(s: State): nat {
    2 * SumRank(s.pcs) + 2 * |s.queue| + 2 * ClientRank(s.client) + (if s.v == 1 then 0 else 1)
  }

  lemma ActorRank(s: State, step: Step)
    requires Enabled(s, step) && Actor(step) >= 0 && !s.keepalive
    ensures Actor(step) < |s.pcs| && Rank(NewPc(s, step)) <= Rank(s.pcs[Actor(step)])
    ensures !step.Spurious? && !(step.Wait? && s.v != 1) ==> Rank(NewPc(s, step)) < Rank(s.pcs[Actor(step)])
  {
  }

  lemma ShutdownWorkerStep(s: State, step: Step)
    requires Enabled(s, step) && !s.keepalive && Actor(step) >= 0
    ensures var t := Apply(s, step);
            && !t.keepalive && t.client == s.client && |t.queue| <= |s.queue|
            && ((step.Wait? && s.v == 1) || t.v == s.v || t.v == 1)
  {
    hide Wake, WakeAll, LegalSignal;
  }

  lemma ShutdownClientStep(s: State, step: Step)
    requires Enabled(s, step) && PhaseInv(s) && !s.keepalive && Actor(step) < 0
    ensures var t := Apply(s, step);
            && !t.keepalive && |t.queue| <= |s.queue| && ClientRank(t.client) <= ClientRank(s.client)
            && (step.PostAll? ==> t.v == 1)
            && (!step.PostAll? ==> |t.queue| < |s.queue| || ClientRank(t.client) < ClientRank(s.client))
            && (step.ClearPull? ==> t.v == s.v || t.v == 1)
  {
    hide Wake, WakeAll, LegalSignal;
  }

  /** During shutdown no step of any thread, helpful or not, adds work; and every step but a
      sleeper's fruitless wake-up and a repeated broadcast removes some. */
  lemma ShutdownNeverAddsWork(s: State, step: Step)
    requires Enabled(s, step) && Inv(s) && !s.keepalive
    ensures !Apply(s, step).keepalive && Work(Apply(s, step)) <= Work(s)
    ensures !step.Spurious? && !(step.Wait? && s.v != 1) && !(step.PostAll? && s.v == 1) ==>
              Work(Apply(s, step)) < Work(s)
  {
    StepSums(s, step);
    if Actor(step) >= 0 {
      ActorMoves(s, step);
      ActorRank(s, step);
      ShutdownWorkerStep(s, step);
    } else {
      ShutdownClientStep(s, step);
    }
    hide Apply, Enabled, SumRank, Rank, NewPc, Inv;
  }

  /** A worker that can move without waiting for anybody. */
  predicate Unhindered(pc: Pc) {
    pc == Starting || pc == LoopTest || pc == Woken || pc == Counting || pc.Running? || pc == Uncounting
    || pc == Leaving
  }

  function OwnStep(s: State, i: nat): Step
    requires i < |s.pcs|
  {
    match s.pcs[i]
    case Starting => Start(i) case LoopTest => Test(i) case Woken => Recheck(i) case Counting => Count(i)
    case Running(_) => Return(i) case Uncounting => Uncount(i) case Pulling => Pull(i)
    case AtWait => Wait(i) case Signalled => Wait(i) case Leaving => Leave(i)
    case Posting(_) => PullPost(i, Blockers(s.pcs)) case Blocked => Spurious(i) case Gone => Leave(i)
  }

  /** All blocked workers: a legal choice for a signal. */
  function Blockers(pcs: seq<Pc>): set<nat> {
    set i: nat | i < |pcs| && pcs[i] == Blocked
  }

  lemma BlockersAreLegal(pcs: seq<Pc>)
    ensures LegalSignal(pcs, Blockers(pcs))
  {
    if AnyBlocked(pcs) {
      var i: nat :| i < |pcs| && IsBlocked(pcs, i);
      assert i in Blockers(pcs);
    }
  }

  lemma HolderIsPosting(s: State)
    requires MutexInv(s)
    ensures s.holder.ByWorker? ==> s.holder.i < |s.pcs| && s.pcs[s.holder.i].Posting?
  {
  }

  /** A step that is neither a fruitless wake-up nor a repeated broadcast. */
  predicate Helpful(s: State, step: Step) {
    Enabled(s, step) && !step.Spurious? && !(step.Wait? && s.v != 1) && !(step.PostAll? && s.v == 1)
  }

  predicate Waiting(pc: Pc) { pc == AtWait || pc == Blocked || pc == Signalled }

  /** When every worker still inside waits for the semaphore, the broadcast or one of them
      helps. */
  lemma WaitersAreReleased(s: State) returns (step: Step)
    requires NoLostWakeup(s) && CountInv(s) && s.client == Destroying
    requires forall i | 0 <= i < |s.pcs| :: s.pcs[i] == Gone || Waiting(s.pcs[i])
    ensures Helpful(s, step)
  {
    CountAliveZero(s.pcs);
    if s.alive == 0 {
      step := AllLeft;
    } else if s.v != 1 {
      step := PostAll;
    } else {
      var i: nat :| i < |s.pcs| && IsAlive(s.pcs[i]);
      if s.pcs[i] == Blocked {
        assert IsBlocked(s.pcs, i);
        var k: nat :| k < |s.pcs| && s.pcs[k] == Signalled;
        step := Wait(k);
      } else {
        step := Wait(i);
      }
    }
  }

  /** Until everything is released some helpful step is always enabled. */
  lemma ShutdownIsNeverStuck(s: State) returns (step: Step)
    requires Inv(s) && !s.keepalive && s.client != Destroyed
    ensures Helpful(s, step)
  {
    BlockersAreLegal(s.pcs);
    HolderIsPosting(s);
    if s.client == Clearing {
      step := if s.queue == [] then ClearDone else ClearPull;
    } else if i: nat :| i < |s.pcs| && (Unhindered(s.pcs[i]) || s.pcs[i].Posting?) {
      step := OwnStep(s, i);
    } else if i: nat :| i < |s.pcs| && s.pcs[i] == Pulling {
      step := Pull(i);
    } else {
      step := WaitersAreReleased(s);
    }
  }

  /** thpool_destroy can always be completed, in at most Work(s) steps. */
  lemma {:induction false} ShutdownTerminates(s: State) returns (steps: seq<Step>, t: State)
    requires Inv(s) && !s.keepalive
    ensures Run(s, steps, t) && |steps| <= Work(s)
    ensures t.client == Destroyed && t.queue == [] && forall i | 0 <= i < |t.pcs| :: t.pcs[i] == Gone
    decreases Work(s)
  {
    if s.client == Destroyed {
      steps, t := [], s;
    } else {
      var step := ShutdownIsNeverStuck(s);
      ShutdownNeverAddsWork(s, step);
      StepKeepsInv(s, step);
      var rest;
      rest, t := ShutdownTerminates(Apply(s, step));
      steps := [step] + rest;
      assert steps[1..] == rest;
    }
  }

  /** Clearing starts only after the last worker has left, and takes one pull per queued job. */
  lemma ClearingIsAlone(s: State)
    requires Reachable(s) && (s.client == Clearing || s.client == Destroyed)
    ensures s.alive == 0 && s.working == 0 && forall i | 0 <= i < |s.pcs| :: s.pcs[i] == Gone
    ensures s.pushed == s.pulled + s.cleared + s.queue
    ensures multiset(s.pulled) == multiset(s.done)
  {
    ReachableInv(s);
    CountAliveZero(s.pcs);
    GoneHoldNothing(s.pcs);
  }

  lemma {:induction false} GoneHoldNothing(pcs: seq<Pc>)
    requires forall i | 0 <= i < |pcs| :: pcs[i] == Gone
    ensures Held(pcs) == multiset{} && CountWorking(pcs) == 0
  {
    if pcs != [] { GoneHoldNothing(pcs[1..]); }
  }

  /* -------------------------------- progress ------------------------------- */

  /** Distance of a worker from its next pull. */
  function Distance(pc: Pc): nat {
    match pc
    case Pulling => 0 case Counting => 1 case Woken => 2 case AtWait => 3 case Signalled => 3
    case LoopTest => 4 case Uncounting => 5 case Running(_) => 6 case Posting(_) => 7
    case Starting => 5 case Blocked => 9 case Leaving => 9 case Gone => 9
  }

  /** A worker that will reach the queue by its own steps. */
  predicate OnItsWay(s: State, i: nat) {
    && i < |s.pcs| && Distance(s.pcs[i]) < 9
    && (s.v == 1 || InBetween(s.pcs[i]))
  }

  /** The oldest job, and nothing else, has moved from the queue to a worker. */
  predicate Pulled(s: State, t: State)
    requires s.queue != []
  {
    t.keepalive && t.pulled == s.pulled + [s.queue[0]] && t.queue == s.queue[1..]
  }

  lemma OwnStepApproaches(s: State, i: nat)
    requires s.keepalive && s.queue != [] && s.holder == Free && MutexInv(s) && OnItsWay(s, i)
    ensures var step := OwnStep(s, i);
            && Enabled(s, step) && Actor(step) == i
            && (var t := Apply(s, step);
                if s.pcs[i] == Pulling then Pulled(s, t)
                else t.keepalive && t.queue == s.queue && t.holder == Free && OnItsWay(t, i)
                     && t.pulled == s.pulled && Distance(t.pcs[i]) < Distance(s.pcs[i]))
  {
    assert !s.pcs[i].Posting?;
  }

  /** Its own steps take such a worker to the pull of the oldest job. */
  lemma {:induction false} WorkerReachesQueue(s: State, i: nat) returns (steps: seq<Step>, t: State)
    requires s.keepalive && s.queue != [] && s.holder == Free && MutexInv(s) && OnItsWay(s, i)
    ensures Run(s, steps, t) && 0 < |steps| <= Distance(s.pcs[i]) + 1
    ensures forall k | 0 <= k < |steps| :: Actor(steps[k]) == i
    ensures Pulled(s, t)
    decreases Distance(s.pcs[i])
  {
    var step := OwnStep(s, i);
    OwnStepApproaches(s, i);
    StepKeepsMutex(s, step);
    hide Apply, Enabled, OwnStep, MutexInv, Actor;
    var r := Apply(s, step);
    if s.pcs[i] == Pulling {
      steps, t := [step], r;
      assert Run(r, steps[1..], r);
    } else {
      var rest;
      rest, t := WorkerReachesQueue(r, i);
      steps := [step] + rest;
      assert steps[1..] == rest;
    }
  }

  /** A worker that will reach the queue exists whenever there is work and nobody is posting. */
  lemma SomebodyIsOnItsWay(s: State) returns (i: nat)
    requires Inv(s) && s.keepalive && s.queue != [] && s.holder == Free && s.pcs != []
    ensures OnItsWay(s, i) && MutexInv(s)
  {
    if s.v == 1 {
      if s.pcs[0] == Blocked {
        assert IsBlocked(s.pcs, 0);
        i :| 0 <= i < |s.pcs| && s.pcs[i] == Signalled;
      } else {
        i := 0;
      }
    } else {
      i :| 0 <= i < |s.pcs| && InBetween(s.pcs[i]);
    }
  }

  /** The step that ends the post under way. */
  lemma PostEnds(s: State) returns (step: Step)
    requires Inv(s) && s.keepalive && s.holder != Free
    ensures Enabled(s, step) && (step.PushPost? || step.PullPost?)
    ensures var t := Apply(s, step);
            t.keepalive && t.queue == s.queue && t.holder == Free && t.pulled == s.pulled && |t.pcs| == |s.pcs|
  {
    BlockersAreLegal(s.pcs);
    HolderIsPosting(s);
    if s.holder.ByWorker? {
      step := PullPost(s.holder.i, Blockers(s.pcs));
    } else {
      step := PushPost(Blockers(s.pcs));
    }
  }

  lemma DistanceBound(s: State, i: nat)
    requires OnItsWay(s, i)
    ensures i < |s.pcs| && Distance(s.pcs[i]) <= 7
  {
  }

  /** Steps that add no work and do not begin the shutdown. */
  predicate NoNewWork(steps: seq<Step>) {
    forall k | 0 <= k < |steps| :: !steps[k].Push? && !steps[k].Destroy?
  }

  /** A queued job is never stuck: with keepalive set and at least one worker there is a run
      of at most nine steps that pulls the oldest job, in which nobody adds work and, after a
      post under way has ended, only one worker moves. */
  lemma QueuedJobIsNeverStuck(s: State) returns (steps: seq<Step>, t: State)
    requires Inv(s) && s.keepalive && s.queue != [] && s.pcs != []
    ensures Run(s, steps, t) && 0 < |steps| <= 9 && NoNewWork(steps) && Pulled(s, t)
  {
    hide Inv, Apply, Enabled, MutexInv, OnItsWay, Distance;
    if s.holder == Free {
      var i := SomebodyIsOnItsWay(s);
      DistanceBound(s, i);
      steps, t := WorkerReachesQueue(s, i);
    } else {
      var step := PostEnds(s);
      StepKeepsInv(s, step);
      var r := Apply(s, step);
      var i := SomebodyIsOnItsWay(r);
      DistanceBound(r, i);
      var rest;
      rest, t := WorkerReachesQueue(r, i);
      steps := [step] + rest;
      assert steps[1..] == rest;
    }
  }

  lemma {:induction false} RunsCompose(s: State, a: seq<Step>, t: State, b: seq<Step>, u: State)
    requires Run(s, a, t) && Run(t, b, u)
    ensures Run(s, a + b, u)
    decreases |a|
  {
    if a == [] {
      assert a + b == b;
    } else {
      RunsCompose(Apply(s, a[0]), a[1..], t, b, u);
      assert (a + b)[1..] == a[1..] + b;
    }
  }

  /** So in every reachable state with keepalive set the whole queue can be worked off, in
      queue order, in at most nine steps a job, whatever the workers are doing. */
  lemma QueueCanBeWorkedOff(s: State) returns (steps: seq<Step>, t: State)
    requires Reachable(s) && s.keepalive && s.pcs != []
    ensures Run(s, steps, t) && |steps| <= 9 * |s.queue| && NoNewWork(steps)
    ensures t.queue == [] && t.pulled == s.pulled + s.queue
  {
    ReachableInv(s);
    steps, t := WorkOff(s);
  }

  lemma {:induction false} WorkOff(s: State) returns (steps: seq<Step>, t: State)
    requires Inv(s) && s.keepalive && s.pcs != []
    ensures Run(s, steps, t) && |steps| <= 9 * |s.queue| && NoNewWork(steps)
    ensures t.queue == [] && t.pulled == s.pulled + s.queue
    decreases |s.queue|
  {
    if s.queue == [] {
      steps, t := [], s;
    } else {
      var first, r := QueuedJobIsNeverStuck(s);
      RunKeepsInv(s, first, r);
      hide Run, Inv;
      var rest;
      rest, t := WorkOff(r);
      RunsCompose(s, first, r, rest, t);
      steps := first + rest;
      TakeFirst(s.pulled, s.queue);
    }
  }

  lemma TakeFirst(a: seq<Job>, q: seq<Job>)
    requires q != []
    ensures (a + [q[0]]) + q[1..] == a + q
  {
  }

  /* ------------------------------- every run ------------------------------- */

  /** How many steps of a run are helpful. */
  ghost function HelpfulSteps(s: State, steps: seq<Step>): nat
    decreases |steps|
  {
    if steps == [] || !Enabled(s, steps[0]) then 0
    else One(Helpful(s, steps[0])) + HelpfulSteps(Apply(s, steps[0]), steps[1..])
  }

  /** In every run of the shutdown, whoever moves, at most Work(s) steps are helpful; and a run
      that leaves no helpful step has released everything. */
  lemma {:induction false} EveryShutdownEnds(s: State, steps: seq<Step>, t: State)
    requires Inv(s) && !s.keepalive && Run(s, steps, t)
    ensures HelpfulSteps(s, steps) + Work(t) <= Work(s)
    ensures (forall step :: !Helpful(t, step)) ==>
              t.client == Destroyed && t.queue == [] && forall i | 0 <= i < |t.pcs| :: t.pcs[i] == Gone
    decreases |steps|
  {
    if steps == [] {
      if s.client != Destroyed {
        var step := ShutdownIsNeverStuck(s);
      }
    } else {
      ShutdownNeverAddsWork(s, steps[0]);
      StepKeepsInv(s, steps[0]);
      hide Work, Inv, Apply;
      EveryShutdownEnds(Apply(s, steps[0]), steps[1..], t);
    }
  }

  /** What a worker's next moves are worth while keepalive is set: a worker that has taken the
      semaphore's bit has a whole round before it, and one that is about to post gives the bit
      to another. */
  function Effort(pc: Pc): nat {
    match pc
    case AtWait => 0 case Blocked => 0 case Signalled => 0 case Leaving => 0 case Gone => 0
    case LoopTest => 1 case Starting => 2 case Uncounting => 2 case Running(_) => 3 case Pulling => 3
    case Counting => 4 case Woken => 5 case Posting(_) => 10
  }

  function SumEffort(pcs: seq<Pc>): nat {
    if pcs == [] then 0 else Effort(pcs[0]) + SumEffort(pcs[1..])
  }

  function ClientEffort(c: Client): nat {
    match c case Init => 1 case Pushing => 7 case _ => 0
  }

  /** What is left to do until all workers sleep and the queue is empty, if no work is added. */
  function Busy(s: State): nat {
    SumEffort(s.pcs) + 8 * |s.queue| + (if s.v == 1 then 6 else 0) + ClientEffort(s.client)
  }

  lemma {:induction false} UpdateEffort(pcs: seq<Pc>, i: nat, pc: Pc)
    requires i < |pcs|
    ensures SumEffort(pcs[i := pc]) + Effort(pcs[i]) == SumEffort(pcs) + Effort(pc)
  {
    var r := pcs[i := pc];
    if i == 0 {
      assert r[1..] == pcs[1..];
    } else {
      assert r[1..] == pcs[1..][i - 1 := pc];
      UpdateEffort(pcs[1..], i - 1, pc);
    }
  }

  lemma {:induction false} WakeEffort(pcs: seq<Pc>, r: seq<Pc>)
    requires |r| == |pcs|
    requires forall i | 0 <= i < |pcs| :: r[i] == pcs[i] || (pcs[i] == Blocked && r[i] == Signalled)
    ensures SumEffort(r) == SumEffort(pcs)
  {
    if pcs != [] {
      assert r[0] == pcs[0] || (pcs[0] == Blocked && r[0] == Signalled);
      WakeEffort(pcs[1..], r[1..]);
    }
  }

  lemma StepEffort(s: State, step: Step)
    requires Enabled(s, step)
    ensures var t, i := Apply(s, step), Actor(step);
            && |t.pcs| == |s.pcs| && i < |s.pcs|
            && (i < 0 ==> SumEffort(t.pcs) == SumEffort(s.pcs))
            && (i >= 0 ==> SumEffort(t.pcs) + Effort(s.pcs[i]) == SumEffort(s.pcs) + Effort(t.pcs[i]))
  {
    StepShape(s, step);
    var t, w, i := Apply(s, step), Woke(s, step), Actor(step);
    hide Apply, Enabled, Woke, Actor, Effort;
    WakeEffort(s.pcs, w);
    if i >= 0 { UpdateEffort(w, i, t.pcs[i]); }
  }

  /** A step of a worker or the client that is neither a push nor the start of the shutdown. */
  predicate Productive(s: State, step: Step) {
    Helpful(s, step) && !step.Push? && !step.Destroy?
  }

  lemma WorkerEffort(s: State, step: Step)
    requires Enabled(s, step) && s.keepalive && MutexInv(s) && PhaseInv(s) && Actor(step) >= 0
    ensures var t, i := Apply(s, step), Actor(step);
            && i < |s.pcs| == |t.pcs| && t.keepalive && t.client == s.client
            && (var before := Effort(s.pcs[i]) + 8 * |s.queue| + (if s.v == 1 then 6 else 0);
                var after := Effort(t.pcs[i]) + 8 * |t.queue| + (if t.v == 1 then 6 else 0);
                after <= before && (Productive(s, step) ==> after < before))
  {
    ActorMoves(s, step);
    hide Wake, WakeAll, LegalSignal;
  }

  lemma ClientEfforts(s: State, step: Step)
    requires Enabled(s, step) && s.keepalive && PhaseInv(s) && Actor(step) < 0 && !step.Push? && !step.Destroy?
    ensures var t := Apply(s, step);
            && t.keepalive && |t.queue| == |s.queue|
            && ClientEffort(t.client) + (if t.v == 1 then 6 else 0) < ClientEffort(s.client) + (if s.v == 1 then 6 else 0)
  {
    hide Wake, WakeAll, LegalSignal;
  }

  lemma QuietStep(s: State, step: Step)
    requires Enabled(s, step) && Inv(s) && s.keepalive && !step.Push? && !step.Destroy?
    ensures Apply(s, step).keepalive && Busy(Apply(s, step)) <= Busy(s)
    ensures Helpful(s, step) ==> Busy(Apply(s, step)) < Busy(s)
    ensures Apply(s, step).pushed == s.pushed && |Apply(s, step).pcs| == |s.pcs|
  {
    StepEffort(s, step);
    QueueFields(s, step);
    if Actor(step) >= 0 { WorkerEffort(s, step); } else { ClientEfforts(s, step); }
    hide Apply, Enabled, SumEffort, Effort, Helpful;
  }

  /** While jobs are queued some productive step is enabled. */
  lemma QueueIsNeverStuck(s: State) returns (step: Step)
    requires Inv(s) && s.keepalive && s.queue != [] && s.pcs != []
    ensures Productive(s, step)
  {
    if s.holder == Free {
      var i := SomebodyIsOnItsWay(s);
      OwnStepApproaches(s, i);
      step := OwnStep(s, i);
    } else {
      step := PostEnds(s);
    }
  }

  /** In every run in which no work is added and the shutdown does not begin, whoever moves, at
      most Busy(s) steps are helpful; and a run that leaves no productive step has pulled the
      whole queue, in order. */
  lemma {:induction false} EveryRunDrainsQueue(s: State, steps: seq<Step>, t: State)
    requires Inv(s) && s.keepalive && s.pcs != [] && Run(s, steps, t) && NoNewWork(steps)
    ensures t.keepalive && HelpfulSteps(s, steps) + Busy(t) <= Busy(s)
    ensures t.pulled + t.queue == s.pulled + s.queue
    ensures (forall step :: !Productive(t, step)) ==> t.queue == []
    decreases |steps|
  {
    if steps == [] {
      if s.queue != [] {
        var step := QueueIsNeverStuck(s);
      }
    } else {
      var r := Apply(s, steps[0]);
      QuietStep(s, steps[0]);
      StepKeepsInv(s, steps[0]);
      KeptInOrder(s);
      KeptInOrder(r);
      hide Busy, Inv, Apply;
      EveryRunDrainsQueue(r, steps[1..], t);
    }
  }

  lemma KeptInOrder(s: State)
    requires Inv(s) && s.keepalive
    ensures s.pushed == s.pulled + s.queue
  {
    assert s.cleared == [];
  }
}

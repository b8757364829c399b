/**
  The linked job queue of import/thpool.c: `jobqueue_push`, `jobqueue_pull`, `jobqueue_clear`,
  and the binary semaphore that the first two post.

  This file is about one call at a time, under `rwmutex`.  Interleavings are in ThreadPool.
 */
module JobQueue {

  /** `struct job`; `prev` points to the job pushed after this one. */
  class Job {
    var prev: Job?
    const fn: nat
    const arg: int
    const priority: int

    constructor (fn: nat, arg: int, priority: int)
      ensures this.fn == fn && this.arg == arg && this.priority == priority
    {
      this.fn, this.arg, this.priority := fn, arg, priority;
      prev := null;
    }
  }

  /** `struct bsem`, as far as a single thread sees it. */
  class BinarySemaphore {
    var v: int

    constructor (value: int)
      requires 0 <= value <= 1
      ensures v == value
    {
      v := value;
    }

    method Post()
      modifies this
      ensures v == 1
    {
      v := 1;
    }

    method Reset()
      modifies this
      ensures v == 0
    {
      v := 0;
    }
  }

  class Queue {
    var front: Job?
    var rear: Job?
    var len: nat
    const hasJobs: BinarySemaphore

    /** The queued jobs, the next one to be pulled first. */
    ghost var jobs: seq<Job>

    ghost predicate Valid()
      reads this, jobs
    {
      && len == |jobs|
      && (forall i, j | 0 <= i < j < |jobs| :: jobs[i] != jobs[j])
      && (if jobs == [] then front == null && rear == null
          else front == jobs[0] && rear == jobs[|jobs| - 1] && rear.prev == null)
      && (forall i | 0 <= i < |jobs| - 1 :: jobs[i].prev == jobs[i + 1])
    }

    constructor (sem: BinarySemaphore)
      ensures Valid() && jobs == [] && hasJobs == sem
    {
      front, rear, len := null, null, 0;
      hasJobs := sem;
      jobs := [];
    }

    /** `jobqueue_push`: FIFO append, then one post. */
    method Push(job: Job)
      requires Valid() && job !in jobs
      modifies this, job, jobs, hasJobs
      ensures Valid() && jobs == old(jobs) + [job] && hasJobs.v == 1
    {
      job.prev := null;
      if len == 0 {
        front := job;
        rear := job;
      } else {
        rear.prev := job;
        rear := job;
      }
      len := len + 1;
      jobs := jobs + [job];
      assert forall i | 0 <= i < |jobs| - 1 :: jobs[i] != job;
      hasJobs.Post();
    }

    /** `jobqueue_pull`: the oldest job, or NULL; a post exactly when jobs remain. */
    method Pull() returns (job: Job?)
      requires Valid()
      modifies this, hasJobs
      ensures Valid()
      ensures old(jobs) == [] ==> job == null && jobs == [] && hasJobs.v == old(hasJobs.v)
      ensures old(jobs) != [] ==> job == old(jobs)[0] && jobs == old(jobs)[1..]
      ensures old(jobs) != [] ==> hasJobs.v == if jobs != [] then 1 else old(hasJobs.v)
    {
      job := front;
      if len == 0 {
      } else if len == 1 {
        front := null;
        rear := null;
        len := 0;
        jobs := [];
      } else {
        ghost var before := jobs;
        front := job.prev;
        len := len - 1;
        jobs := before[1..];
        hasJobs.Post();
      }
    }

    /** `jobqueue_clear`: pulls until the queue is empty, once per queued job, handing each
        job back to the memory pool in queue order. */
    method Clear() returns (released: seq<Job>)
      requires Valid()
      modifies this, hasJobs
      ensures Valid() && jobs == [] && hasJobs.v == 0
      ensures released == old(jobs)
    {
      released := [];
      ghost var all := jobs;
      while len != 0
        invariant Valid() && |released| <= |all|
        invariant released == all[..|released|] && jobs == all[|released|..]
        decreases len
      {
        var job := Pull();
        assert job == all[|released|];
        released := released + [job];
      }
      front := null;
      rear := null;
      hasJobs.Reset();
      len := 0;
    }
  }
}

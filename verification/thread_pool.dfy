/**
 * The thread pool of src/thread.c: at most so many threads run, further jobs wait in a queue, and a
 * thread that ends a job takes the next one from the queue or ends.
 *
 * Jobs are numbered as they are submitted.  What is done under the lock of the queue is one step; a
 * thread is started outside of it.
 */
module ThreadPool {
  import opened Wrappers

  type Job = int

  datatype Thread =
    | Starting(job: Job)   // counted, not yet created
    | Running(job: Job)
    | Polling              // between two jobs
    | Gone

  datatype Pool = Pool(maxThreads: int, numThreads: int, queue: seq<Job>, threads: seq<Thread>, next: Job, finished: seq<Job>)

  datatype Step = Submit | Begin(t: nat) | Finish(t: nat) | Poll(t: nat)

  predicate Enabled(p: Pool, step: Step) {
    match step
    case Submit => true
    case Begin(t) => t < |p.threads| && p.threads[t].Starting?
    case Finish(t) => t < |p.threads| && p.threads[t].Running?
    case Poll(t) => t < |p.threads| && p.threads[t].Polling?
  }

  function Apply(p: Pool, step: Step): Pool
    requires Enabled(p, step)
  {
    match step
    case Submit =>
      if p.numThreads >= p.maxThreads then p.(queue := p.queue + [p.next], next := p.next + 1)
      else p.(numThreads := p.numThreads + 1, threads := p.threads + [Starting(p.next)], next := p.next + 1)
    case Begin(t) => p.(threads := p.threads[t := Running(p.threads[t].job)])
    case Finish(t) => p.(threads := p.threads[t := Polling], finished := p.finished + [p.threads[t].job])
    case Poll(t) =>
      if p.queue == [] then p.(numThreads := p.numThreads - 1, threads := p.threads[t := Gone])
      else p.(queue := p.queue[1..], threads := p.threads[t := Running(p.queue[0])])
  }

  // ----- counting threads and jobs -----

  function Live(ts: seq<Thread>): nat {
    if ts == [] then 0 else (if ts[0].Gone? then 0 else 1) + Live(ts[1..])
  }

  /** How often a job is in the hands of a thread. */
  function Holding(t: Thread, j: Job): nat {
    if (t.Starting? || t.Running?) && t.job == j then 1 else 0
  }

  function Held(ts: seq<Thread>, j: Job): nat {
    if ts == [] then 0 else Holding(ts[0], j) + Held(ts[1..], j)
  }

  function Count(s: seq<Job>, j: Job): nat {
    if s == [] then 0 else (if s[0] == j then 1 else 0) + Count(s[1..], j)
  }

  function Weight(t: Thread): nat {
    match t
    case Starting(_) => 3
    case Running(_) => 2
    case Polling => 1
    case Gone => 0
  }

  function Weights(ts: seq<Thread>): nat {
    if ts == [] then 0 else Weight(ts[0]) + Weights(ts[1..])
  }

  lemma {:induction false} LiveReplaced(ts: seq<Thread>, t: nat, x: Thread)
    requires t < |ts|
    ensures Live(ts[t := x]) + (if ts[t].Gone? then 0 else 1) == Live(ts) + if x.Gone? then 0 else 1
    ensures Weights(ts[t := x]) + Weight(ts[t]) == Weights(ts) + Weight(x)
  {
    var us := ts[t := x];
    hide Weight;
    if t == 0 {
      assert us[1..] == ts[1..];
    } else {
      assert us[1..] == ts[1..][t - 1 := x];
      LiveReplaced(ts[1..], t - 1, x);
    }
  }

  lemma {:induction false} HeldReplaced(ts: seq<Thread>, t: nat, x: Thread, j: Job)
    requires t < |ts|
    ensures Held(ts[t := x], j) + Holding(ts[t], j) == Held(ts, j) + Holding(x, j)
  {
    var us := ts[t := x];
    hide Holding;
    if t == 0 {
      assert us[1..] == ts[1..];
    } else {
      assert us[1..] == ts[1..][t - 1 := x];
      HeldReplaced(ts[1..], t - 1, x, j);
    }
  }

  lemma {:induction false} LiveAdded(ts: seq<Thread>, job: Job)
    ensures Live(ts + [Starting(job)]) == Live(ts) + 1
  {
    if ts == [] {
      assert ts + [Starting(job)] == [Starting(job)];
    } else {
      assert (ts + [Starting(job)])[1..] == ts[1..] + [Starting(job)];
      LiveAdded(ts[1..], job);
    }
  }

  lemma {:induction false} HeldAdded(ts: seq<Thread>, x: Thread, j: Job)
    ensures Held(ts + [x], j) == Held(ts, j) + Holding(x, j)
  {
    hide Holding;
    if ts == [] {
      assert ts + [x] == [x];
    } else {
      assert (ts + [x])[1..] == ts[1..] + [x];
      HeldAdded(ts[1..], x, j);
    }
  }

  lemma {:induction false} CountAdded(s: seq<Job>, x: Job, j: Job)
    ensures Count(s + [x], j) == Count(s, j) + if x == j then 1 else 0
  {
    if s == [] {
      assert s + [x] == [x];
    } else {
      assert (s + [x])[1..] == s[1..] + [x];
      CountAdded(s[1..], x, j);
    }
  }

  lemma {:induction false} CountIn(s: seq<Job>, j: Job)
    ensures Count(s, j) > 0 <==> exists i :: 0 <= i < |s| && s[i] == j
  {
    if s != [] {
      CountIn(s[1..], j);
      assert forall i :: 1 <= i < |s| ==> s[i] == s[1..][i - 1];
      if Count(s[1..], j) > 0 {
        var i :| 0 <= i < |s[1..]| && s[1..][i] == j;
        assert s[i + 1] == j;
      }
    }
  }

  lemma {:induction false} HeldBy(ts: seq<Thread>, j: Job)
    ensures Held(ts, j) > 0 <==> exists t :: 0 <= t < |ts| && Holding(ts[t], j) == 1
  {
    if ts != [] {
      HeldBy(ts[1..], j);
      assert forall t :: 1 <= t < |ts| ==> ts[t] == ts[1..][t - 1];
      if Held(ts[1..], j) > 0 {
        var t :| 0 <= t < |ts[1..]| && Holding(ts[1..][t], j) == 1;
        assert Holding(ts[t + 1], j) == 1;
      }
    }
  }

  // ----- the invariant -----

  /** How often a job has been taken. */
  function Taken(p: Pool, j: Job): nat {
    Held(p.threads, j) + Count(p.finished, j)
  }

  /** In how many places a job is: waiting, in the hands of a thread, or done. */
  function Places(p: Pool, j: Job): nat {
    Count(p.queue, j) + Taken(p, j)
  }

  /** Every job submitted is in exactly one place. */
  ghost predicate EachOnce(p: Pool) {
    forall j: Job :: Places(p, j) == if 0 <= j < p.next then 1 else 0
  }

  /** Jobs wait in the order they were submitted, and behind every job that has been taken. */
  ghost predicate InOrder(p: Pool) {
    && (forall i, k :: 0 <= i < k < |p.queue| ==> p.queue[i] < p.queue[k])
    && (forall i :: 0 <= i < |p.queue| ==> 0 <= p.queue[i] < p.next)
    && (forall i, j :: 0 <= i < |p.queue| && p.queue[i] <= j ==> Taken(p, j) == 0)
  }

  ghost predicate Full(p: Pool) {
    && 1 <= p.maxThreads && 0 <= p.next
    && p.numThreads == Live(p.threads) <= p.maxThreads
    && (p.queue != [] ==> p.numThreads == p.maxThreads)
  }

  ghost predicate Inv(p: Pool) {
    Full(p) && EachOnce(p) && InOrder(p)
  }

  lemma SubmitKeeps(p: Pool)
    requires Inv(p)
    ensures Inv(Apply(p, Submit))
  {
    var q, new_ := Apply(p, Submit), p.next;
    LiveAdded(p.threads, new_);
    forall j: Job
      ensures Taken(q, j) == Taken(p, j) + (if q.queue == p.queue && j == new_ then 1 else 0)
      ensures Places(q, j) == Places(p, j) + if j == new_ then 1 else 0
    {
      CountAdded(p.queue, new_, j);
      HeldAdded(p.threads, Starting(new_), j);
    }
    assert Places(p, new_) == 0;
    hide Places, Live;
    assert forall j :: new_ <= j ==> Places(p, j) == 0;
    NotTaken(p);
    assert EachOnce(q);
    hide EachOnce, Taken;
  }

  lemma NotTaken(p: Pool)
    requires EachOnce(p)
    ensures forall j :: p.next <= j ==> Taken(p, j) == 0
  {
    forall j | p.next <= j
      ensures Taken(p, j) == 0
    {
      assert Places(p, j) == 0;
    }
  }

  /** A step that takes no job from the queue and loses none. */
  lemma SameTaken(p: Pool, q: Pool)
    requires Inv(p) && Full(q) && q.queue == p.queue && q.next == p.next
    requires forall j :: Taken(q, j) == Taken(p, j)
    ensures Inv(q)
  {
    assert forall j :: Places(q, j) == Places(p, j);
    hide Taken, Full;
  }

  lemma BeginKeeps(p: Pool, t: nat)
    requires Inv(p) && Enabled(p, Begin(t))
    ensures Inv(Apply(p, Begin(t)))
  {
    var q, x := Apply(p, Begin(t)), Running(p.threads[t].job);
    LiveReplaced(p.threads, t, x);
    forall j: Job
      ensures Taken(q, j) == Taken(p, j)
    {
      HeldReplaced(p.threads, t, x, j);
    }
    hide EachOnce, InOrder, Held, Live;
    SameTaken(p, q);
  }

  lemma FinishKeeps(p: Pool, t: nat)
    requires Inv(p) && Enabled(p, Finish(t))
    ensures Inv(Apply(p, Finish(t)))
  {
    var q, job := Apply(p, Finish(t)), p.threads[t].job;
    LiveReplaced(p.threads, t, Polling);
    forall j: Job
      ensures Taken(q, j) == Taken(p, j)
    {
      HeldReplaced(p.threads, t, Polling, j);
      CountAdded(p.finished, job, j);
    }
    hide EachOnce, InOrder, Held, Live;
    SameTaken(p, q);
  }

  lemma PollEmptyKeeps(p: Pool, t: nat)
    requires Inv(p) && Enabled(p, Poll(t)) && p.queue == []
    ensures Inv(Apply(p, Poll(t)))
  {
    var q := Apply(p, Poll(t));
    LiveReplaced(p.threads, t, Gone);
    forall j: Job
      ensures Taken(q, j) == Taken(p, j)
    {
      HeldReplaced(p.threads, t, Gone, j);
    }
    hide EachOnce, InOrder, Held, Live;
    SameTaken(p, q);
  }

  lemma PollKeeps(p: Pool, t: nat)
    requires Inv(p) && Enabled(p, Poll(t)) && p.queue != []
    ensures Inv(Apply(p, Poll(t)))
  {
    var q, job := Apply(p, Poll(t)), p.queue[0];
    LiveReplaced(p.threads, t, Running(job));
    forall j: Job
      ensures Taken(q, j) == Taken(p, j) + (if j == job then 1 else 0)
      ensures Places(q, j) == Places(p, j)
    {
      HeldReplaced(p.threads, t, Running(job), j);
    }
    hide Places, Live;
    assert EachOnce(q);
    hide EachOnce, Taken;
    forall i, j | 0 <= i < |q.queue| && q.queue[i] <= j
      ensures Taken(q, j) == 0
    {
      assert q.queue[i] == p.queue[i + 1] > p.queue[0];
    }
    assert forall i :: 0 <= i < |q.queue| ==> q.queue[i] == p.queue[i + 1];
  }

  lemma StepKeepsInv(p: Pool, step: Step)
    requires Inv(p) && Enabled(p, step)
    ensures Inv(Apply(p, step))
  {
    hide Inv, Apply;
    match step
    case Submit => SubmitKeeps(p);
    case Begin(t) => BeginKeeps(p, t);
    case Finish(t) => FinishKeeps(p, t);
    case Poll(t) =>
      if p.queue == [] {
        PollEmptyKeeps(p, t);
      } else {
        PollKeeps(p, t);
      }
  }

  // ----- runs -----

  function Fresh(maxThreads: int): Pool {
    Pool(maxThreads, 0, [], [], 0, [])
  }

  predicate Possible(p: Pool, steps: seq<Step>)
    decreases |steps|
  {
    steps == [] || (Enabled(p, steps[0]) && Possible(Apply(p, steps[0]), steps[1..]))
  }

  function After(p: Pool, steps: seq<Step>): Pool
    requires Possible(p, steps)
    decreases |steps|
  {
    if steps == [] then p else After(Apply(p, steps[0]), steps[1..])
  }

  lemma {:induction false} RunKeepsInv(p: Pool, steps: seq<Step>)
    requires Inv(p) && Possible(p, steps)
    ensures Inv(After(p, steps))
    decreases |steps|
  {
    hide Inv, Enabled, Apply;
    if steps != [] {
      StepKeepsInv(p, steps[0]);
      RunKeepsInv(Apply(p, steps[0]), steps[1..]);
    }
  }

  lemma FreshInv(maxThreads: int)
    requires 1 <= maxThreads
    ensures Inv(Fresh(maxThreads))
  {}

  /**
   * After any run: there are no more threads than allowed, jobs wait only if all of these run, and each
   * job submitted waits, is held by a thread, or is finished, and only one of these.
   */
  lemma EveryJobHasOnePlace(maxThreads: int, steps: seq<Step>, j: Job)
    requires 1 <= maxThreads && Possible(Fresh(maxThreads), steps)
    requires 0 <= j < After(Fresh(maxThreads), steps).next
    ensures var p := After(Fresh(maxThreads), steps);
      && p.numThreads == Live(p.threads) <= p.maxThreads
      && (p.queue != [] ==> p.numThreads == p.maxThreads)
      && var waits, held, done := j in p.queue, (exists t :: 0 <= t < |p.threads| && Holding(p.threads[t], j) == 1),
           j in p.finished;
         (waits || held || done) && !(waits && held) && !(waits && done) && !(held && done)
  {
    FreshInv(maxThreads);
    RunKeepsInv(Fresh(maxThreads), steps);
    var p := After(Fresh(maxThreads), steps);
    assert Places(p, j) == 1;
    hide After, Possible;
    HeldBy(p.threads, j);
    CountIn(p.queue, j);
    CountIn(p.finished, j);
    hide Held, Count, Live, EachOnce, InOrder;
  }

  /** A job that was submitted later is never taken while an earlier one waits. */
  lemma NoOvertaking(p: Pool, i: nat, late: Job)
    requires Inv(p) && i < |p.queue| && p.queue[i] < late < p.next
    ensures late in p.queue && Taken(p, late) == 0
  {
    assert Places(p, late) == 1;
    CountIn(p.queue, late);
  }

  // ----- no job is stranded -----

  /** How many more steps the threads will take if nothing is submitted. */
  function Rank(p: Pool): nat {
    2 * |p.queue| + Weights(p.threads)
  }

  lemma StepLowersRank(p: Pool, step: Step)
    requires Enabled(p, step) && step != Submit
    ensures Rank(Apply(p, step)) == Rank(p) - 1
  {
    LiveReplaced(p.threads, step.t, Apply(p, step).threads[step.t]);
  }

  lemma {:induction false} SomeLive(ts: seq<Thread>) returns (t: nat)
    requires Live(ts) > 0
    ensures t < |ts| && !ts[t].Gone?
  {
    if !ts[0].Gone? {
      return 0;
    }
    t := SomeLive(ts[1..]);
    t := t + 1;
  }

  lemma {:induction false} NoneHeld(ts: seq<Thread>, j: Job)
    requires Live(ts) == 0
    ensures Held(ts, j) == 0
  {
    if ts != [] {
      NoneHeld(ts[1..], j);
    }
  }

  /** As long as a job is not finished, some thread is there. */
  lemma UnfinishedHasThread(p: Pool, j: Job)
    requires Inv(p) && 0 <= j < p.next && j !in p.finished
    ensures Live(p.threads) > 0
  {
    if Live(p.threads) == 0 {
      NoneHeld(p.threads, j);
      CountIn(p.finished, j);
      CountIn(p.queue, j);
    }
    assert Places(p, j) == 1;
  }

  /** Then some thread can take a step. */
  lemma UnfinishedCanStep(p: Pool, j: Job) returns (step: Step)
    requires Inv(p) && 0 <= j < p.next && j !in p.finished
    ensures step != Submit && Enabled(p, step)
  {
    UnfinishedHasThread(p, j);
    var t := SomeLive(p.threads);
    match p.threads[t] {
      case Starting(_) => step := Begin(t);
      case Running(_) => step := Finish(t);
      case Polling => step := Poll(t);
    }
  }

  /**
   * However the threads are scheduled, they take no more than `Rank(p)` steps while nothing is submitted;
   * and when no thread can take a step, every job is finished.
   */
  lemma {:induction false} NoJobIsStranded(p: Pool, steps: seq<Step>)
    requires Inv(p) && Possible(p, steps) && Submit !in steps
    ensures |steps| <= Rank(p)
    ensures (forall step :: step != Submit ==> !Enabled(After(p, steps), step)) ==>
      forall j :: 0 <= j < After(p, steps).next ==> j in After(p, steps).finished
    decreases |steps|
  {
    if steps == [] {
      if forall step :: step != Submit ==> !Enabled(p, step) {
        forall j | 0 <= j < p.next
          ensures j in p.finished
        {
          if j !in p.finished {
            var step := UnfinishedCanStep(p, j);
            assert false;
          }
        }
      }
    } else {
      StepLowersRank(p, steps[0]);
      StepKeepsInv(p, steps[0]);
      hide Inv, Enabled, Apply, Rank;
      assert Submit !in steps[1..];
      NoJobIsStranded(Apply(p, steps[0]), steps[1..]);
    }
  }

  // ----- the functions -----

  /** num_threads, max_threads and the queue. */
  class Threads {
    const maxThreads: int
    var numThreads: int
    var queue: seq<Job>

    constructor (maxThreads: int)
      ensures this.maxThreads == maxThreads && numThreads == 0 && queue == []
    {
      this.maxThreads := maxThreads;
      numThreads := 0;
      queue := [];
    }

    /** The locked part of z_thread_new: is a thread to be created? */
    method New(job: Job, ghost p: Pool) returns (create: bool)
      requires p.maxThreads == maxThreads && p.numThreads == numThreads && p.queue == queue && p.next == job
      modifies this
      ensures var q := Apply(p, Submit);
        && numThreads == q.numThreads && queue == q.queue
        && q.threads == if create then p.threads + [Starting(job)] else p.threads
    {
      if numThreads >= maxThreads {
        queue := queue + [job];
        return false;
      }
      numThreads := numThreads + 1;
      return true;
    }

    /** The locked part of z_thread_func: the next job, or none and the thread ends. */
    method Next(ghost p: Pool, ghost t: nat) returns (job: Option<Job>)
      requires p.maxThreads == maxThreads && p.numThreads == numThreads && p.queue == queue
      requires Enabled(p, Poll(t))
      modifies this
      ensures var q := Apply(p, Poll(t));
        && numThreads == q.numThreads && queue == q.queue
        && q.threads[t] == if job.Some? then Running(job.value) else Gone
    {
      if queue == [] {
        numThreads := numThreads - 1;
        return None;
      }
      job := Some(queue[0]);
      queue := queue[1..];
    }

    /** z_thread_func on its own: it runs its job and all that wait, in order, and then is gone. */
    method Work(first: Job) returns (ran: seq<Job>)
      modifies this
      ensures ran == [first] + old(queue) && queue == [] && numThreads == old(numThreads) - 1
    {
      var self := Some(first);
      ran := [];
      while self.Some?
        invariant self.Some? ==> ran + [self.value] + queue == [first] + old(queue) && numThreads == old(numThreads)
        invariant self.None? ==> ran == [first] + old(queue) && queue == [] && numThreads == old(numThreads) - 1
        decreases |queue|, self.Some?
      {
        ran := ran + [self.value];
        if queue == [] {
          numThreads := numThreads - 1;
          self := None;
        } else {
          self := Some(queue[0]);
          assert queue == [queue[0]] + queue[1..];
          queue := queue[1..];
        }
      }
    }
  }
}

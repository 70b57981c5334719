/**
 * The on-demand thread pool of worker.cpp as a state machine. Each critical section under
 * `state->mutex` is one step, and the threads take their steps in any order.
 */
module WorkerPool {
  import opened Wrappers

  // A callback; `callable` is false for an empty std::function.
  datatype Task = Task(id: nat, callable: bool)

  // What became of a dequeued task.
  datatype Fate = InThread(thread: nat) | Finished | Skipped

  // `ready` threads are about to dequeue; `running` maps the others to positions in `taken`.
  // `low` and `peak` are the least and the greatest parallelism in force so far.
  datatype History = History(
    ready: set<nat>, running: map<nat, nat>, spawned: nat,
    submitted: seq<Task>, taken: seq<Task>, fate: seq<Fate>, low: int, peak: int)

  // The three fields of Worker::State with the history of the pool.
  datatype Pool = Pool(active: int, parallelism: int, queue: seq<Task>, h: History)

  function Init(parallelism: int): Pool {
    Pool(0, parallelism, [], History({}, map[], 0, [], [], [], parallelism, parallelism))
  }

  /** call_in_thread. */
  function Submit(s: Pool, f: Task): Pool {
    var q := s.(queue := s.queue + [f], h := s.h.(submitted := s.h.submitted + [f]));
    if s.active >= s.parallelism then q
    else q.(active := s.active + 1, h := q.h.(ready := q.h.ready + {q.h.spawned}, spawned := q.h.spawned + 1))
  }

  /** The critical section of thread `t`, and its exit when there is nothing to call. */
  function Dequeue(s: Pool, t: nat): Pool {
    if s.queue == [] then s.(active := s.active - 1, h := s.h.(ready := s.h.ready - {t}))
    else
      var f := s.queue[0];
      s.(queue := s.queue[1..],
         h := s.h.(ready := s.h.ready - {t},
                   running := if f.callable then s.h.running[t := |s.h.taken|] else s.h.running,
                   taken := s.h.taken + [f],
                   fate := s.h.fate + [if f.callable then InThread(t) else Skipped]))
  }

  /** The callback of thread `t` returns. */
  function Finish(s: Pool, t: nat): Pool
    requires t in s.h.running && s.h.running[t] < |s.h.fate|
  {
    s.(h := s.h.(ready := s.h.ready + {t},
                 running := s.h.running - {t},
                 fate := s.h.fate[s.h.running[t] := Finished]))
  }

  function SetParallelism(s: Pool, p: int): Pool {
    s.(parallelism := p,
       h := s.h.(low := if p < s.h.low then p else s.h.low, peak := if p > s.h.peak then p else s.h.peak))
  }

  datatype Step = SubmitStep(f: Task) | DequeueStep(t: nat) | FinishStep(t: nat) | SetStep(p: int)

  predicate Enabled(s: Pool, step: Step) {
    match step
    case SubmitStep(f) => true
    case DequeueStep(t) => t in s.h.ready
    case FinishStep(t) => t in s.h.running && s.h.running[t] < |s.h.fate|
    case SetStep(p) => 0 <= p < 0x1_0000
  }

  function Apply(s: Pool, step: Step): Pool
    requires Enabled(s, step)
  {
    match step
    case SubmitStep(f) => Submit(s, f)
    case DequeueStep(t) => Dequeue(s, t)
    case FinishStep(t) => Finish(s, t)
    case SetStep(p) => SetParallelism(s, p)
  }

  function Live(s: Pool): nat {
    |s.h.ready| + |s.h.running|
  }

  /** Threads that left over an empty callback: each keeps its place in `active`. */
  function Lost(taken: seq<Task>): nat {
    if taken == [] then 0
    else Lost(taken[..|taken| - 1]) + if taken[|taken| - 1].callable then 0 else 1
  }

  ghost predicate Inv(s: Pool) {
    && CountsInv(s)
    && s.h.submitted == s.h.taken + s.queue
    && (|s.queue| > |s.h.ready| ==> s.active >= s.h.low)
    && FateInv(s.h)
  }

  ghost predicate CountsInv(s: Pool) {
    && s.active == Live(s) + Lost(s.h.taken)
    && 0 <= s.h.low <= s.parallelism <= s.h.peak < 0x1_0000
    && s.active <= s.h.peak
  }

  /** Every dequeued task is on exactly one thread, finished, or skipped as empty. */
  ghost predicate FateInv(h: History) {
    && |h.fate| == |h.taken|
    && (forall t :: t in h.ready ==> t < h.spawned && t !in h.running)
    && (forall t :: t in h.running ==> t < h.spawned && h.running[t] < |h.fate| && h.fate[h.running[t]] == InThread(t))
    && (forall k :: 0 <= k < |h.fate| && h.fate[k].InThread? ==>
          h.fate[k].thread in h.running && h.running[h.fate[k].thread] == k)
    && (forall k :: 0 <= k < |h.fate| ==> (h.fate[k] == Skipped <==> !h.taken[k].callable))
  }

  // ------------------------------------------------------------------- every interleaving

  lemma InitHolds(p: int)
    requires 0 <= p < 0x1_0000
    ensures Inv(Init(p))
  {
  }

  /** Every step of every thread keeps the invariant. */
  lemma StepKeepsInv(s: Pool, step: Step)
    requires Inv(s) && Enabled(s, step)
    ensures Inv(Apply(s, step))
  {
    match step
    case SubmitStep(f) => SubmitKeepsInv(s, f);
    case DequeueStep(t) => DequeueKeepsInv(s, t);
    case FinishStep(t) => FinishKeepsInv(s, t);
    case SetStep(p) =>
  }

  lemma SubmitKeepsInv(s: Pool, f: Task)
    requires Inv(s)
    ensures Inv(Submit(s, f))
  {
    assert s.h.spawned !in s.h.ready && s.h.spawned !in s.h.running;
    assert s.h.taken + s.queue + [f] == s.h.taken + (s.queue + [f]);
  }

  lemma DequeueKeepsInv(s: Pool, t: nat)
    requires Inv(s) && t in s.h.ready
    ensures Inv(Dequeue(s, t)) && s.active >= 1
  {
    hide FateInv, Lost;
    assert |s.h.ready - {t}| == |s.h.ready| - 1;
    if s.queue == [] {
      LeaveKeepsFate(s.h, t);
    } else {
      DequeueKeepsFate(s, t);
      NotTwice(s.h, t);
      LostStep(s.h.taken, s.queue[0]);
      AddKey(s.h.running, t, |s.h.taken|);
      assert s.h.taken + s.queue == s.h.taken + [s.queue[0]] + s.queue[1..];
    }
  }

  lemma AddKey(m: map<nat, nat>, t: nat, k: nat)
    requires t !in m
    ensures |m[t := k]| == |m| + 1
  {
    assert m[t := k].Keys == m.Keys + {t};
    assert |m[t := k]| == |m[t := k].Keys| && |m| == |m.Keys|;
  }

  lemma RemoveKey(m: map<nat, nat>, t: nat)
    requires t in m
    ensures |m - {t}| == |m| - 1
  {
    assert (m - {t}).Keys == m.Keys - {t};
    assert |m - {t}| == |(m - {t}).Keys| && |m| == |m.Keys|;
  }

  lemma LeaveKeepsFate(h: History, t: nat)
    requires FateInv(h)
    ensures FateInv(h.(ready := h.ready - {t}))
  {
  }

  lemma NotTwice(h: History, t: nat)
    requires FateInv(h) && t in h.ready
    ensures t !in h.running
  {
  }

  lemma LostStep(taken: seq<Task>, f: Task)
    ensures Lost(taken + [f]) == Lost(taken) + if f.callable then 0 else 1
  {
    assert (taken + [f])[..|taken|] == taken;
  }

  lemma DequeueKeepsFate(s: Pool, t: nat)
    requires FateInv(s.h) && t in s.h.ready && s.queue != []
    ensures FateInv(Dequeue(s, t).h)
  {
  }

  lemma FinishKeepsInv(s: Pool, t: nat)
    requires Inv(s) && t in s.h.running
    ensures Inv(Finish(s, t))
  {
    hide Lost;
    RemoveKey(s.h.running, t);
  }

  /** A run from the constructor: each state is the step before it applied. */
  ghost predicate IsRun(p: int, states: seq<Pool>, steps: seq<Step>) {
    && |states| == |steps| + 1 && states[0] == Init(p)
    && forall i :: 0 <= i < |steps| ==> Enabled(states[i], steps[i]) && states[i + 1] == Apply(states[i], steps[i])
  }

  lemma {:induction false} RunKeepsInv(p: int, states: seq<Pool>, steps: seq<Step>, i: nat)
    requires 0 <= p < 0x1_0000 && IsRun(p, states, steps) && i < |states|
    ensures Inv(states[i])
  {
    if i == 0 {
      InitHolds(p);
    } else {
      RunKeepsInv(p, states, steps, i - 1);
      StepKeepsInv(states[i - 1], steps[i - 1]);
    }
  }

  /** Without set_parallelism the parallelism in force never varies. */
  lemma {:induction false} FixedParallelism(p: int, states: seq<Pool>, steps: seq<Step>, i: nat)
    requires IsRun(p, states, steps) && i < |states|
    requires forall k :: 0 <= k < |steps| ==> !steps[k].SetStep?
    ensures states[i].parallelism == states[i].h.low == states[i].h.peak == p
  {
    if i > 0 {
      FixedParallelism(p, states, steps, i - 1);
    }
  }

  // -------------------------------------------------------------- what holds in all states

  /**
   * In every reachable state of a pool with fixed parallelism: `active` counts the live
   * threads and those lost to empty callbacks and stays within the limit; tasks leave the
   * queue once and in submission order; and queued tasks outnumber the threads about to
   * dequeue only when the pool is at its limit.
   */
  lemma ReachableStates(p: int, states: seq<Pool>, steps: seq<Step>, i: nat)
    requires 0 <= p < 0x1_0000 && IsRun(p, states, steps) && i < |states|
    requires forall k :: 0 <= k < |steps| ==> !steps[k].SetStep?
    ensures var s := states[i];
      && s.active == Live(s) + Lost(s.h.taken) && 0 <= s.active <= p
      && s.h.submitted == s.h.taken + s.queue
      && (|s.queue| > |s.h.ready| ==> s.active == p)
      && FateInv(s.h)
  {
    RunKeepsInv(p, states, steps, i);
    FixedParallelism(p, states, steps, i);
  }

  /**
   * set_parallelism decides the next submission: a thread is started for it iff fewer than
   * the new limit are counted, whatever the limit was before.
   */
  lemma LimitTakesEffect(s: Pool, p: int, f: Task)
    requires Inv(s) && 0 <= p < 0x1_0000
    ensures var t := Submit(SetParallelism(s, p), f);
      && t.parallelism == p && t.queue == s.queue + [f]
      && (if s.active < p then t.active == s.active + 1 && Live(t) == Live(s) + 1
          else t.active == s.active && Live(t) == Live(s))
  {
    assert s.h.spawned !in s.h.ready;
  }

  /** The limit can be reached: that many tasks, and no fewer threads, may run at once. */
  lemma {:induction false} LimitIsReached(p: int, tasks: seq<Task>) returns (states: seq<Pool>, steps: seq<Step>)
    requires |tasks| <= p < 0x1_0000 && forall k :: 0 <= k < |tasks| ==> tasks[k].callable
    ensures IsRun(p, states, steps)
    ensures AllRunning(states[|steps|], tasks) && states[|steps|].parallelism == p
    decreases |tasks|
  {
    hide AllRunning, Enabled, Apply;
    if tasks == [] {
      NobodyRunning(p);
      return [Init(p)], [];
    }
    var n := |tasks| - 1;
    states, steps := LimitIsReached(p, tasks[..n]);
    var s := states[|steps|];
    RunKeepsInv(p, states, steps, |steps|);
    assert s.active == n by {
      CountRunning(s, tasks[..n]);
    }
    OneMoreRuns(s, tasks[..n], tasks[n]);
    var submit, dequeue := SubmitStep(tasks[n]), DequeueStep(s.h.spawned);
    var a := Apply(s, submit);
    assert tasks == tasks[..n] + [tasks[n]];
    states, steps := states + [a, Apply(a, dequeue)], steps + [submit, dequeue];
  }

  /** Submitting never waits: any tasks may be queued up before a thread takes the first. */
  lemma {:induction false} SubmissionsNeedNoThread(p: int, tasks: seq<Task>) returns (states: seq<Pool>, steps: seq<Step>)
    requires 0 <= p < 0x1_0000
    ensures IsRun(p, states, steps) && states[|steps|].queue == tasks && states[|steps|].h.taken == []
    decreases |tasks|
  {
    if tasks == [] {
      return [Init(p)], [];
    }
    var n := |tasks| - 1;
    states, steps := SubmissionsNeedNoThread(p, tasks[..n]);
    var s := states[|steps|];
    assert tasks == tasks[..n] + [tasks[n]];
    states, steps := states + [Apply(s, SubmitStep(tasks[n]))], steps + [SubmitStep(tasks[n])];
  }

  /** Each of the tasks was submitted and is being called by a thread of its own. */
  ghost predicate AllRunning(s: Pool, tasks: seq<Task>) {
    s.h.submitted == s.h.taken == tasks && s.queue == [] && |s.h.running| == |tasks| == s.active && s.h.ready == {}
  }

  lemma CountRunning(s: Pool, tasks: seq<Task>)
    requires AllRunning(s, tasks)
    ensures s.active == |tasks|
  {
  }

  lemma NobodyRunning(p: int)
    ensures AllRunning(Init(p), [])
  {
  }

  lemma OneMoreRuns(s: Pool, tasks: seq<Task>, f: Task)
    requires Inv(s) && AllRunning(s, tasks) && f.callable && s.active < s.parallelism
    ensures var a := Apply(s, SubmitStep(f));
      && Enabled(s, SubmitStep(f)) && Enabled(a, DequeueStep(s.h.spawned))
      && AllRunning(Apply(a, DequeueStep(s.h.spawned)), tasks + [f])
      && Apply(a, DequeueStep(s.h.spawned)).parallelism == s.parallelism
  {
    AddKey(s.h.running, s.h.spawned, |tasks|);
  }

  /** A queued task has a thread to run it iff fewer threads were lost than the limit allows. */
  lemma QueueHasThread(s: Pool)
    requires Inv(s) && s.h.low == s.h.peak && s.queue != []
    ensures Live(s) > 0 <==> Lost(s.h.taken) < s.parallelism
  {
  }

  /** With varying parallelism, losing fewer threads than the least limit is enough. */
  lemma QueueHasThreadAtLeast(s: Pool)
    requires Inv(s) && s.queue != [] && Lost(s.h.taken) < s.h.low
    ensures Live(s) > 0
  {
  }

  /** One empty callback wedges a pool of one thread: the next task is never dequeued. */
  lemma EmptyCallbackWedgesPool(g: Task)
    ensures var s := Submit(Dequeue(Submit(Init(1), Task(0, false)), 0), g);
      && Inv(s) && s.queue == [g] && s.active == 1 && Live(s) == 0
      && forall step :: Enabled(s, step) ==> !step.DequeueStep? && !step.FinishStep?
  {
    var f := Task(0, false);
    var a := Submit(Init(1), f);
    assert a == Pool(1, 1, [f], History({0}, map[], 1, [f], [], [], 1, 1)) by {
      assert {} + {0} == {0} && [] + [f] == [f];
    }
    var b := Dequeue(a, 0);
    assert b == Pool(1, 1, [], History({}, map[], 1, [f], [f], [Skipped], 1, 1)) by {
      assert {0} - {0} == {} && [f][1..] == [] && [] + [f] == [f];
    }
    var s := Submit(b, g);
    assert s == Pool(1, 1, [g], History({}, map[], 1, [f, g], [f], [Skipped], 1, 1)) by {
      assert [] + [g] == [g] && [f] + [g] == [f, g];
    }
    LostStep([], f);
    assert [] + [f] == [f] && [f] + [g] == [f, g];
  }

  ghost predicate AllFinished(s: Pool) {
    s.queue == [] && forall k :: 0 <= k < |s.h.fate| ==> s.h.fate[k] == Finished
  }

  /** With no thread and no place lost, what was dequeued has finished. */
  lemma IdlePool(s: Pool)
    requires Inv(s) && s.active == 0
    ensures s.h.ready == {} && s.h.running == map[]
    ensures forall k :: 0 <= k < |s.h.fate| ==> s.h.fate[k] == Finished
    ensures s.h.low > 0 ==> s.queue == []
  {
    assert |s.h.running| == 0;
    forall k | 0 <= k < |s.h.fate|
      ensures s.h.fate[k] == Finished
    {
      if s.h.fate[k] == Skipped {
        LostCounts(s.h.taken, k);
      }
    }
  }

  /** The last task was submitted while the limit was 0 and no thread was counted. */
  ghost predicate Stranded(states: seq<Pool>, steps: seq<Step>, i: nat)
    requires |states| == |steps| + 1 && i < |states|
  {
    exists j :: 0 <= j < i && steps[j].SubmitStep? && states[j].parallelism == 0 && states[j].active == 0
      && forall k :: j < k < i ==> !steps[k].SubmitStep?
  }

  lemma {:induction false} StrandedIff(p: int, states: seq<Pool>, steps: seq<Step>, i: nat)
    requires 0 <= p < 0x1_0000 && IsRun(p, states, steps) && i < |states|
    ensures Stranded(states, steps, i) <==> states[i].active == 0 && states[i].queue != []
  {
    hide Inv;
    if i > 0 {
      var s, step := states[i - 1], steps[i - 1];
      RunKeepsInv(p, states, steps, i - 1);
      StrandedIff(p, states, steps, i - 1);
      if s.active == 0 {
        IdlePool(s);
      }
      if step.SubmitStep? {
        LimitIsNatural(s);
        assert Stranded(states, steps, i) <==> s.parallelism == 0 && s.active == 0;
      } else {
        StrandedCarries(states, steps, i);
        if step.DequeueStep? && s.active != 0 && s.queue != [] {
          assert states[i].active != 0;
        }
      }
    }
  }

  lemma LimitIsNatural(s: Pool)
    requires Inv(s)
    ensures s.parallelism >= 0 && s.active >= 0
  {
  }

  lemma StrandedCarries(states: seq<Pool>, steps: seq<Step>, i: nat)
    requires |states| == |steps| + 1 && 0 < i < |states| && !steps[i - 1].SubmitStep?
    ensures Stranded(states, steps, i) <==> Stranded(states, steps, i - 1)
  {
  }

  /**
   * When concurrency() answers 0, every task submitted so far has finished, unless the last
   * one came while the limit was 0 and no thread was there to take it.
   */
  lemma ZeroConcurrencyMeansFinished(p: int, states: seq<Pool>, steps: seq<Step>, i: nat)
    requires 0 <= p < 0x1_0000 && IsRun(p, states, steps) && i < |states| && states[i].active == 0
    ensures AllFinished(states[i]) <==> !Stranded(states, steps, i)
    ensures AllFinished(states[i]) ==> states[i].h.taken == states[i].h.submitted
  {
    var s := states[i];
    RunKeepsInv(p, states, steps, i);
    IdlePool(s);
    StrandedIff(p, states, steps, i);
    assert s.h.taken + [] == s.h.taken;
  }

  /** With a fixed limit the exception is a limit of 0 and any task at all. */
  lemma ZeroConcurrencyAtFixedLimit(p: int, states: seq<Pool>, steps: seq<Step>, i: nat)
    requires 0 <= p < 0x1_0000 && IsRun(p, states, steps) && i < |states| && states[i].active == 0
    requires forall k :: 0 <= k < |steps| ==> !steps[k].SetStep?
    ensures AllFinished(states[i]) <==> p > 0 || states[i].h.submitted == []
  {
    RunKeepsInv(p, states, steps, i);
    FixedParallelism(p, states, steps, i);
    IdlePool(states[i]);
    if p == 0 {
      NothingTaken(states, steps, i);
    }
  }

  lemma {:induction false} NothingTaken(states: seq<Pool>, steps: seq<Step>, i: nat)
    requires IsRun(0, states, steps) && i < |states|
    requires forall k :: 0 <= k < |steps| ==> !steps[k].SetStep?
    ensures states[i].h.taken == [] && states[i].h.submitted == states[i].queue
  {
    RunKeepsInv(0, states, steps, i);
    FixedParallelism(0, states, steps, i);
    if i > 0 {
      NothingTaken(states, steps, i - 1);
      RunKeepsInv(0, states, steps, i - 1);
      FixedParallelism(0, states, steps, i - 1);
      IdlePool(states[i - 1]);
    }
  }

  /** A pool with a limit of 0 answers 0 with a task queued, and no thread will take it. */
  lemma ZeroLimitStrandsTask(f: Task)
    ensures var s := Submit(Init(0), f);
      && s.active == 0 && s.queue == [f] && !AllFinished(s)
      && forall step :: Enabled(s, step) ==> !IsThreadStep(step)
  {
  }

  lemma {:induction false} LostCounts(taken: seq<Task>, k: nat)
    requires k < |taken| && !taken[k].callable
    ensures Lost(taken) > 0
    decreases |taken|
  {
    if k < |taken| - 1 {
      LostCounts(taken[..|taken| - 1], k);
    }
  }

  // ------------------------------------------------------------------------------ draining

  /** Steps left to the threads once nothing more is submitted. */
  function Work(s: Pool): nat {
    2 * |s.queue| + 2 * |s.h.running| + |s.h.ready|
  }

  predicate IsThreadStep(step: Step) {
    step.DequeueStep? || step.FinishStep?
  }

  lemma ThreadStepDoesWork(s: Pool, step: Step)
    requires Inv(s) && Enabled(s, step) && IsThreadStep(step)
    ensures Work(Apply(s, step)) < Work(s)
  {
    match step
    case DequeueStep(t) => AddKey(s.h.running, t, |s.h.taken|);
    case FinishStep(t) => RemoveKey(s.h.running, t);
  }

  lemma SetDoesNoWork(s: Pool, step: Step)
    requires step.SetStep? && Enabled(s, step)
    ensures Work(Apply(s, step)) == Work(s)
  {
  }

  /** The thread steps among the first `i`. */
  function ThreadSteps(steps: seq<Step>, i: nat): nat
    requires i <= |steps|
  {
    if i == 0 then 0 else ThreadSteps(steps, i - 1) + if IsThreadStep(steps[i - 1]) then 1 else 0
  }

  /**
   * From any reachable state, once nothing more is submitted, threads take boundedly many
   * steps, whatever their order and whatever set_parallelism does meanwhile.
   */
  lemma {:induction false} ThreadsStop(states: seq<Pool>, steps: seq<Step>, i: nat)
    requires |states| == |steps| + 1 && Inv(states[0]) && i <= |steps|
    requires forall k :: 0 <= k < |steps| ==>
      !steps[k].SubmitStep? && Enabled(states[k], steps[k]) && states[k + 1] == Apply(states[k], steps[k])
    ensures Inv(states[i]) && Work(states[i]) + ThreadSteps(steps, i) <= Work(states[0])
  {
    hide Inv, Enabled, Apply, Work;
    if i > 0 {
      ThreadsStop(states, steps, i - 1);
      StepKeepsInv(states[i - 1], steps[i - 1]);
      if IsThreadStep(steps[i - 1]) {
        ThreadStepDoesWork(states[i - 1], steps[i - 1]);
      } else {
        SetDoesNoWork(states[i - 1], steps[i - 1]);
      }
    }
  }

  /** And when they can take no more, the queue is empty and every task met its end. */
  lemma StoppedMeansDrained(s: Pool)
    requires Inv(s) && Lost(s.h.taken) < s.h.low
    requires forall step :: Enabled(s, step) ==> !IsThreadStep(step)
    ensures s.queue == [] && s.active == Lost(s.h.taken) && s.h.taken == s.h.submitted
    ensures forall k :: 0 <= k < |s.h.fate| ==> s.h.fate[k] == if s.h.taken[k].callable then Finished else Skipped
  {
    if t :| t in s.h.ready {
      assert Enabled(s, DequeueStep(t));
    }
    if t :| t in s.h.running {
      assert Enabled(s, FinishStep(t));
    }
    assert s.h.ready == {} && s.h.running == map[];
    assert s.h.taken + [] == s.h.taken;
  }

  predicate AllCallable(queue: seq<Task>) {
    forall k :: 0 <= k < |queue| ==> queue[k].callable
  }

  // -------------------------------------------------------------------- one thread alone

  /** How many tasks a thread takes from `queue` before it leaves. */
  function UntilEmpty(queue: seq<Task>): (n: nat)
    ensures n <= |queue|
  {
    if queue == [] then 0 else if !queue[0].callable then 1 else 1 + UntilEmpty(queue[1..])
  }

  /** The history after the tasks `done` were taken and met their ends. */
  function Ran(before: Pool, done: seq<Task>): History {
    before.h.(taken := before.h.taken + done,
              fate := before.h.fate + seq(|done|, k requires 0 <= k < |done| =>
                if done[k].callable then Finished else Skipped))
  }

  /**
   * Thread `t` runs the queue in order up to the first empty callback, and gives its place
   * in `active` back only if there is none.
   */
  function BodyAlone(s: Pool, t: nat): Pool {
    var n := UntilEmpty(s.queue);
    var h := Ran(s, s.queue[..n]);
    s.(active := if AllCallable(s.queue) then s.active - 1 else s.active,
       queue := s.queue[n..],
       h := h.(ready := h.ready - {t}))
  }

  lemma {:induction false} UntilEmptyFrom(queue: seq<Task>, n: nat)
    requires n <= |queue| && AllCallable(queue[..n])
    ensures n == |queue| ==> UntilEmpty(queue) == n && AllCallable(queue)
    ensures n < |queue| && !queue[n].callable ==> UntilEmpty(queue) == n + 1 && !AllCallable(queue)
  {
    if n > 0 {
      assert queue[..n][0] == queue[0];
      assert queue[1..][..n - 1] == queue[..n][1..];
      UntilEmptyFrom(queue[1..], n - 1);
      assert n == |queue| ==> queue[..n] == queue;
    }
  }

  /** `s` is reached from `before` after `n` tasks, and `t` is about to dequeue. */
  ghost predicate Alone(before: Pool, s: Pool, n: nat, t: nat) {
    && Inv(s) && n <= |before.queue| && AllCallable(before.queue[..n]) && t in s.h.ready
    && s == before.(queue := before.queue[n..], h := Ran(before, before.queue[..n]))
  }

  lemma RanOneMore(before: Pool, n: nat)
    requires n < |before.queue|
    ensures var h, f := Ran(before, before.queue[..n]), before.queue[n];
      Ran(before, before.queue[..n + 1]) ==
        h.(taken := h.taken + [f], fate := h.fate + [if f.callable then Finished else Skipped])
  {
    var was := before.queue;
    assert was[..n + 1] == was[..n] + [was[n]];
  }

  /** A round of the thread body that runs a task. */
  lemma RoundOfThread(before: Pool, s: Pool, n: nat, t: nat)
    requires Alone(before, s, n, t)
    ensures n < |before.queue| && before.queue[n].callable ==>
      && var d := Dequeue(s, t);
      && t in d.h.running && d.h.running[t] < |d.h.fate|
      && Finish(d, t) == before.(queue := before.queue[n + 1..], h := Ran(before, before.queue[..n + 1]))
      && AllCallable(before.queue[..n + 1])
  {
    hide Lost;
    var was := before.queue;
    if n < |was| && was[n].callable {
      RanOneMore(before, n);
      hide Ran;
      var h := s.h;
      NotTwice(h, t);
      assert was[n..][1..] == was[n + 1..] && was[..n + 1] == was[..n] + [was[n]];
      assert h.ready - {t} + {t} == h.ready;
      assert h.running[t := |h.taken|] - {t} == h.running;
      assert (h.fate + [InThread(t)])[|h.taken| := Finished] == h.fate + [Finished];
    }
  }

  /** The round in which the thread leaves. */
  lemma LastRound(before: Pool, s: Pool, n: nat, t: nat)
    requires Alone(before, s, n, t)
    ensures n == |before.queue| || !before.queue[n].callable ==> Dequeue(s, t) == BodyAlone(before, t)
  {
    hide Lost, Inv;
    var was := before.queue;
    UntilEmptyFrom(was, n);
    if n < |was| && !was[n].callable {
      RanOneMore(before, n);
      assert was[n..][1..] == was[n + 1..];
    }
  }

  // ------------------------------------------------------------------------------ the class

  type U16 = n: int | 0 <= n < 0x1_0000

  class Worker {
    var active: U16
    var parallelism: U16
    var queue: seq<Task>
    ghost var history: History

    ghost function View(): Pool
      reads this
    {
      Pool(active, parallelism, queue, history)
    }

    constructor ()
      ensures View() == Init(3) && Inv(View())
    {
      active, parallelism, queue := 0, 3, [];
      history := Init(3).h;
    }

    /** The argument is a short, so a negative one wraps around. */
    constructor WithParallelism(p: int)
      requires -0x8000 <= p < 0x8000
      ensures View() == Init(p % 0x1_0000) && Inv(View())
    {
      active, parallelism, queue := 0, p % 0x1_0000, [];
      history := Init(p % 0x1_0000).h;
    }

    method CallInThread(f: Task)
      requires Inv(View())
      modifies this
      ensures View() == Submit(old(View()), f) && Inv(View())
    {
      SubmitKeepsInv(View(), f);
      ghost var next := Submit(View(), f);
      queue := queue + [f];
      if active < parallelism {
        active := active + 1;
      }
      history := next.h;
    }

    /** What thread `t` takes to call; None makes it leave, and so does an empty callback. */
    method TakeNext(ghost t: nat) returns (f: Option<Task>)
      requires Inv(View()) && t in history.ready
      modifies this
      ensures View() == Dequeue(old(View()), t) && Inv(View())
      ensures f == if old(queue) == [] then None else Some(old(queue)[0])
    {
      DequeueKeepsInv(View(), t);
      ghost var next := Dequeue(View(), t);
      if |queue| <= 0 {
        active := active - 1;
        f := None;
      } else {
        f := Some(queue[0]);
        queue := queue[1..];
      }
      history := next.h;
    }

    ghost method CallReturned(t: nat)
      requires Inv(View()) && t in history.running
      modifies this`history
      ensures View() == Finish(old(View()), t) && Inv(View())
    {
      FinishKeepsInv(View(), t);
      history := Finish(View(), t).h;
    }

    /** The body of thread `t`, when nobody else takes the mutex meanwhile. */
    method ThreadBody(ghost t: nat)
      requires Inv(View()) && t in history.ready
      modifies this
      ensures View() == BodyAlone(old(View()), t) && Inv(View())
    {
      hide Lost, Inv, BodyAlone;
      ghost var n, was, before := 0, queue, View();
      assert was[0..] == was && Ran(before, was[..0]) == before.h;
      while true
        invariant Inv(View()) && n <= |was| && AllCallable(was[..n]) && t in history.ready
        invariant View() == before.(queue := was[n..], h := Ran(before, was[..n]))
        decreases |queue|
      {
        RoundOfThread(before, View(), n, t);
        LastRound(before, View(), n, t);
        var f := TakeNext(t);
        if f == None || !f.value.callable {
          break;
        }
        CallReturned(t);
        n := n + 1;
      }
    }

    method ChangeParallelism(p: U16)
      requires Inv(View())
      modifies this
      ensures View() == SetParallelism(old(View()), p) && Inv(View())
    {
      history := SetParallelism(View(), p).h;
      parallelism := p;
    }

    /** The number that wait_empty_ polls. */
    method Concurrency() returns (n: U16)
      requires Inv(View())
      ensures n == active
      ensures n == 0 ==> (AllFinished(View()) <==> queue == [])
      ensures n == 0 && history.low > 0 ==> AllFinished(View())
    {
      if active == 0 {
        IdlePool(View());
      }
      n := active;
    }
  }
}

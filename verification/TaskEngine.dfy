/**
 * The tasks of engine.cpp: a producer thread and a reader per task, and one semaphore for
 * all of them. Every lock acquisition, flag update and queue operation is a step.
 */
module TaskEngine {
  import opened Wrappers
  import opened JsonValues

  const STATUS_QUEUED := Event("status.queued", Obj([]))
  const TASK_TERMINATED := Event("task_terminated", Obj([]))

  // Where the thread started by Task() is.
  datatype Phase = Starting | Queued | InRun | Stopped | Released

  // Where the loop "while not is_done, wait_for_next_event" is.
  datatype Reader = Checking | Waiting | Drained

  // A TaskImpl, what its thread emitted and what its reader received so far. `log` are the
  // events of task_run; `dummies` counts the task_terminated events returned.
  datatype Cell = Cell(
    running: bool, deque: seq<Event>, phase: Phase, emitted: seq<Event>, log: seq<Event>,
    reader: Reader, received: seq<Event>, dummies: nat)

  // An emission in the order of all tasks together.
  datatype Entry = Entry(task: nat, event: Event, inRun: bool)

  // `order` lists the tasks that acquired the semaphore.
  datatype System = System(tasks: map<nat, Cell>, holder: Option<nat>, order: seq<nat>, trace: seq<Entry>)

  const NO_TASKS := System(map[], None, [], [])

  /** What the constructor leaves behind: it waits for the thread to set `running`. */
  const NEW_CELL := Cell(true, [], Starting, [], [], Checking, [], 0)

  function Emit(c: Cell, e: Event): Cell {
    c.(deque := c.deque + [e], emitted := c.emitted + [e])
  }

  predicate Terminated(c: Cell) {
    !c.running && c.deque == []
  }

  /** wait_for_next_event returns: an unread event first, the dummy only after the last one. */
  function Receive(c: Cell): Cell {
    if c.deque != [] then c.(deque := c.deque[1..], received := c.received + [c.deque[0]])
    else c.(dummies := c.dummies + 1)
  }

  datatype Step =
    | Create(i: nat)
    | EmitQueued(i: nat)
    | Acquire(i: nat)
    | EmitInRun(i: nat, e: Event)
    | Stop(i: nat)
    | Release(i: nat)
    | Check(i: nat)
    | Wait(i: nat)

  predicate Enabled(s: System, step: Step) {
    if step.Create? then step.i !in s.tasks
    else
      && step.i in s.tasks
      && var c := s.tasks[step.i];
      match step
      case EmitQueued(_) => c.phase == Starting
      case Acquire(_) => c.phase == Queued && s.holder == None
      case EmitInRun(_, _) => c.phase == InRun
      case Stop(_) => c.phase == InRun
      case Release(_) => c.phase == Stopped
      case Check(_) => c.reader == Checking
      case Wait(_) => c.reader == Waiting && (!c.running || c.deque != [])
  }

  /** The step on the cell of its own task. */
  function Local(c: Cell, step: Step): Cell {
    match step
    case Create(_) => NEW_CELL
    case EmitQueued(_) => Emit(c, STATUS_QUEUED).(phase := Queued)
    case Acquire(_) => c.(phase := InRun)
    case EmitInRun(_, e) => Emit(c, e).(log := c.log + [e])
    case Stop(_) => c.(running := false, phase := Stopped)
    case Release(_) => c.(phase := Released)
    case Check(_) => c.(reader := if Terminated(c) then Drained else Waiting)
    case Wait(_) => Receive(c).(reader := Checking)
  }

  function Apply(s: System, step: Step): System
    requires Enabled(s, step)
  {
    var c := Local(if step.Create? then NEW_CELL else s.tasks[step.i], step);
    System(s.tasks[step.i := c],
           if step.Acquire? then Some(step.i) else if step.Release? then None else s.holder,
           if step.Acquire? then s.order + [step.i] else s.order,
           if step.EmitQueued? then s.trace + [Entry(step.i, STATUS_QUEUED, false)]
           else if step.EmitInRun? then s.trace + [Entry(step.i, step.e, true)]
           else s.trace)
  }

  // --------------------------------------------------------------------------- invariants

  predicate HoldsSemaphore(c: Cell) {
    c.phase == InRun || c.phase == Stopped
  }

  /** One task, on its own. */
  predicate CellInv(c: Cell) {
    CoreInv(c) && ReaderInv(c)
  }

  /** The part that does not care how the events are read. */
  predicate CoreInv(c: Cell) {
    && (c.running <==> c.phase in {Starting, Queued, InRun})
    && c.emitted == c.received + c.deque
    && c.emitted == (if c.phase == Starting then [] else [STATUS_QUEUED] + c.log)
    && (c.phase in {Starting, Queued} ==> c.log == [])
  }

  /** The part that rests on the drain loop. */
  predicate ReaderInv(c: Cell) {
    && (c.reader == Drained ==> Terminated(c))
    && c.dummies <= 1
    && (c.dummies == 1 ==> Terminated(c) && c.reader != Waiting)
  }

  /** The entries emitted inside task_run. */
  function RunTrace(trace: seq<Entry>): seq<Entry> {
    if trace == [] then []
    else
      var last := trace[|trace| - 1];
      RunTrace(trace[..|trace| - 1]) + if last.inRun then [last] else []
  }

  function Block(i: nat, log: seq<Event>): seq<Entry> {
    seq(|log|, k requires 0 <= k < |log| => Entry(i, log[k], true))
  }

  /** The whole blocks of the tasks in `order`, one after the other. */
  function Blocks(order: seq<nat>, tasks: map<nat, Cell>): seq<Entry>
    requires forall k :: 0 <= k < |order| ==> order[k] in tasks
  {
    if order == [] then []
    else
      var n := |order| - 1;
      Blocks(order[..n], tasks) + Block(order[n], tasks[order[n]].log)
  }

  ghost predicate OrderInv(s: System) {
    && (forall i :: s.holder == Some(i) <==> i in s.tasks && HoldsSemaphore(s.tasks[i]))
    && (forall a, b :: 0 <= a < b < |s.order| ==> s.order[a] != s.order[b])
    && (forall k :: 0 <= k < |s.order| ==> s.order[k] in s.tasks)
    && (forall i :: i in s.tasks ==> (i in s.order <==> s.tasks[i].phase !in {Starting, Queued}))
    && (s.holder.Some? ==> s.order != [] && s.order[|s.order| - 1] == s.holder.value)
  }

  ghost predicate Inv(s: System) {
    && (forall i :: i in s.tasks ==> CellInv(s.tasks[i]))
    && OrderInv(s)
    && RunTrace(s.trace) == Blocks(s.order, s.tasks)
  }

  lemma ThreadKeepsCoreInv(c: Cell, step: Step)
    requires CoreInv(c) && (step.EmitQueued? || step.Acquire? || step.EmitInRun? || step.Stop? || step.Release?)
    requires step.EmitQueued? ==> c.phase == Starting
    requires step.Acquire? ==> c.phase == Queued
    requires step.EmitInRun? || step.Stop? ==> c.phase == InRun
    requires step.Release? ==> c.phase == Stopped
    ensures CoreInv(Local(c, step))
    ensures Terminated(c) ==> Terminated(Local(c, step))
  {
    if step.EmitInRun? {
      assert c.received + (c.deque + [step.e]) == c.received + c.deque + [step.e];
      assert [STATUS_QUEUED] + (c.log + [step.e]) == [STATUS_QUEUED] + c.log + [step.e];
    }
  }

  lemma ReceiveKeepsCoreInv(c: Cell)
    requires CoreInv(c)
    ensures CoreInv(Receive(c))
  {
    if c.deque != [] {
      assert c.received + [c.deque[0]] + c.deque[1..] == c.received + c.deque;
    }
  }

  lemma LocalKeepsCellInv(c: Cell, step: Step)
    requires CellInv(c) && !step.Create?
    requires step.EmitQueued? ==> c.phase == Starting
    requires step.Acquire? ==> c.phase == Queued
    requires step.EmitInRun? || step.Stop? ==> c.phase == InRun
    requires step.Release? ==> c.phase == Stopped
    requires step.Check? ==> c.reader == Checking
    requires step.Wait? ==> c.reader == Waiting && (!c.running || c.deque != [])
    ensures CellInv(Local(c, step))
  {
    if step.Wait? {
      ReceiveKeepsCoreInv(c);
    } else if !step.Check? {
      ThreadKeepsCoreInv(c, step);
    }
  }

  lemma {:induction false} BlocksFrame(order: seq<nat>, tasks: map<nat, Cell>, tasks': map<nat, Cell>)
    requires forall k :: 0 <= k < |order| ==>
      order[k] in tasks && order[k] in tasks' && tasks[order[k]].log == tasks'[order[k]].log
    ensures Blocks(order, tasks) == Blocks(order, tasks')
    decreases |order|
  {
    if order != [] {
      BlocksFrame(order[..|order| - 1], tasks, tasks');
    }
  }

  lemma RunTraceAppend(trace: seq<Entry>, e: Entry)
    ensures RunTrace(trace + [e]) == RunTrace(trace) + if e.inRun then [e] else []
  {
    assert (trace + [e])[..|trace|] == trace;
  }

  lemma CellsKept(s: System, step: Step)
    requires (forall i :: i in s.tasks ==> CellInv(s.tasks[i])) && Enabled(s, step)
    ensures forall i :: i in Apply(s, step).tasks ==> CellInv(Apply(s, step).tasks[i])
  {
    hide CellInv, Local;
    if step.Create? {
      NewCellInv();
      assert Local(NEW_CELL, step) == NEW_CELL by {
        NewCell(step);
      }
    } else {
      LocalKeepsCellInv(s.tasks[step.i], step);
    }
  }

  lemma NewCellInv()
    ensures CellInv(NEW_CELL)
  {
  }

  lemma NewCell(step: Step)
    requires step.Create?
    ensures Local(NEW_CELL, step) == NEW_CELL
  {
  }

  /** Every step of every task and reader keeps the invariant. */
  lemma StepKeepsInv(s: System, step: Step)
    requires Inv(s) && Enabled(s, step)
    ensures Inv(Apply(s, step))
  {
    CellsKept(s, step);
    OrderKept(s, step);
    TraceKept(s, step);
    hide CellInv, OrderInv, RunTrace, Blocks, Enabled, Apply;
  }

  lemma LocalPhase(c: Cell, step: Step)
    ensures Local(c, step).phase ==
      match step
      case Create(_) => Starting
      case EmitQueued(_) => Queued
      case Acquire(_) => InRun
      case Stop(_) => Stopped
      case Release(_) => Released
      case _ => c.phase
  {
  }

  lemma OrderKept(s: System, step: Step)
    requires OrderInv(s) && Enabled(s, step)
    ensures OrderInv(Apply(s, step))
  {
    hide Local;
    LocalPhase(if step.Create? then NEW_CELL else s.tasks[step.i], step);
    match step
    case Acquire(i) => AcquireKeepsOrder(s, i);
    case Create(i) => CreateKeepsOrder(s, i);
    case Release(i) => ReleaseKeepsOrder(s, i);
    case _ => SamePlaceKeepsOrder(s, step.i, Local(s.tasks[step.i], step), Apply(s, step).trace);
  }

  /** A step that moves no task across the semaphore. */
  lemma SamePlaceKeepsOrder(s: System, i: nat, c: Cell, trace: seq<Entry>)
    requires OrderInv(s) && i in s.tasks
    requires HoldsSemaphore(c) == HoldsSemaphore(s.tasks[i])
    requires c.phase in {Starting, Queued} <==> s.tasks[i].phase in {Starting, Queued}
    ensures OrderInv(System(s.tasks[i := c], s.holder, s.order, trace))
  {
  }

  lemma ReleaseKeepsOrder(s: System, i: nat)
    requires OrderInv(s) && Enabled(s, Release(i))
    ensures OrderInv(Apply(s, Release(i)))
  {
    assert HoldsSemaphore(s.tasks[i]) && s.holder == Some(i);
  }

  lemma CreateKeepsOrder(s: System, i: nat)
    requires OrderInv(s) && Enabled(s, Create(i))
    ensures OrderInv(Apply(s, Create(i)))
  {
    assert i !in s.order;
  }

  lemma AcquireKeepsOrder(s: System, i: nat)
    requires OrderInv(s) && Enabled(s, Acquire(i))
    ensures OrderInv(Apply(s, Acquire(i)))
  {
    hide Local;
    LocalPhase(s.tasks[i], Acquire(i));
    assert i !in s.order;
    var s' := Apply(s, Acquire(i));
    assert forall j :: j in s'.order <==> j in s.order || j == i;
  }

  lemma TraceKept(s: System, step: Step)
    requires Inv(s) && Enabled(s, step) && OrderInv(Apply(s, step))
    ensures RunTrace(Apply(s, step).trace) == Blocks(Apply(s, step).order, Apply(s, step).tasks)
  {
    hide RunTrace, Blocks, OrderInv;
    match step
    case Acquire(i) => AcquireKeepsTrace(s, i);
    case EmitInRun(i, e) => EmitKeepsTrace(s, i, e);
    case EmitQueued(i) =>
      RunTraceAppend(s.trace, Entry(i, STATUS_QUEUED, false));
      OthersKeepTrace(s, step);
    case _ =>
      OthersKeepTrace(s, step);
  }

  lemma AcquireKeepsTrace(s: System, i: nat)
    requires Inv(s) && Enabled(s, Acquire(i))
    ensures OrderInv(Apply(s, Acquire(i)))
    ensures RunTrace(s.trace) == Blocks(s.order + [i], Apply(s, Acquire(i)).tasks)
  {
    hide RunTrace, Blocks;
    OrderKept(s, Acquire(i));
    var s' := Apply(s, Acquire(i));
    assert CellInv(s.tasks[i]) && s'.tasks[i].log == [];
    OthersKeepTrace(s, Acquire(i));
    hide CellInv, OrderInv, Apply, Enabled;
    EmptyBlock(s.order, s'.tasks, i);
  }

  lemma EmptyBlock(order: seq<nat>, tasks: map<nat, Cell>, i: nat)
    requires (forall k :: 0 <= k < |order| ==> order[k] in tasks) && i in tasks && tasks[i].log == []
    ensures Blocks(order + [i], tasks) == Blocks(order, tasks)
  {
    assert (order + [i])[..|order|] == order;
    assert Block(i, []) == [];
  }

  lemma EmitKeepsTrace(s: System, i: nat, e: Event)
    requires Inv(s) && Enabled(s, EmitInRun(i, e)) && OrderInv(Apply(s, EmitInRun(i, e)))
    ensures var s' := Apply(s, EmitInRun(i, e)); RunTrace(s'.trace) == Blocks(s.order, s'.tasks)
  {
    hide RunTrace, Blocks, CellInv;
    var s' := Apply(s, EmitInRun(i, e));
    EmitGrowsLog(s, i, e);
    hide OrderInv, Local, Enabled;
    RunTraceAppend(s.trace, Entry(i, e, true));
    LastBlockGrows(s.order, s.tasks, s'.tasks, i, e);
  }

  lemma EmitGrowsLog(s: System, i: nat, e: Event)
    requires OrderInv(s) && Enabled(s, EmitInRun(i, e))
    ensures s.order != [] && s.order[|s.order| - 1] == i
    ensures LastLogGrows(s.order, s.tasks, Apply(s, EmitInRun(i, e)).tasks, e)
  {
    assert s.holder == Some(i);
  }

  ghost predicate LastLogGrows(order: seq<nat>, tasks: map<nat, Cell>, tasks': map<nat, Cell>, e: Event) {
    && (forall k :: 0 <= k < |order| ==> order[k] in tasks && order[k] in tasks')
    && (forall k :: 0 <= k < |order| - 1 ==> tasks[order[k]].log == tasks'[order[k]].log)
    && (order != [] ==> tasks'[order[|order| - 1]].log == tasks[order[|order| - 1]].log + [e])
  }

  lemma LastBlockGrows(order: seq<nat>, tasks: map<nat, Cell>, tasks': map<nat, Cell>, i: nat, e: Event)
    requires order != [] && order[|order| - 1] == i && LastLogGrows(order, tasks, tasks', e)
    ensures Blocks(order, tasks') == Blocks(order, tasks) + [Entry(i, e, true)]
  {
    BlocksFrame(order[..|order| - 1], tasks, tasks');
    BlockAppend(i, tasks[i].log, e);
  }

  lemma BlockAppend(i: nat, log: seq<Event>, e: Event)
    ensures Block(i, log + [e]) == Block(i, log) + [Entry(i, e, true)]
  {
  }

  lemma OthersKeepTrace(s: System, step: Step)
    requires Inv(s) && Enabled(s, step) && !step.EmitInRun?
    ensures forall k :: 0 <= k < |s.order| ==> s.order[k] in s.tasks && s.order[k] in Apply(s, step).tasks
    ensures Blocks(s.order, Apply(s, step).tasks) == RunTrace(s.trace)
  {
    hide RunTrace, CellInv, HoldsSemaphore;
    BlocksFrame(s.order, s.tasks, Apply(s, step).tasks);
  }

  // -------------------------------------------------------------- what holds in every run

  /** A run of the whole process: any number of tasks, any interleaving. */
  ghost predicate IsRun(states: seq<System>, steps: seq<Step>) {
    && |states| == |steps| + 1 && states[0] == NO_TASKS
    && forall k :: 0 <= k < |steps| ==> Enabled(states[k], steps[k]) && states[k + 1] == Apply(states[k], steps[k])
  }

  lemma {:induction false} RunKeepsInv(states: seq<System>, steps: seq<Step>, k: nat)
    requires IsRun(states, steps) && k < |states|
    ensures Inv(states[k])
  {
    if k > 0 {
      RunKeepsInv(states, steps, k - 1);
      StepKeepsInv(states[k - 1], steps[k - 1]);
    }
  }

  /** At most one task is inside task_run, and it is the one that holds the semaphore. */
  lemma OneTaskRuns(states: seq<System>, steps: seq<Step>, k: nat)
    requires IsRun(states, steps) && k < |states|
    ensures var tasks := states[k].tasks;
      forall i, j :: i in tasks && j in tasks && HoldsSemaphore(tasks[i]) && HoldsSemaphore(tasks[j]) ==> i == j
  {
    RunKeepsInv(states, steps, k);
  }

  /**
   * Each stream begins with status.queued, and the events of task_run, over all tasks, are
   * the concatenation of the tasks' own event lists in the order they got the semaphore.
   */
  lemma TraceIsWholeBlocks(states: seq<System>, steps: seq<Step>, k: nat)
    requires IsRun(states, steps) && k < |states|
    ensures var s := states[k];
      && (forall a, b :: 0 <= a < b < |s.order| ==> s.order[a] != s.order[b])
      && (forall a :: 0 <= a < |s.order| ==> s.order[a] in s.tasks)
      && RunTrace(s.trace) == Blocks(s.order, s.tasks)
      && (forall i :: i in s.tasks && s.tasks[i].emitted != [] ==>
            s.tasks[i].emitted == [Event("status.queued", Obj([]))] + s.tasks[i].log)
  {
    RunKeepsInv(states, steps, k);
    hide RunTrace, Blocks;
  }

  /** Hence no two tasks interleave: between two events of a task there is no other's. */
  lemma TraceNeverInterleaves(states: seq<System>, steps: seq<Step>, k: nat, a: nat, b: nat, c: nat)
    requires IsRun(states, steps) && k < |states|
    requires a < b < c < |RunTrace(states[k].trace)|
    requires RunTrace(states[k].trace)[a].task == RunTrace(states[k].trace)[c].task
    ensures RunTrace(states[k].trace)[b].task == RunTrace(states[k].trace)[a].task
  {
    TraceIsWholeBlocks(states, steps, k);
    BlocksAreContiguous(states[k].order, states[k].tasks, a, b, c);
  }

  lemma {:induction false} BlocksAreContiguous(order: seq<nat>, tasks: map<nat, Cell>, a: nat, b: nat, c: nat)
    requires forall i, j :: 0 <= i < j < |order| ==> order[i] != order[j]
    requires forall i :: 0 <= i < |order| ==> order[i] in tasks
    requires a < b < c < |Blocks(order, tasks)|
    requires Blocks(order, tasks)[a].task == Blocks(order, tasks)[c].task
    ensures Blocks(order, tasks)[b].task == Blocks(order, tasks)[a].task
    decreases |order|
  {
    var n := |order| - 1;
    var before := Blocks(order[..n], tasks);
    if c < |before| {
      BlocksAreContiguous(order[..n], tasks, a, b, c);
    } else if a < |before| {
      BlockTasks(order[..n], tasks, a);
    }
  }

  lemma {:induction false} BlockTasks(order: seq<nat>, tasks: map<nat, Cell>, a: nat)
    requires forall i :: 0 <= i < |order| ==> order[i] in tasks
    requires a < |Blocks(order, tasks)|
    ensures Blocks(order, tasks)[a].task in order
    decreases |order|
  {
    var n := |order| - 1;
    if a < |Blocks(order[..n], tasks)| {
      BlockTasks(order[..n], tasks, a);
    }
  }

  lemma DoneStaysDone(s: System, step: Step, i: nat)
    requires i in s.tasks && CellInv(s.tasks[i]) && Terminated(s.tasks[i]) && Enabled(s, step)
    ensures s.tasks[i].phase in {Stopped, Released}
    ensures var c := Apply(s, step).tasks[i]; Terminated(c) && c.emitted == s.tasks[i].emitted
  {
  }

  /**
   * is_done() is never true before task_run has returned, and from then on, in every run,
   * it stays true and nothing more is emitted.
   */
  lemma {:induction false} DoneIsFinal(states: seq<System>, steps: seq<Step>, j: nat, k: nat, i: nat)
    requires IsRun(states, steps) && j <= k < |states|
    requires i in states[j].tasks && Terminated(states[j].tasks[i])
    ensures states[j].tasks[i].phase in {Stopped, Released}
    ensures i in states[k].tasks && Terminated(states[k].tasks[i])
    ensures states[k].tasks[i].emitted == states[j].tasks[i].emitted
    decreases k
  {
    hide CellInv, Terminated, OrderInv, RunTrace, Blocks, Local;
    RunKeepsInv(states, steps, j);
    if j < k {
      DoneIsFinal(states, steps, j, k - 1, i);
      RunKeepsInv(states, steps, k - 1);
      DoneStaysDone(states[k - 1], steps[k - 1], i);
    } else {
      assert CellInv(states[j].tasks[i]);
      DoneCell(states[j].tasks[i]);
    }
  }

  lemma DoneCell(c: Cell)
    requires CellInv(c) && Terminated(c)
    ensures c.phase in {Stopped, Released}
  {
  }

  lemma DummyStep(s: System, step: Step, i: nat)
    requires i in s.tasks && CellInv(s.tasks[i]) && Enabled(s, step)
    requires Apply(s, step).tasks[i].dummies > s.tasks[i].dummies
    ensures step == Wait(i) && Terminated(s.tasks[i]) && s.tasks[i].dummies == 0
  {
  }

  /** A dummy event is returned only when the task is done, and only one in any run. */
  lemma DummyOnlyWhenDone(states: seq<System>, steps: seq<Step>, k: nat, i: nat)
    requires IsRun(states, steps) && k < |steps| && i in states[k].tasks
    requires i in states[k + 1].tasks && states[k + 1].tasks[i].dummies > states[k].tasks[i].dummies
    ensures steps[k] == Wait(i) && Terminated(states[k].tasks[i]) && states[k].tasks[i].dummies == 0
  {
    hide CellInv, OrderInv, RunTrace, Blocks, Enabled, Apply, Terminated;
    RunKeepsInv(states, steps, k);
    DummyStep(states[k], steps[k], i);
  }

  /**
   * No deadlock: a run can only stop, but for the creation of tasks, when every task has
   * been through its turn and every reader has read to the end.
   */
  lemma StuckMeansAllDone(states: seq<System>, steps: seq<Step>, k: nat)
    requires IsRun(states, steps) && k < |states|
    ensures var s := states[k];
      (forall step :: Enabled(s, step) ==> step.Create?) <==>
      (forall i :: i in s.tasks ==> s.tasks[i].phase == Released && s.tasks[i].reader == Drained)
  {
    hide OrderInv, RunTrace, Blocks, CellInv, Enabled;
    RunKeepsInv(states, steps, k);
    var s := states[k];
    HolderMoves(s);
    forall i | i in s.tasks
      ensures s.holder == None ==> (s.tasks[i].phase == Released && s.tasks[i].reader == Drained) || MayMove(s, i)
    {
      if s.holder == None {
        TaskMoves(s, i);
      }
    }
    if forall i :: i in s.tasks ==> s.tasks[i].phase == Released && s.tasks[i].reader == Drained {
      forall step | Enabled(s, step)
        ensures step.Create?
      {
        DoneIsStuck(s, step);
      }
    }
  }

  predicate MayMove(s: System, i: nat) {
    || Enabled(s, EmitQueued(i)) || Enabled(s, Acquire(i)) || Enabled(s, Stop(i)) || Enabled(s, Release(i))
    || Enabled(s, Check(i)) || Enabled(s, Wait(i))
  }

  lemma TaskMoves(s: System, i: nat)
    requires i in s.tasks && CellInv(s.tasks[i]) && s.holder == None
    ensures (s.tasks[i].phase == Released && s.tasks[i].reader == Drained) || MayMove(s, i)
  {
  }

  lemma DoneIsStuck(s: System, step: Step)
    requires Enabled(s, step)
    requires forall i :: i in s.tasks ==> s.tasks[i].phase == Released && s.tasks[i].reader == Drained
    ensures step.Create?
  {
  }

  lemma HolderMoves(s: System)
    requires OrderInv(s)
    ensures s.holder.Some? ==> Enabled(s, Stop(s.holder.value)) || Enabled(s, Release(s.holder.value))
  {
    assert s.holder.Some? ==> HoldsSemaphore(s.tasks[s.holder.value]);
  }

  // ------------------------------------------------------------------ what runs there are

  ghost predicate Reachable(s: System) {
    exists states, steps :: IsRun(states, steps) && states[|steps|] == s
  }

  lemma Extend(s: System, step: Step)
    requires Reachable(s) && Enabled(s, step)
    ensures Reachable(Apply(s, step))
  {
    hide Enabled, Apply;
    var states, steps :| IsRun(states, steps) && states[|steps|] == s;
    var states', steps' := states + [Apply(s, step)], steps + [step];
    assert IsRun(states', steps') && states'[|steps'|] == Apply(s, step);
  }

  /** The tasks of `order` are done, in that order and with those logs, and there are no others. */
  ghost predicate Finished(s: System, order: seq<nat>, logs: seq<seq<Event>>) {
    && |order| == |logs| && s.order == order && s.holder == None
    && (forall i :: i in s.tasks <==> i in order)
    && (forall k :: 0 <= k < |order| ==> order[k] in s.tasks && s.tasks[order[k]].log == logs[k])
  }

  /** Any tasks may run in any order, each with any events. */
  lemma {:induction false} EveryScheduleIsReachable(order: seq<nat>, logs: seq<seq<Event>>) returns (s: System)
    requires |order| == |logs| && forall a, b :: 0 <= a < b < |order| ==> order[a] != order[b]
    ensures Reachable(s) && Finished(s, order, logs)
    decreases |order|
  {
    hide Reachable, Finished;
    if order == [] {
      s := NO_TASKS;
      EmptyRun();
    } else {
      var n := |order| - 1;
      s := EveryScheduleIsReachable(order[..n], logs[..n]);
      s := RunOneMore(s, order[..n], logs[..n], order[n], logs[n]);
      assert order == order[..n] + [order[n]] && logs == logs[..n] + [logs[n]];
    }
  }

  lemma EmptyRun()
    ensures Reachable(NO_TASKS) && Finished(NO_TASKS, [], [])
  {
    var steps: seq<Step> := [];
    assert IsRun([NO_TASKS], steps) && [NO_TASKS][|steps|] == NO_TASKS;
  }

  /** A task may be started at any time, whatever the others do, and gets as far as the semaphore. */
  lemma AnotherMayQueue(s: System, i: nat) returns (now: System)
    requires Reachable(s) && i !in s.tasks
    ensures Reachable(now) && now.tasks - {i} == s.tasks && now.holder == s.holder && now.order == s.order
    ensures i in now.tasks && now.tasks[i].phase == Queued && now.tasks[i].deque == [STATUS_QUEUED]
  {
    hide Reachable;
    Extend(s, Create(i));
    var a := Apply(s, Create(i));
    Extend(a, EmitQueued(i));
    now := Apply(a, EmitQueued(i));
    assert now.tasks == s.tasks[i := now.tasks[i]];
  }

  /** A running task may emit any event at any time, whatever is unread. */
  lemma RunningMayEmit(s: System, i: nat, e: Event) returns (now: System)
    requires Reachable(s) && i in s.tasks && s.tasks[i].phase == InRun
    ensures Reachable(now) && i in now.tasks && now.tasks == s.tasks[i := now.tasks[i]] && now.tasks[i].phase == InRun
    ensures now.tasks[i].deque == s.tasks[i].deque + [e] && now.tasks[i].log == s.tasks[i].log + [e]
  {
    hide Reachable;
    Extend(s, EmitInRun(i, e));
    now := Apply(s, EmitInRun(i, e));
  }

  /** An unread event may be read at any time, whether the task still runs or not. */
  lemma UnreadMayBeRead(s: System, i: nat) returns (now: System)
    requires Reachable(s) && i in s.tasks && s.tasks[i].reader != Drained && s.tasks[i].deque != []
    ensures Reachable(now) && i in now.tasks && now.tasks == s.tasks[i := now.tasks[i]] && now.holder == s.holder
    ensures now.tasks[i].received == s.tasks[i].received + [s.tasks[i].deque[0]]
  {
    hide Reachable;
    var a := s;
    if s.tasks[i].reader == Checking {
      Extend(s, Check(i));
      a := Apply(s, Check(i));
    }
    Extend(a, Wait(i));
    now := Apply(a, Wait(i));
  }

  /** `now` is `s` with one more task, in `phase` and with the events `log`. */
  ghost predicate OneMore(s: System, now: System, i: nat, phase: Phase, log: seq<Event>) {
    && i in now.tasks && now.tasks == s.tasks[i := now.tasks[i]]
    && now.tasks[i].phase == phase && now.tasks[i].log == log
    && now.holder == (if phase in {InRun, Stopped} then Some(i) else None)
    && now.order == (if phase in {InRun, Stopped, Released} then s.order + [i] else s.order)
  }

  function NextPhase(phase: Phase, step: Step): Phase {
    match step
    case EmitQueued(_) => Queued
    case Acquire(_) => InRun
    case Stop(_) => Stopped
    case Release(_) => Released
    case _ => phase
  }

  lemma StepOneMore(s: System, now: System, i: nat, phase: Phase, log: seq<Event>, step: Step)
    requires OneMore(s, now, i, phase, log) && s.holder == None
    requires (phase == Starting && step == EmitQueued(i)) || (phase == Queued && step == Acquire(i))
      || (phase == InRun && (step == Stop(i) || (step.EmitInRun? && step.i == i)))
      || (phase == Stopped && step == Release(i))
    ensures Enabled(now, step)
    ensures OneMore(s, Apply(now, step), i, NextPhase(phase, step), if step.EmitInRun? then log + [step.e] else log)
  {
    assert now.tasks[i := Local(now.tasks[i], step)] == s.tasks[i := Local(now.tasks[i], step)];
  }

  lemma Move(s: System, now: System, i: nat, phase: Phase, log: seq<Event>, step: Step) returns (next: System)
    requires Reachable(now) && OneMore(s, now, i, phase, log) && s.holder == None
    requires (phase == Starting && step == EmitQueued(i)) || (phase == Queued && step == Acquire(i))
      || (phase == InRun && (step == Stop(i) || (step.EmitInRun? && step.i == i)))
      || (phase == Stopped && step == Release(i))
    ensures Reachable(next)
    ensures OneMore(s, next, i, NextPhase(phase, step), if step.EmitInRun? then log + [step.e] else log)
  {
    hide Reachable, OneMore, Enabled, Apply, NextPhase;
    StepOneMore(s, now, i, phase, log, step);
    Extend(now, step);
    next := Apply(now, step);
  }

  lemma RunOneMore(s: System, order: seq<nat>, logs: seq<seq<Event>>, i: nat, log: seq<Event>) returns (now: System)
    requires Reachable(s) && Finished(s, order, logs) && i !in order
    ensures Reachable(now) && Finished(now, order + [i], logs + [log])
  {
    assert i !in s.tasks && s.holder == None;
    hide Reachable, Finished, OneMore;
    now := Enter(s, i);
    now := EmitOneMore(s, now, i, log);
    now := Leave(s, now, i, log);
    OneMoreFinished(s, now, order, logs, i, log);
  }

  lemma Enter(s: System, i: nat) returns (now: System)
    requires Reachable(s) && i !in s.tasks && s.holder == None
    ensures Reachable(now) && OneMore(s, now, i, InRun, [])
  {
    hide Reachable, OneMore, Enabled, Apply;
    CreateOneMore(s, i);
    Extend(s, Create(i));
    now := Move(s, Apply(s, Create(i)), i, Starting, [], EmitQueued(i));
    now := Move(s, now, i, Queued, [], Acquire(i));
  }

  lemma Leave(s: System, now: System, i: nat, log: seq<Event>) returns (next: System)
    requires Reachable(now) && OneMore(s, now, i, InRun, log) && s.holder == None
    ensures Reachable(next) && OneMore(s, next, i, Released, log)
  {
    hide Reachable, OneMore;
    next := Move(s, now, i, InRun, log, Stop(i));
    next := Move(s, next, i, Stopped, log, Release(i));
  }

  lemma EmitOneMore(s: System, now: System, i: nat, log: seq<Event>) returns (next: System)
    requires Reachable(now) && OneMore(s, now, i, InRun, []) && s.holder == None
    ensures Reachable(next) && OneMore(s, next, i, InRun, log)
  {
    hide Reachable, OneMore;
    next := now;
    var k := 0;
    while k < |log|
      invariant 0 <= k <= |log| && Reachable(next)
      invariant OneMore(s, next, i, InRun, log[..k])
    {
      next := Move(s, next, i, InRun, log[..k], EmitInRun(i, log[k]));
      assert log[..k + 1] == log[..k] + [log[k]];
      k := k + 1;
    }
    assert log[..k] == log;
  }

  lemma CreateOneMore(s: System, i: nat)
    requires i !in s.tasks && s.holder == None
    ensures Enabled(s, Create(i)) && OneMore(s, Apply(s, Create(i)), i, Starting, [])
  {
  }

  lemma OneMoreFinished(s: System, now: System, order: seq<nat>, logs: seq<seq<Event>>, i: nat, log: seq<Event>)
    requires Finished(s, order, logs) && i !in order && OneMore(s, now, i, Released, log)
    ensures Finished(now, order + [i], logs + [log])
  {
  }

  /** When the drain loop ends it has received every event, in order, and at most one dummy. */
  lemma DrainedMeansEverything(states: seq<System>, steps: seq<Step>, k: nat, i: nat)
    requires IsRun(states, steps) && k < |states| && i in states[k].tasks
    ensures var c := states[k].tasks[i];
      && c.received <= c.emitted && c.dummies <= 1
      && (c.reader == Drained ==>
            c.received == [STATUS_QUEUED] + c.log == c.emitted && c.phase in {Stopped, Released})
  {
    RunKeepsInv(states, steps, k);
    var c := states[k].tasks[i];
    assert CellInv(c);
    assert c.deque == [] ==> c.received + c.deque == c.received;
  }

  // ----------------------------------------------------------------------------- the class

  class TaskImpl {
    var running: bool
    var deque: seq<Event>
    var phase: Phase
    ghost var cell: Cell

    ghost predicate Valid()
      reads this
    {
      cell.running == running && cell.deque == deque && cell.phase == phase && CoreInv(cell)
    }

    constructor ()
      ensures Valid() && cell == NEW_CELL
    {
      running, deque, phase, cell := true, [], Starting, NEW_CELL;
    }

    /** emit(), from the thread of the task. */
    method EmitEvent(event: Event)
      requires Valid() && (phase == InRun || (phase == Starting && event == STATUS_QUEUED))
      modifies this
      ensures Valid()
      ensures cell == Local(old(cell), if old(phase) == InRun then EmitInRun(0, event) else EmitQueued(0))
    {
      ThreadKeepsCoreInv(cell, if phase == InRun then EmitInRun(0, event) else EmitQueued(0));
      cell := Local(cell, if phase == InRun then EmitInRun(0, event) else EmitQueued(0));
      deque := deque + [event];
      if phase == Starting {
        phase := Queued;
      }
    }

    method IsDone() returns (done: bool)
      requires Valid()
      ensures done <==> Terminated(cell)
    {
      return running == false && deque == [];
    }

    /** wait_for_next_event(), from where the condition variable lets it go on. */
    method WaitForNextEvent() returns (event: Event)
      requires Valid() && (!running || deque != [])
      modifies this
      ensures Valid() && cell == Receive(old(cell))
      ensures event == if old(deque) != [] then old(deque)[0] else TASK_TERMINATED
    {
      ReceiveKeepsCoreInv(cell);
      cell := Receive(cell);
      if deque != [] {
        event := deque[0];
        deque := deque[1..];
        return;
      }
      assert !running;
      return TASK_TERMINATED;
    }

    /** The thread of the task is at its `next` event of `log`, the events of its task_run. */
    ghost predicate Plays(log: seq<Event>, next: nat)
      reads this
    {
      Valid() && next <= |log| && cell.log == log[..next] && (phase in {Stopped, Released} ==> next == |log|)
    }

    /** The steps of that thread that emit nothing: the semaphore and the running flag. */
    method Advance()
      requires Valid() && phase in {Queued, InRun, Stopped}
      modifies this
      ensures Valid() && SameReader(old(cell), cell) && cell.log == old(cell.log)
      ensures Terminated(old(cell)) ==> Terminated(cell)
      ensures phase == if old(phase) == Queued then InRun else if old(phase) == InRun then Stopped else Released
      ensures running == old(running && phase == Queued)
    {
      if phase == Queued {
        ThreadKeepsCoreInv(cell, Acquire(0));
        cell := Local(cell, Acquire(0));
        phase := InRun;
      } else if phase == InRun {
        ThreadKeepsCoreInv(cell, Stop(0));
        cell := Local(cell, Stop(0));
        running, phase := false, Stopped;
      } else {
        ThreadKeepsCoreInv(cell, Release(0));
        cell := Local(cell, Release(0));
        phase := Released;
      }
    }

    /** One step of that thread; the reader does not move. */
    method ThreadStep(log: seq<Event>, next: nat) returns (next': nat)
      requires Plays(log, next)
      modifies this
      ensures Plays(log, next') && SameReader(old(cell), cell)
      ensures Terminated(old(cell)) ==> Terminated(cell)
      ensures old(phase) != Released ==> StepsLeft(phase, |log| - next') < StepsLeft(old(phase), |log| - next)
    {
      assert running <==> phase in {Starting, Queued, InRun};
      hide CoreInv;
      next' := next;
      if phase == Starting {
        EmitEvent(STATUS_QUEUED);
      } else if phase == InRun && next < |log| {
        EmitEvent(log[next]);
        next' := next + 1;
      } else if phase != Released {
        Advance();
      }
    }

    /** Any number of steps of that thread, or as many as a waiting reader needs to go on. */
    method ThreadSteps(log: seq<Event>, next: nat, wake: bool) returns (next': nat)
      requires Plays(log, next)
      modifies this
      ensures Plays(log, next') && SameReader(old(cell), cell)
      ensures Terminated(old(cell)) ==> Terminated(cell)
      ensures wake ==> !running || deque != []
    {
      next' := next;
      var more: bool := *;
      while phase != Released && (more || (wake && running && deque == []))
        invariant Plays(log, next') && SameReader(old(cell), cell)
        invariant Terminated(old(cell)) ==> Terminated(cell)
        decreases StepsLeft(phase, |log| - next')
      {
        next' := ThreadStep(log, next');
        more := *;
      }
    }
  }

  predicate SameReader(c: Cell, d: Cell) {
    d.reader == c.reader && d.received == c.received && d.dummies == c.dummies
  }

  function StepsLeft(phase: Phase, events: int): int {
    match phase
    case Starting => events + 4
    case Queued => events + 3
    case InRun => events + 2
    case Stopped => 1
    case Released => 0
  }

  lemma ReceiveMakesProgress(c: Cell)
    requires CoreInv(c) && (!c.running || c.deque != [])
    ensures var d := Receive(c);
      && d.log == c.log && d.phase == c.phase
      && if c.deque == [] then d.received == c.received && d.dummies == c.dummies + 1 && Terminated(d)
         else d.received == c.received + [c.deque[0]] && d.dummies == c.dummies && |d.received| <= |c.log| + 1
  {
  }

  lemma DoneMeansAllRead(c: Cell)
    requires CoreInv(c) && Terminated(c)
    ensures c.phase in {Stopped, Released} && c.received == [STATUS_QUEUED] + c.log
  {
    assert c.received + [] == c.received;
  }

  /**
   * The drain loop of BaseTest::run_static against a task that emits `log`: whatever the
   * interleaving, it ends with the emitted events in order and at most one dummy after them.
   */
  method RunStatic(log: seq<Event>) returns (received: seq<Event>)
    ensures var stream := [Event("status.queued", Obj([]))] + log;
      received == stream || received == stream + [Event("task_terminated", Obj([]))]
  {
    hide CoreInv, Receive;
    var task := new TaskImpl();
    var next := 0;
    received := [];
    while true
      invariant task.Plays(log, next)
      invariant task.cell.dummies <= 1 && (task.cell.dummies == 1 ==> Terminated(task.cell))
      invariant received == task.cell.received + if task.cell.dummies == 0 then [] else [TASK_TERMINATED]
      decreases |log| + 1 - |task.cell.received|, 1 - task.cell.dummies
    {
      next := task.ThreadSteps(log, next, false);
      var done := task.IsDone();
      if done {
        DoneMeansAllRead(task.cell);
        break;
      }
      next := task.ThreadSteps(log, next, true);
      ReceiveMakesProgress(task.cell);
      var event := task.WaitForNextEvent();
      received := received + [event];
    }
    assert log[..|log|] == log;
  }
}

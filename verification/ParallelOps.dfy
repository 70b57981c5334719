/**
 * The strided scheduler of parallel.hpp. A continuation may call back at any time after it
 * was called: before it returns, while another one is being called, between two rounds of
 * the loop of parallel(), or later.
 */
module ParallelOps {
  import opened Wrappers

  datatype Error = Error(code: int, reason: string, children: seq<Error>)

  const NO_ERROR := Error(0, "", [])
  const PARALLEL_OPERATION_ERROR := Error(10, "parallel_operation_error", [])

  // The operation as seen from outside: `launched` lanes were entered by the loop of
  // parallel(), `started` lists the continuations called, `reported` what each called
  // back with, and `finals` the calls of the final callback.
  datatype View = View(
    n: nat, p: nat, launched: nat, started: seq<nat>, reported: map<nat, Error>,
    overall: Error, completed: nat, finals: seq<Error>)

  /** The only result the final callback may get, given what every continuation reported. */
  function Result(errors: seq<Error>): Error {
    if AnyFailed(errors) then Error(10, "parallel_operation_error", errors) else Error(0, "", errors)
  }

  predicate AnyFailed(errors: seq<Error>) {
    exists k :: 0 <= k < |errors| && errors[k].code != 0
  }

  /** What child_errors holds: the reports so far, NoError elsewhere. */
  function Children(n: nat, reported: map<nat, Error>): seq<Error> {
    seq(n, i => if i in reported then reported[i] else NO_ERROR)
  }

  /** Continuation `i` has its turn: its lane was entered, or its predecessor reported. */
  predicate IsDue(v: View, i: nat) {
    if i < v.p then i < v.launched else i - v.p in v.reported
  }

  /** `hole` is a continuation that is due but not called yet. */
  ghost predicate Inv(v: View, hole: Option<nat>) {
    && v.p > 0 && v.n > 0
    && (hole.Some? ==> hole.value < v.n && IsDue(v, hole.value))
    && StartedInv(v, hole)
    && ResultInv(v)
    && v.finals == if v.completed == v.n then [v.overall] else []
  }

  ghost predicate StartedInv(v: View, hole: Option<nat>) {
    && (forall i: nat :: i in v.started <==> i < v.n && IsDue(v, i) && hole != Some(i))
    && (forall a, b :: 0 <= a < b < |v.started| ==> v.started[a] != v.started[b])
    && (forall i :: i in v.reported ==> i in v.started)
  }

  ghost predicate ResultInv(v: View) {
    && v.completed == |v.reported|
    && v.overall == Result(Children(v.n, v.reported))
  }

  /** Continuations called that have not called back. */
  function InFlight(v: View): set<nat> {
    set i | i in v.started && i !in v.reported
  }

  // --------------------------------------------------------------- what the invariant gives

  function Below(n: nat): (s: set<nat>)
    ensures forall i: nat :: i in s <==> i < n
    ensures |s| == n
  {
    if n == 0 then {} else Below(n - 1) + {n - 1}
  }

  lemma SubsetSize<T>(a: set<T>, b: set<T>)
    requires a <= b
    ensures |a| <= |b| && (|a| == |b| ==> a == b)
  {
    assert b == a + (b - a);
    assert |b| == |a| + |b - a|;
    if |b - a| == 0 {
      assert b - a == {};
    }
  }

  lemma ReportedSize(v: View, hole: Option<nat>)
    requires Inv(v, hole)
    ensures v.completed <= v.n && (v.completed == v.n <==> v.reported.Keys == Below(v.n))
  {
    assert v.reported.Keys <= Below(v.n);
    assert |v.reported| == |v.reported.Keys|;
    SubsetSize(v.reported.Keys, Below(v.n));
  }

  /** The lane that continuation `i` belongs to: `i` modulo `p`. */
  function Lane(i: nat, p: nat): (lane: nat)
    requires p > 0
    ensures lane < p && lane <= i
    decreases i
  {
    if i < p then i else Lane(i - p, p)
  }

  /** Which is less than `p`, and leaves a multiple of `p`. */
  lemma {:induction false} LaneIsRemainder(i: nat, p: nat) returns (q: nat)
    requires p > 0
    ensures i == q * p + Lane(i, p)
    decreases i
  {
    q := 0;
    if i >= p {
      q := LaneIsRemainder(i - p, p);
      assert (q + 1) * p == q * p + p;
      q := q + 1;
    }
  }

  lemma {:induction false} LanesAreStrided(i: nat, j: nat, p: nat)
    requires p > 0 && i < j && Lane(i, p) == Lane(j, p)
    ensures i + p <= j
    decreases j
  {
    if i >= p {
      LanesAreStrided(i - p, j - p, p);
    } else {
      assert j >= p ==> Lane(j - p, p) <= j - p;
    }
  }

  /** In one lane, everything before a started continuation has reported. */
  lemma {:induction false} LaneIsSequential(v: View, hole: Option<nat>, i: nat, j: nat)
    requires Inv(v, hole) && j in v.started && i < j && Lane(i, v.p) == Lane(j, v.p)
    ensures i in v.reported
    decreases j
  {
    hide ResultInv;
    LanesAreStrided(i, j, v.p);
    assert j - v.p in v.reported;
    if i != j - v.p {
      LaneIsSequential(v, hole, i, j - v.p);
    }
  }

  /** At most one continuation per lane is in flight, so at most `parallelism` in all. */
  lemma AtMostParallelismInFlight(v: View, hole: Option<nat>)
    requires Inv(v, hole)
    ensures forall i, j :: i in InFlight(v) && j in InFlight(v) && Lane(i, v.p) == Lane(j, v.p) ==> i == j
    ensures |InFlight(v)| <= v.p
  {
    forall i, j | i in InFlight(v) && j in InFlight(v) && Lane(i, v.p) == Lane(j, v.p)
      ensures i == j
    {
      if i < j {
        LaneIsSequential(v, hole, i, j);
      } else if j < i {
        LaneIsSequential(v, hole, j, i);
      }
    }
    var lanes := LanesOf(InFlight(v), v.p);
    assert lanes <= Below(v.p);
    SubsetSize(lanes, Below(v.p));
  }

  lemma {:induction false} LanesOf(s: set<nat>, p: nat) returns (lanes: set<nat>)
    requires p > 0
    requires forall i, j :: i in s && j in s && Lane(i, p) == Lane(j, p) ==> i == j
    ensures |lanes| == |s| && lanes == set i | i in s :: Lane(i, p)
  {
    if s == {} {
      return {};
    }
    var x :| x in s;
    var rest := LanesOf(s - {x}, p);
    lanes := rest + {Lane(x, p)};
    assert Lane(x, p) !in rest;
    assert s == s - {x} + {x};
  }

  /** Some continuation not reported yet is in flight, unless all have. */
  lemma {:induction false} FirstUnreported(v: View, i: nat)
    requires Inv(v, None) && v.launched >= v.p && i < v.n && i !in v.reported
    ensures InFlight(v) != {}
    decreases i
  {
    if i in v.started {
      assert i in InFlight(v);
    } else {
      FirstUnreported(v, i - v.p);
    }
  }

  /**
   * With nothing in flight, every continuation was started exactly once and has reported,
   * and the final callback was called exactly once, with a result that depends on the
   * reports alone and not on their order.
   */
  lemma NothingInFlightMeansDone(v: View)
    requires Inv(v, None) && v.launched >= v.p && InFlight(v) == {}
    ensures v.reported.Keys == Below(v.n)
    ensures |v.started| == v.n && forall i: nat :: i < v.n ==> i in v.started
    ensures v.finals == [Result(seq(v.n, i requires i in v.reported => v.reported[i]))]
  {
    AllReported(v);
    StartedOnce(v);
    hide InFlight, StartedInv, Result;
    ReportedSize(v, None);
    assert Children(v.n, v.reported) == seq(v.n, i requires i in v.reported => v.reported[i]);
  }

  /** Until all have reported, some continuation is in flight. */
  lemma SomeInFlight(v: View)
    requires Inv(v, None) && v.launched >= v.p && v.completed < v.n
    ensures InFlight(v) != {} && InFlight(v) <= Below(v.n)
  {
    if InFlight(v) == {} {
      AllReported(v);
      ReportedSize(v, None);
    }
  }

  lemma AllReported(v: View)
    requires Inv(v, None) && v.launched >= v.p && InFlight(v) == {}
    ensures v.reported.Keys == Below(v.n)
  {
    hide ResultInv;
    forall i: nat | i < v.n
      ensures i in v.reported
    {
      if i !in v.reported {
        FirstUnreported(v, i);
      }
    }
  }

  lemma StartedOnce(v: View)
    requires Inv(v, None) && v.reported.Keys == Below(v.n)
    ensures |v.started| == v.n && forall i: nat :: i < v.n ==> i in v.started
  {
    hide ResultInv;
    forall i: nat | i < v.n
      ensures i in v.started
    {
      assert i in Below(v.n);
    }
    assert Elements(v.started) == Below(v.n);
    DistinctSize(v.started);
  }

  function Elements(s: seq<nat>): set<nat> {
    set i | i in s
  }

  lemma {:induction false} DistinctSize(s: seq<nat>)
    requires forall a, b :: 0 <= a < b < |s| ==> s[a] != s[b]
    ensures |Elements(s)| == |s|
  {
    if s != [] {
      var t, last := s[..|s| - 1], s[|s| - 1];
      DistinctSize(t);
      assert s == t + [last];
      assert last !in t;
      assert Elements(s) == Elements(t) + {last};
    }
  }

  /** The final callback is called only after every continuation has reported. */
  lemma FinalMeansAllReported(v: View, hole: Option<nat>)
    requires Inv(v, hole) && v.finals != []
    ensures v.reported.Keys == Below(v.n) && |v.finals| == 1
  {
    ReportedSize(v, hole);
  }

  // ---------------------------------------------------------------- one report, on values

  lemma ChildrenUpdate(n: nat, reported: map<nat, Error>, i: nat, e: Error)
    requires i < n && i !in reported
    ensures |Children(n, reported)| == n
    ensures Children(n, reported[i := e]) == Children(n, reported)[i := e]
    ensures AnyFailed(Children(n, reported[i := e])) <==> AnyFailed(Children(n, reported)) || e.code != 0
  {
    var a, b := Children(n, reported), Children(n, reported[i := e]);
    assert b == a[i := e];
    assert b[i] == e && a[i] == NO_ERROR;
    if k :| 0 <= k < n && a[k].code != 0 {
      assert b[k] == a[k];
    }
  }

  /** The effect of a report, up to calling the next continuation of the lane. */
  function Report(v: View, i: nat, e: Error): View
    requires i < |v.overall.children|
  {
    var failed := if e.code != 0 && v.overall.code == NO_ERROR.code
                  then v.overall.(code := PARALLEL_OPERATION_ERROR.code, reason := PARALLEL_OPERATION_ERROR.reason)
                  else v.overall;
    var overall := failed.(children := failed.children[i := e]);
    v.(reported := v.reported[i := e],
       completed := v.completed + 1,
       overall := overall,
       finals := if v.completed + 1 == v.n then v.finals + [overall] else v.finals)
  }

  lemma ReportKeepsResult(v: View, i: nat, e: Error)
    requires v.overall == Result(Children(v.n, v.reported)) && i < v.n && i !in v.reported
    ensures i < |v.overall.children| && Report(v, i, e).overall == Result(Children(v.n, v.reported[i := e]))
  {
    ChildrenUpdate(v.n, v.reported, i, e);
  }

  lemma NotAllReported(v: View, i: nat)
    requires Inv(v, None) && i in InFlight(v)
    ensures i < v.n && i !in v.reported && v.completed < v.n && v.finals == []
  {
    ReportedSize(v, None);
    assert i in Below(v.n);
  }

  lemma ReportCounts(reported: map<nat, Error>, i: nat, e: Error)
    requires i !in reported
    ensures reported[i := e].Keys == reported.Keys + {i} && |reported[i := e]| == |reported| + 1
  {
    assert |reported[i := e]| == |reported[i := e].Keys| && |reported| == |reported.Keys|;
  }

  lemma ReportKeepsResultInv(v: View, i: nat, e: Error)
    requires ResultInv(v) && i < v.n && i !in v.reported
    ensures i < |v.overall.children| && ResultInv(Report(v, i, e))
  {
    hide Children, Result;
    ReportKeepsResult(v, i, e);
    ReportCounts(v.reported, i, e);
  }

  lemma ReportFields(v: View, i: nat, e: Error)
    requires i < |v.overall.children|
    ensures var w := Report(v, i, e);
      && w.n == v.n && w.p == v.p && w.launched == v.launched && w.started == v.started
      && w.reported == v.reported[i := e] && w.completed == v.completed + 1
      && w.finals == if w.completed == v.n then v.finals + [w.overall] else v.finals
  {
  }

  /** After a report that is not the last, the next continuation of the lane is due. */
  lemma ReportMakesDue(v: View, i: nat, e: Error)
    requires Inv(v, None) && i in InFlight(v)
    ensures i < |v.overall.children| && Report(v, i, e).completed <= v.n
    ensures Inv(Report(v, i, e), if i + v.p < v.n then Some(i + v.p) else None)
    ensures i + v.p < v.n ==> i + v.p !in Report(v, i, e).reported
  {
    NotAllReported(v, i);
    ReportKeepsResultInv(v, i, e);
    ReportFields(v, i, e);
    ReportCounts(v.reported, i, e);
    hide ResultInv, Report;
    ReportKeepsStarted(v, i, Report(v, i, e));
    hide StartedInv, InFlight;
  }

  /** After the last report no continuation is due. */
  lemma LastReport(v: View, i: nat, e: Error)
    requires Inv(v, None) && i in InFlight(v) && v.completed + 1 == v.n
    ensures i < |v.overall.children| && Inv(Report(v, i, e), None)
  {
    hide Report, Inv, InFlight;
    ReportMakesDue(v, i, e);
    ReportFields(v, i, e);
    NoHoleAtEnd(Report(v, i, e), if i + v.p < v.n then Some(i + v.p) else None);
  }

  lemma NoHoleAtEnd(v: View, hole: Option<nat>)
    requires Inv(v, hole) && v.completed == v.n && (hole.Some? ==> hole.value !in v.reported)
    ensures hole == None
  {
    assert hole.Some? ==> hole.value in Below(v.n);
    ReportedSize(v, hole);
  }

  lemma ReportKeepsStarted(v: View, i: nat, w: View)
    requires StartedInv(v, None) && i in InFlight(v) && i < v.n
    requires w.n == v.n && w.p == v.p && w.launched == v.launched && w.started == v.started
    requires v.p > 0 && w.reported.Keys == v.reported.Keys + {i}
    ensures StartedInv(w, if i + v.p < v.n then Some(i + v.p) else None)
    ensures i + v.p < v.n ==> i + v.p !in w.reported
  {
    var hole := if i + v.p < v.n then Some(i + v.p) else None;
    forall k: nat
      ensures k in w.started <==> k < w.n && IsDue(w, k) && hole != Some(k)
    {
      assert k in v.started <==> k < v.n && IsDue(v, k);
    }
  }

  /** A continuation is called when it is due. */
  lemma StartFillsHole(v: View, i: nat)
    requires Inv(v, Some(i))
    ensures Inv(v.(started := v.started + [i]), None) && i in InFlight(v.(started := v.started + [i]))
  {
    hide Children, Result;
    var w := v.(started := v.started + [i]);
    forall k: nat
      ensures k in w.started <==> k < w.n && IsDue(w, k)
    {
      assert k in v.started <==> k < v.n && IsDue(v, k) && Some(i) != Some(k);
    }
    assert i in w.started;
  }

  /** Entering lane `v.launched` makes its first continuation due. */
  lemma LaunchMakesDue(v: View)
    requires Inv(v, None) && v.launched < v.p
    ensures Inv(v.(launched := v.launched + 1), if v.launched < v.n then Some(v.launched) else None)
  {
    hide Children, Result;
    var w := v.(launched := v.launched + 1);
    var hole := if v.launched < v.n then Some(v.launched) else None;
    forall k: nat
      ensures k in w.started <==> k < w.n && IsDue(w, k) && hole != Some(k)
    {
      assert k in v.started <==> k < v.n && IsDue(v, k);
    }
  }

  /** The operation after the set-up part of parallel(). */
  function Fresh(n: nat, p: nat): View {
    View(n, p, 0, [], map[], Result(Children(n, map[])), 0, [])
  }

  lemma FreshOperation(n: nat, p: nat)
    requires n > 0 && p > 0
    ensures Inv(Fresh(n, p), None)
  {
  }

  // ------------------------------------------------------------------- every interleaving

  // The loop of parallel() enters a lane, or a continuation in flight calls back. Each step
  // includes the call of the continuation that it makes due; what is left of run() and of
  // the callback after that call does nothing.
  datatype Step = Launch | Rep(i: nat, e: Error)

  predicate Enabled(v: View, step: Step) {
    match step
    case Launch => v.launched < v.p
    case Rep(i, e) => i in InFlight(v) && i < |v.overall.children|
  }

  /** run(), up to what the continuation does. */
  function Start(v: View, i: nat): View {
    if i < v.n then v.(started := v.started + [i]) else v
  }

  function Apply(v: View, step: Step): View
    requires Enabled(v, step)
  {
    match step
    case Launch => Start(v.(launched := v.launched + 1), v.launched)
    case Rep(i, e) =>
      var w := Report(v, i, e);
      if w.completed == w.n then w else Start(w, i + v.p)
  }

  /** Every continuation in flight may call back, and its slot of child_errors exists. */
  lemma InFlightMayReport(v: View, i: nat, e: Error)
    requires Inv(v, None) && i in InFlight(v)
    ensures Enabled(v, Rep(i, e))
  {
    ReportMakesDue(v, i, e);
  }

  lemma StartKeepsInv(v: View, i: nat)
    requires Inv(v, if i < v.n then Some(i) else None)
    ensures Inv(Start(v, i), None)
  {
    if i < v.n {
      StartFillsHole(v, i);
    }
  }

  lemma StepKeepsInv(v: View, step: Step)
    requires Inv(v, None) && v.launched <= v.p && Enabled(v, step)
    ensures Inv(Apply(v, step), None)
    ensures var w := Apply(v, step);
      w.n == v.n && w.p == v.p && w.launched <= v.p && w.launched + w.completed == v.launched + v.completed + 1
  {
    hide Inv, InFlight, Result, Children;
    match step
    case Launch =>
      LaunchMakesDue(v);
      StartKeepsInv(v.(launched := v.launched + 1), v.launched);
    case Rep(i, e) =>
      ReportFields(v, i, e);
      hide Report;
      StepReports(v, i, e);
  }

  lemma StepReports(v: View, i: nat, e: Error)
    requires Inv(v, None) && Enabled(v, Rep(i, e))
    ensures Inv(Apply(v, Rep(i, e)), None)
  {
    hide Inv, InFlight;
    ReportFields(v, i, e);
    if v.completed + 1 == v.n {
      LastReport(v, i, e);
    } else {
      ReportMakesDue(v, i, e);
      hide Report;
      StartKeepsInv(Report(v, i, e), i + v.p);
    }
  }

  /** A run of the operation: lanes and reports in any order, with any errors. */
  ghost predicate IsRun(n: nat, p: nat, states: seq<View>, steps: seq<Step>) {
    && |states| == |steps| + 1 && states[0] == Fresh(n, p)
    && forall k :: 0 <= k < |steps| ==> Enabled(states[k], steps[k]) && states[k + 1] == Apply(states[k], steps[k])
  }

  lemma {:induction false} RunKeepsInv(n: nat, p: nat, states: seq<View>, steps: seq<Step>, k: nat)
    requires n > 0 && p > 0 && IsRun(n, p, states, steps) && k < |states|
    ensures var v := states[k];
      Inv(v, None) && v.n == n && v.p == p && v.launched <= p && v.launched + v.completed == k
  {
    hide Inv, Enabled, Apply;
    if k == 0 {
      FreshOperation(n, p);
    } else {
      RunKeepsInv(n, p, states, steps, k - 1);
      StepKeepsInv(states[k - 1], steps[k - 1]);
    }
  }

  /**
   * In every state of every run: no two continuations of a lane and at most `p` in all are
   * in flight, none was started twice, none has reported that was not started, no more than
   * all have completed, and the final callback was called only if all have, and only once.
   */
  lemma ReachableStates(n: nat, p: nat, states: seq<View>, steps: seq<Step>, k: nat)
    requires n > 0 && p > 0 && IsRun(n, p, states, steps) && k < |states|
    ensures var v := states[k];
      && (forall i, j :: i in InFlight(v) && j in InFlight(v) && Lane(i, p) == Lane(j, p) ==> i == j)
      && |InFlight(v)| <= p
      && (forall a, b :: 0 <= a < b < |v.started| ==> v.started[a] != v.started[b])
      && (forall i :: i in v.reported ==> i in v.started)
      && v.completed == |v.reported| <= n
      && v.finals == if v.reported.Keys == Below(n) then [v.overall] else []
  {
    RunKeepsInv(n, p, states, steps, k);
    AtMostParallelismInFlight(states[k], None);
    ReportedSize(states[k], None);
  }

  /**
   * A run takes at most one step for each lane and each continuation. When it can go no
   * further, all were started exactly once and have reported, and the final callback got,
   * once, a result that depends on the reports alone and not on the order of the steps.
   */
  lemma EveryRunEnds(n: nat, p: nat, states: seq<View>, steps: seq<Step>)
    requires n > 0 && p > 0 && IsRun(n, p, states, steps)
    ensures |steps| <= p + n
    ensures var v := states[|steps|];
      (forall step :: !Enabled(v, step)) <==> v.launched == p && v.completed == n
    ensures var v := states[|steps|];
      v.launched == p && v.completed == n ==>
        && v.reported.Keys == Below(n)
        && |v.started| == n && (forall i: nat :: i < n ==> i in v.started)
        && v.finals == [Result(seq(n, i requires i in v.reported => v.reported[i]))]
  {
    var v := states[|steps|];
    RunKeepsInv(n, p, states, steps, |steps|);
    ReportedSize(v, None);
    hide Inv, IsRun;
    if v.launched == p && v.completed == n {
      NothingInFlight(v);
      NothingInFlightMeansDone(v);
    } else if v.launched < p {
      assert Enabled(v, Launch);
    } else {
      SomeInFlight(v);
      var i: nat :| i in InFlight(v);
      InFlightMayReport(v, i, NO_ERROR);
    }
  }

  /** The limit is used: with the lanes entered and no report yet, the first p are in flight. */
  lemma LanesStartTogether(n: nat, p: nat, states: seq<View>, steps: seq<Step>, k: nat)
    requires n > 0 && p > 0 && IsRun(n, p, states, steps) && k < |states|
    requires states[k].launched == p && states[k].completed == 0
    ensures forall i: nat :: i in InFlight(states[k]) <==> i < n && i < p
  {
    RunKeepsInv(n, p, states, steps, k);
    ReportedSize(states[k], None);
  }

  /** And every lane may be entered before any report. */
  lemma {:induction false} LanesNeedNoReport(n: nat, p: nat, k: nat) returns (states: seq<View>, steps: seq<Step>)
    requires n > 0 && p > 0 && k <= p
    ensures IsRun(n, p, states, steps) && |steps| == k
    ensures states[k].launched == k && states[k].completed == 0
  {
    if k == 0 {
      return [Fresh(n, p)], [];
    }
    states, steps := LanesNeedNoReport(n, p, k - 1);
    RunKeepsInv(n, p, states, steps, k - 1);
    hide Inv;
    states, steps := states + [Apply(states[k - 1], Launch)], steps + [Launch];
  }

  lemma NothingInFlight(v: View)
    requires Inv(v, None) && v.completed == v.n
    ensures InFlight(v) == {}
  {
    ReportedSize(v, None);
    forall i | i in v.started
      ensures i in v.reported
    {
      assert i in Below(v.n);
    }
  }

  // ---------------------------------------------------------------------------- the class

  class Operation {
    // What each continuation calls back with.
    const input: seq<Error>
    const parallelism: nat
    var overall: Error
    var completed: nat
    // What happened so far, which the choices of the environment depend on; the source
    // keeps no such fields.
    var launched: nat
    var started: seq<nat>
    var reported: map<nat, Error>
    var finals: seq<Error>
    // The run that led here.
    ghost var states: seq<View>
    ghost var steps: seq<Step>

    function Seen(): View
      reads this
    {
      View(|input|, parallelism, launched, started, reported, overall, completed, finals)
    }

    /** Every report recorded is the one its continuation made. */
    ghost predicate Faithful()
      reads this
    {
      forall i :: i in reported ==> i < |input| && reported[i] == input[i]
    }

    /** The nested calls so far are a run; its last step has yet to call `hole`. */
    ghost predicate Recorded(hole: Option<nat>)
      reads this
    {
      && IsRun(|input|, parallelism, states, steps)
      && states[|steps|] == if hole.Some? then Start(Seen(), hole.value) else Seen()
    }

    ghost predicate Valid(hole: Option<nat>)
      reads this
    {
      parallelism > 0 && Inv(Seen(), hole) && Faithful() && Recorded(hole)
    }

    ghost method Record(step: Step)
      requires Recorded(None) && Enabled(Seen(), step)
      modifies this`states, this`steps
      ensures IsRun(|input|, parallelism, states, steps) && states[|steps|] == Apply(Seen(), step)
    {
      hide Enabled, Apply;
      states, steps := states + [Apply(Seen(), step)], steps + [step];
    }

    /** The set-up part of parallel(), for a non-empty input. */
    constructor (input: seq<Error>, parallelism: nat)
      requires input != []
      ensures Valid(None) && this.input == input && Seen() == Fresh(|input|, this.parallelism)
      ensures this.parallelism == if parallelism == 0 then |input| else parallelism
    {
      this.input := input;
      this.parallelism := if parallelism <= 0 then |input| else parallelism;
      overall := Error(0, "", seq(|input|, i => NO_ERROR));
      completed, launched, started, reported, finals := 0, 0, [], map[], [];
      steps := [];
      new;
      FreshOperation(|input|, this.parallelism);
      assert Children(|input|, map[]) == seq(|input|, i => NO_ERROR);
      assert !AnyFailed(Children(|input|, map[]));
      states := [Seen()];
    }

    /** Continuation `idx` is called; before it returns, it and others may call back. */
    method Run(idx: nat)
      requires Valid(if idx < |input| then Some(idx) else None)
      modifies this
      ensures Valid(None) && launched == old(launched)
      ensures old(completed) <= completed && forall k :: k in old(reported) ==> k in reported
      decreases |input| - completed, 2
    {
      hide Inv, IsDue, IsRun;
      if idx < |input| {
        StartFillsHole(Seen(), idx);
        started := started + [idx];
        CallBacks();
      }
    }

    /** Any continuations in flight call back, in any order and any number of them. */
    method CallBacks()
      requires Valid(None)
      modifies this
      ensures Valid(None) && launched == old(launched)
      ensures old(completed) <= completed && forall k :: k in old(reported) ==> k in reported
      decreases |input| - completed, 1
    {
      hide Inv, IsRun;
      var more: bool := *;
      while more && InFlight(Seen()) != {}
        invariant Valid(None) && launched == old(launched)
        invariant old(completed) <= completed && forall k :: k in old(reported) ==> k in reported
        decreases |input| - completed
      {
        var i: nat :| i in InFlight(Seen());
        NotAllReported(Seen(), i);
        OnReport(i, input[i]);
        more := *;
      }
    }

    /** The callback that continuation `idx` is given. */
    method OnReport(idx: nat, error: Error)
      requires Valid(None) && idx < |input| && idx in InFlight(Seen()) && error == input[idx]
      modifies this
      ensures Valid(None) && launched == old(launched)
      ensures old(completed) < completed && forall k :: k in old(reported) || k == idx ==> k in reported
      decreases |input| - completed, 0
    {
      hide Inv, InFlight, IsRun, Report, Enabled;
      ghost var v := Seen();
      InFlightMayReport(v, idx, error);
      ReportMakesDue(v, idx, error);
      ReportFields(v, idx, error);
      Record(Rep(idx, error));
      if completed + 1 == |input| {
        LastReport(v, idx, error);
      }
      Absorb(idx, error);
      if completed == |input| {
        return;
      }
      if completed > |input| {
        assert false;
      }
      Run(idx + parallelism);
    }

    /** The part of the callback up to the call of the final callback. */
    method Absorb(idx: nat, error: Error)
      requires idx < |overall.children|
      modifies this`overall, this`completed, this`reported, this`finals
      ensures Seen() == Report(old(Seen()), idx, error)
    {
      if error.code != 0 && overall.code == NO_ERROR.code {
        overall := overall.(code := PARALLEL_OPERATION_ERROR.code, reason := PARALLEL_OPERATION_ERROR.reason);
      }
      overall := overall.(children := overall.children[idx := error]);
      completed := completed + 1;
      reported := reported[idx := error];
      if completed == |input| {
        finals := finals + [overall];
      }
    }

    /** The loop of parallel() over the lanes; callbacks may come between two of them. */
    method Launch()
      requires Valid(None) && launched == 0
      modifies this
      ensures Valid(None) && launched == parallelism
    {
      hide Inv, IsDue, IsRun;
      var idx := 0;
      while idx < parallelism
        invariant 0 <= idx <= parallelism && launched == idx && Valid(None)
      {
        CallBacks();
        LaunchMakesDue(Seen());
        Record(Step.Launch);
        launched := idx + 1;
        Run(idx);
        idx := idx + 1;
      }
    }
  }

  lemma FinalResult(v: View, input: seq<Error>)
    requires Inv(v, None) && v.n == |input| && v.completed >= v.n
    requires forall i :: i in v.reported ==> i < |input| && v.reported[i] == input[i]
    ensures v.finals == [Result(input)]
  {
    hide StartedInv, Result;
    ReportedSize(v, None);
    assert Children(v.n, v.reported) == input;
  }

  /** A run for this input from the set-up on, never over the limit. */
  ghost predicate IsOperation(input: seq<Error>, parallelism: nat, states: seq<View>, steps: seq<Step>) {
    && input != [] && IsRun(|input|, if parallelism == 0 then |input| else parallelism, states, steps)
    && forall k :: 0 <= k < |states| ==> |InFlight(states[k])| <= if parallelism == 0 then |input| else parallelism
  }

  /**
   * A whole operation, whose continuations call back with `input` whenever they like: the
   * choices made here, in Run and in Launch leave the order open. It is a run that keeps to
   * the limit and ends, and its one result is fixed by the reports.
   */
  method Parallel(input: seq<Error>, parallelism: nat)
    returns (finals: seq<Error>, ghost states: seq<View>, ghost steps: seq<Step>)
    ensures finals == [Result(input)] && finals[0].children == input
    ensures finals[0].code == if exists k :: 0 <= k < |input| && input[k].code != 0 then 10 else 0
    ensures input != [] ==>
      IsOperation(input, parallelism, states, steps) && states[|steps|].finals == finals
      && states[|steps|].reported.Keys == Below(|input|)
  {
    if |input| <= 0 {
      return [NO_ERROR], [], [];
    }
    hide Inv, InFlight, IsRun, Result, IsOperation;
    var op := new Operation(input, parallelism);
    op.Launch();
    while op.completed < |input|
      invariant op.input == input && op.Valid(None) && op.launched == op.parallelism
      invariant op.parallelism == if parallelism == 0 then |input| else parallelism
      decreases |input| - op.completed
    {
      SomeInFlight(op.Seen());
      var i: nat :| i in InFlight(op.Seen());
      op.OnReport(i, input[i]);
    }
    finals, states, steps := op.finals, op.states, op.steps;
    OperationEnds(input, parallelism, op.Seen(), states, steps);
  }

  lemma OperationEnds(input: seq<Error>, parallelism: nat, v: View, states: seq<View>, steps: seq<Step>)
    requires Inv(v, None) && input != [] && v.n == |input| && v.completed >= v.n
    requires v.p == if parallelism == 0 then |input| else parallelism
    requires forall i :: i in v.reported ==> i < |input| && v.reported[i] == input[i]
    requires IsRun(v.n, v.p, states, steps)
    ensures v.finals == [Result(input)] && v.reported.Keys == Below(|input|)
    ensures Result(input).children == input
    ensures Result(input).code == if exists k :: 0 <= k < |input| && input[k].code != 0 then 10 else 0
    ensures IsOperation(input, parallelism, states, steps)
  {
    hide Inv, InFlight, IsRun;
    FinalResult(v, input);
    ReportedSize(v, None);
    NeverOverLimit(v.n, v.p, states, steps);
  }

  lemma NeverOverLimit(n: nat, p: nat, states: seq<View>, steps: seq<Step>)
    requires n > 0 && p > 0 && IsRun(n, p, states, steps)
    ensures forall k :: 0 <= k < |states| ==> |InFlight(states[k])| <= p
  {
    hide InFlight, IsRun;
    forall k | 0 <= k < |states|
      ensures |InFlight(states[k])| <= p
    {
      ReachableStates(n, p, states, steps, k);
    }
  }
}

/** Starting and stopping the tasks: whatever fails on the way and whenever the threads exit, each
    task is cleaned up after exactly once. */
module Lifecycle {
  import opened FiniteSets
  import opened OutputEdges

  datatype Kind = Mux | Enc | Filter | Dec | Demux

  datatype Task = Task(
    kind: Kind,
    present: bool, // a filtergraph may have been removed again
    startable: bool, // a demuxer without streams is not started
    running: bool, // thread_running: from the creation of the thread until it is joined
    exited: bool, // the thread has ended, its cleanup included
    cleanups: nat,
    edges: seq<Edge>) // destinations of a demuxer, decoder or encoder; the others have none

  datatype Phase = Uninit | Starting | Started | Stopping | Stopped

  datatype State = State(
    phase: Phase,
    tasks: seq<Task>,
    attempted: set<nat>, // tasks that sch_start() has come past
    stopped: set<nat>, // tasks that sch_stop() has come past
    muxDone: nat)

  // The order in which sch_start() and sch_stop() deal with the kinds of tasks.
  function StartOrder(k: Kind): nat {
    match k case Mux => 0 case Enc => 1 case Filter => 2 case Dec => 3 case Demux => 4
  }

  function StopOrder(k: Kind): nat {
    match k case Demux => 0 case Dec => 1 case Filter => 2 case Enc => 3 case Mux => 4
  }

  datatype Step =
    | Prepare // start_prepare() succeeds
    | StartTask(i: nat) // the thread is created
    | PassTask(i: nat) // nothing to be started, or not yet
    | StartFails // some thread or muxer cannot be started
    | AllStarted
    | StartMux(i: nat) // by a task that readies the last stream of a muxer
    | Send(i: nat, edge: nat, call: Call)
    | Exit(i: nat)
    | Stop // sch_stop() is called
    | StopTask(i: nat)
    | AllStopped

  predicate Active(t: Task) {
    t.running && !t.exited
  }

  ghost predicate Enabled(s: State, step: Step) {
    match step
    case Prepare => s.phase.Uninit?
    case StartTask(i) => IsNextStart(s, i) && s.tasks[i].present && s.tasks[i].startable && !s.tasks[i].running
    // muxers need not be ready yet, and with one SDP for all are started together
    case PassTask(i) => IsNextStart(s, i)
                        && (s.tasks[i].kind.Mux? || !s.tasks[i].present || !s.tasks[i].startable)
    case StartFails => s.phase.Starting?
    case AllStarted => s.phase.Starting? && forall i :: 0 <= i < |s.tasks| ==> i in s.attempted
    case StartMux(i) => i < |s.tasks| && s.tasks[i].kind.Mux? && s.tasks[i].present && !s.tasks[i].running
                        && (InMuxPart(s) || SomebodyActive(s))
    case Send(i, k, call) => i < |s.tasks| && Active(s.tasks[i]) && k < |s.tasks[i].edges|
                             && (call.Flush? ==> s.tasks[i].kind.Demux?)
    case Exit(i) => i < |s.tasks| && Active(s.tasks[i])
    case Stop => true
    // a running thread is waited for
    case StopTask(i) => IsNextStop(s, i) && (s.tasks[i].running ==> s.tasks[i].exited)
    case AllStopped => s.phase.Stopping? && forall i :: 0 <= i < |s.tasks| ==> i in s.stopped
  }

  ghost predicate IsNextStart(s: State, i: nat) {
    && s.phase.Starting? && i < |s.tasks| && i !in s.attempted
    && forall j :: 0 <= j < |s.tasks| && StartOrder(s.tasks[j].kind) < StartOrder(s.tasks[i].kind) ==> j in s.attempted
  }

  ghost predicate IsNextStop(s: State, i: nat) {
    && s.phase.Stopping? && i < |s.tasks| && i !in s.stopped
    && forall j :: 0 <= j < |s.tasks| && StopOrder(s.tasks[j].kind) < StopOrder(s.tasks[i].kind) ==> j in s.stopped
  }

  // sch_start() is still dealing with the muxers.
  ghost predicate InMuxPart(s: State) {
    s.phase.Starting? && exists j :: 0 <= j < |s.tasks| && s.tasks[j].kind.Mux? && j !in s.attempted
  }

  // The streams of a muxer are readied by the tasks upstream of it.
  ghost predicate SomebodyActive(s: State) {
    exists j :: 0 <= j < |s.tasks| && !s.tasks[j].kind.Mux? && Active(s.tasks[j])
  }

  // task_cleanup(): a muxer is counted as done, the others send the end to all destinations.
  function CleanedUp(t: Task): Task {
    t.(cleanups := t.cleanups + 1,
       edges := seq(|t.edges|, k requires 0 <= k < |t.edges| => SendToDst(t.edges[k], false, Taken).0))
  }

  function MuxCount(t: Task): nat {
    if t.kind.Mux? then 1 else 0
  }

  function With(s: State, i: nat, t: Task): State
    requires i < |s.tasks|
  {
    s.(tasks := s.tasks[i := t])
  }

  ghost function Next(s: State, step: Step): State
    requires Enabled(s, step)
  {
    match step
    case Prepare => s.(phase := Starting)
    case StartTask(i) => With(s, i, s.tasks[i].(running := true)).(attempted := s.attempted + {i})
    case PassTask(i) => s.(attempted := s.attempted + {i})
    case StartFails => s.(phase := Stopping)
    case AllStarted => s.(phase := Started)
    case StartMux(i) => With(s, i, s.tasks[i].(running := true))
    case Send(i, k, call) =>
      var t := s.tasks[i];
      With(s, i, t.(edges := t.edges[k := Apply(t.edges[k], call)]))
    case Exit(i) =>
      With(s, i, CleanedUp(s.tasks[i]).(exited := true)).(muxDone := s.muxDone + MuxCount(s.tasks[i]))
    // a scheduler that is not started, or stopped already, is left alone
    case Stop => if s.phase.Started? then s.(phase := Stopping) else s
    case StopTask(i) =>
      var t := s.tasks[i];
      var u := s.(stopped := s.stopped + {i});
      if !t.present then u
      else if !t.running then With(u, i, CleanedUp(t)).(muxDone := s.muxDone + MuxCount(t))
      else With(u, i, t.(running := false))
    case AllStopped => s.(phase := Stopped)
  }

  predicate Init(s: State) {
    && s.phase.Uninit? && s.attempted == {} == s.stopped && s.muxDone == 0
    && forall i :: 0 <= i < |s.tasks| ==> Fresh(s.tasks[i])
  }

  // Muxers send nothing; filtergraphs keep no account of finished destinations.
  predicate HasEdges(k: Kind) {
    k.Demux? || k.Dec? || k.Enc?
  }

  predicate Fresh(t: Task) {
    && !t.running && !t.exited && t.cleanups == 0
    && (t.kind.Mux? ==> t.present && t.startable)
    && (HasEdges(t.kind) || t.edges == [])
    && forall k :: 0 <= k < |t.edges| ==> t.edges[k] == NEW_EDGE
  }

  // ---------------------------------------------------------------- the invariant

  ghost predicate TaskOk(t: Task, stopped: bool) {
    && t.cleanups == (if t.exited || (stopped && t.present) then 1 else 0)
    && (t.running || t.exited ==> t.present)
    && (stopped ==> !t.running)
    && (t.exited && !stopped ==> t.running)
    && (t.kind.Mux? ==> t.present)
    && (HasEdges(t.kind) || t.edges == [])
    && (forall k :: 0 <= k < |t.edges| ==> EdgeOk(t.edges[k]) && (t.edges[k].finished ==> EdgeDone(t.edges[k])))
    && (t.cleanups > 0 ==> forall k :: 0 <= k < |t.edges| ==> EdgeDone(t.edges[k]))
  }

  ghost function Muxes(tasks: seq<Task>): set<nat> {
    set i | 0 <= i < |tasks| && tasks[i].kind.Mux?
  }

  // Muxers that have been cleaned up after.
  ghost function DoneMuxes(tasks: seq<Task>): set<nat> {
    set i | 0 <= i < |tasks| && tasks[i].kind.Mux? && tasks[i].cleanups > 0
  }

  // With a task, all tasks of the kinds that are stopped before its kind are stopped.
  ghost predicate StoppedInOrder(tasks: seq<Task>, stopped: set<nat>) {
    forall i, j :: (0 <= i < |tasks| && 0 <= j < |tasks| && StopOrder(tasks[j].kind) < StopOrder(tasks[i].kind)) ==>
      (i in stopped ==> j in stopped)
  }

  ghost predicate Inv(s: State) {
    && (forall i :: 0 <= i < |s.tasks| ==> TaskOk(s.tasks[i], i in s.stopped))
    && StoppedInOrder(s.tasks, s.stopped)
    && s.muxDone == |DoneMuxes(s.tasks)|
    && (s.phase.Stopped? ==> forall i :: 0 <= i < |s.tasks| ==> i in s.stopped)
    && (s.phase.Uninit? ==>
          s.muxDone == 0 && forall i :: 0 <= i < |s.tasks| ==> s.tasks[i].cleanups == 0 && !s.tasks[i].running)
  }

  lemma InitInv(s: State)
    requires Init(s)
    ensures Inv(s)
  {
    assert DoneMuxes(s.tasks) == {};
  }

  // Cleaning up after a task finishes its edges.
  lemma CleanedUpOk(t: Task)
    requires TaskOk(t, false) && t.cleanups == 0
    ensures forall k :: 0 <= k < |t.edges| ==> var e := CleanedUp(t).edges[k]; EdgeOk(e) && EdgeDone(e)
  {
    forall k | 0 <= k < |t.edges|
      ensures var e := CleanedUp(t).edges[k]; EdgeOk(e) && EdgeDone(e)
    {
      SendKeepsOk(t.edges[k], false, Taken);
    }
  }

  // Task i, not counted before, is cleaned up after.
  lemma DoneMuxesGrow(tasks: seq<Task>, i: nat, t: Task)
    requires i < |tasks| && tasks[i].cleanups == 0 && t.cleanups > 0 && t.kind == tasks[i].kind
    ensures |DoneMuxes(tasks[i := t])| == |DoneMuxes(tasks)| + MuxCount(t)
  {
    if t.kind.Mux? {
      assert DoneMuxes(tasks[i := t]) == DoneMuxes(tasks) + {i};
    } else {
      assert DoneMuxes(tasks[i := t]) == DoneMuxes(tasks);
    }
  }

  lemma DoneMuxesSame(tasks: seq<Task>, i: nat, t: Task)
    requires i < |tasks| && tasks[i].cleanups == t.cleanups && t.kind == tasks[i].kind
    ensures DoneMuxes(tasks[i := t]) == DoneMuxes(tasks)
  {
  }

  // A muxer that has not been cleaned up after is missing from the count.
  lemma MuxMissing(tasks: seq<Task>, i: nat)
    requires i < |tasks| && tasks[i].kind.Mux? && tasks[i].cleanups == 0
    ensures |DoneMuxes(tasks)| < |Muxes(tasks)|
  {
    assert i in Muxes(tasks) && i !in DoneMuxes(tasks);
    ProperSubsetSmaller(DoneMuxes(tasks), Muxes(tasks));
  }

  // A muxer can only be started while it has not been stopped: those who would start it are
  // stopped first.
  lemma StartMuxKeeps(s: State, i: nat)
    requires Inv(s) && Enabled(s, StartMux(i)) && (s.phase.Starting? ==> s.stopped == {})
    ensures i !in s.stopped && !s.tasks[i].exited
    ensures Inv(Next(s, StartMux(i)))
  {
    assert TaskOk(s.tasks[i], i in s.stopped);
    DoneMuxesSame(s.tasks, i, s.tasks[i].(running := true));
  }

  lemma ExitKeeps(s: State, i: nat)
    requires Inv(s) && Enabled(s, Exit(i))
    ensures Inv(Next(s, Exit(i)))
    // the assertion in mux_done()
    ensures s.tasks[i].kind.Mux? ==> s.muxDone < |Muxes(s.tasks)|
  {
    var t := s.tasks[i];
    assert TaskOk(t, i in s.stopped);
    CleanedUpOk(t);
    DoneMuxesGrow(s.tasks, i, CleanedUp(t).(exited := true));
    if t.kind.Mux? {
      MuxMissing(s.tasks, i);
    }
  }

  // A task that was never started, or has no thread any more, is cleaned up after by sch_stop().
  lemma StopIdleKeeps(s: State, i: nat)
    requires Inv(s) && Enabled(s, StopTask(i)) && s.tasks[i].present && !s.tasks[i].running
    ensures Inv(Next(s, StopTask(i)))
    ensures s.tasks[i].kind.Mux? ==> s.muxDone < |Muxes(s.tasks)|
  {
    hide DoneMuxes, Muxes, CleanedUp, EdgeOk, EdgeDone, SendToDst;
    var t := s.tasks[i];
    assert TaskOk(t, i in s.stopped);
    StopIdleTask(t);
    DoneMuxesGrow(s.tasks, i, CleanedUp(t));
    if t.kind.Mux? {
      MuxMissing(s.tasks, i);
    }
    var u := Next(s, StopTask(i));
    assert u.tasks[i] == CleanedUp(t);
    assert forall k :: 0 <= k < |s.tasks| && k != i ==> u.tasks[k] == s.tasks[k];
  }

  lemma StopIdleTask(t: Task)
    requires TaskOk(t, false) && t.present && !t.running
    ensures TaskOk(CleanedUp(t), true) && t.cleanups == 0 && CleanedUp(t).cleanups == 1
    ensures CleanedUp(t).kind == t.kind
  {
    CleanedUpOk(t);
  }

  // The thread of a running task has ended, and cleaned up after itself.
  lemma JoinKeeps(s: State, i: nat)
    requires Inv(s) && Enabled(s, StopTask(i)) && (s.tasks[i].present ==> s.tasks[i].running)
    ensures Inv(Next(s, StopTask(i)))
  {
    var t := s.tasks[i];
    assert TaskOk(t, i in s.stopped);
    DoneMuxesSame(s.tasks, i, t.(running := false));
  }

  lemma SendKeeps(s: State, i: nat, k: nat, call: Call)
    requires Inv(s) && Enabled(s, Send(i, k, call))
    ensures Inv(Next(s, Send(i, k, call)))
  {
    var t := s.tasks[i];
    assert TaskOk(t, i in s.stopped);
    ApplyKeepsOk(t.edges[k], call);
    DoneMuxesSame(s.tasks, i, t.(edges := t.edges[k := Apply(t.edges[k], call)]));
  }

  lemma StartTaskKeeps(s: State, i: nat)
    requires Inv(s) && Enabled(s, StartTask(i)) && s.stopped == {}
    ensures Inv(Next(s, StartTask(i)))
  {
    assert TaskOk(s.tasks[i], i in s.stopped);
    DoneMuxesSame(s.tasks, i, s.tasks[i].(running := true));
  }

  ghost predicate RunInv(s: State) {
    Inv(s) && (s.stopped != {} ==> s.phase.Stopping? || s.phase.Stopped?)
  }

  lemma NextInv(s: State, step: Step)
    requires RunInv(s) && Enabled(s, step)
    ensures RunInv(Next(s, step))
  {
    match step
    case StartTask(i) => StartTaskKeeps(s, i);
    case StartMux(i) => StartMuxKeeps(s, i);
    case Send(i, k, call) => SendKeeps(s, i, k, call);
    case Exit(i) => ExitKeeps(s, i);
    case StopTask(i) =>
      if s.tasks[i].present && !s.tasks[i].running {
        StopIdleKeeps(s, i);
      } else {
        JoinKeeps(s, i);
      }
    case _ =>
  }

  // ---------------------------------------------------------------- whole runs

  ghost predicate IsRun(states: seq<State>, steps: seq<Step>) {
    && |states| == |steps| + 1
    && Init(states[0])
    && forall k :: 0 <= k < |steps| ==> Enabled(states[k], steps[k]) && states[k + 1] == Next(states[k], steps[k])
  }

  lemma {:induction false} EveryState(states: seq<State>, steps: seq<Step>, k: nat)
    requires IsRun(states, steps) && k < |states|
    ensures RunInv(states[k])
  {
    if k == 0 {
      InitInv(states[0]);
    } else {
      EveryState(states, steps, k - 1);
      assert Enabled(states[k - 1], steps[k - 1]);
      NextInv(states[k - 1], steps[k - 1]);
    }
  }

  // At every time: no task is cleaned up after twice, no muxer is counted twice, and every edge
  // has been given the finish signal at most once.
  lemma NeverTwice(states: seq<State>, steps: seq<Step>, k: nat)
    requires IsRun(states, steps) && k < |states|
    ensures var s := states[k];
      && (forall i :: 0 <= i < |s.tasks| ==> s.tasks[i].cleanups <= 1)
      && s.muxDone <= |Muxes(s.tasks)|
      && forall i, e :: 0 <= i < |s.tasks| && e in s.tasks[i].edges ==> Finishes(e.log) <= 1
  {
    EveryState(states, steps, k);
    var s := states[k];
    SubsetNoLarger(DoneMuxes(s.tasks), Muxes(s.tasks));
    forall i, e | 0 <= i < |s.tasks| && e in s.tasks[i].edges
      ensures Finishes(e.log) <= 1
    {
      assert TaskOk(s.tasks[i], i in s.stopped);
      FinishedOnce(e);
    }
  }

  // Once the scheduler has been stopped, however its start went: every task has been cleaned up
  // after exactly once, all muxers are counted, and every destination of a demuxer, decoder or
  // encoder has been told the end once.
  lemma StoppedMeansDone(states: seq<State>, steps: seq<Step>, k: nat)
    requires IsRun(states, steps) && k < |states| && states[k].phase.Stopped?
    ensures var s := states[k];
      && (forall i :: 0 <= i < |s.tasks| && s.tasks[i].present ==>
            s.tasks[i].cleanups == 1 && !s.tasks[i].running
            && forall e :: e in s.tasks[i].edges ==> HasEdges(s.tasks[i].kind) && e.finished && Finishes(e.log) == 1)
      && s.muxDone == |Muxes(s.tasks)|
  {
    EveryState(states, steps, k);
    var s := states[k];
    forall i | 0 <= i < |s.tasks| && s.tasks[i].present
      ensures s.tasks[i].cleanups == 1 && !s.tasks[i].running
      ensures forall e :: e in s.tasks[i].edges ==> HasEdges(s.tasks[i].kind) && e.finished && Finishes(e.log) == 1
    {
      assert TaskOk(s.tasks[i], true);
      forall e | e in s.tasks[i].edges
        ensures HasEdges(s.tasks[i].kind) && e.finished && Finishes(e.log) == 1
      {
        FinishedOnce(e);
      }
    }
    forall i | i in Muxes(s.tasks)
      ensures i in DoneMuxes(s.tasks)
    {
      assert TaskOk(s.tasks[i], true);
    }
    assert DoneMuxes(s.tasks) == Muxes(s.tasks);
  }

  // A start that is refused by start_prepare() leaves nothing to be stopped.
  lemma RefusedStartStopsNothing(states: seq<State>, steps: seq<Step>, k: nat)
    requires IsRun(states, steps) && k < |states| && states[k].phase.Uninit?
    ensures Enabled(states[k], Stop) && Next(states[k], Stop) == states[k]
    ensures forall i :: 0 <= i < |states[k].tasks| ==> states[k].tasks[i].cleanups == 0
  {
    EveryState(states, steps, k);
  }

  // ---------------------------------------------------------------- stopping comes to an end

  ghost function TaskWork(s: State, i: nat): nat
    requires i < |s.tasks|
  {
    if i in s.stopped then 0 else if s.tasks[i].exited then 1 else if s.tasks[i].running then 2 else 3
  }

  ghost function SumWork(s: State, k: nat): nat
    requires k <= |s.tasks|
  {
    if k == 0 then 0 else SumWork(s, k - 1) + TaskWork(s, k - 1)
  }

  function PhaseWork(p: Phase): nat {
    match p case Uninit => 4 case Starting => 3 case Started => 2 case Stopping => 1 case Stopped => 0
  }

  ghost function NotAttempted(s: State): set<nat> {
    set i | 0 <= i < |s.tasks| && i !in s.attempted
  }

  ghost function Work(s: State): nat {
    SumWork(s, |s.tasks|) + |NotAttempted(s)| + PhaseWork(s.phase)
  }

  lemma {:induction false} SumOne(s: State, t: State, i: nat, k: nat)
    requires k <= |s.tasks| == |t.tasks| && i < |s.tasks|
    requires forall j :: 0 <= j < k && j != i ==> TaskWork(t, j) == TaskWork(s, j)
    ensures SumWork(t, k) - SumWork(s, k) == if i < k then TaskWork(t, i) - TaskWork(s, i) else 0
  {
    if k > 0 {
      SumOne(s, t, i, k - 1);
    }
  }

  lemma {:induction false} SumSame(s: State, t: State, k: nat)
    requires k <= |s.tasks| == |t.tasks|
    requires forall j :: 0 <= j < k ==> TaskWork(t, j) == TaskWork(s, j)
    ensures SumWork(t, k) == SumWork(s, k)
  {
    if k > 0 {
      SumSame(s, t, k - 1);
    }
  }

  // Only task i has got nearer its end.
  lemma OneTaskWorks(s: State, t: State, i: nat)
    requires i < |s.tasks| == |t.tasks| && t.attempted == s.attempted && t.phase == s.phase
    requires forall j :: 0 <= j < |s.tasks| && j != i ==> TaskWork(t, j) == TaskWork(s, j)
    requires TaskWork(t, i) < TaskWork(s, i)
    ensures Work(t) < Work(s)
  {
    SumOne(s, t, i, |s.tasks|);
    assert NotAttempted(s) == NotAttempted(t);
  }

  // sch_start() has come past task i.
  lemma OneTaskAttempted(s: State, t: State, i: nat)
    requires i < |s.tasks| == |t.tasks| && i !in s.attempted && t.attempted == s.attempted + {i} && t.phase == s.phase
    requires forall j :: 0 <= j < |s.tasks| && j != i ==> TaskWork(t, j) == TaskWork(s, j)
    requires TaskWork(t, i) <= TaskWork(s, i)
    ensures Work(t) < Work(s)
  {
    SumOne(s, t, i, |s.tasks|);
    assert NotAttempted(s) == NotAttempted(t) + {i} && i !in NotAttempted(t);
  }

  lemma PhaseWorks(s: State, t: State)
    requires t == s.(phase := t.phase) && PhaseWork(t.phase) < PhaseWork(s.phase)
    ensures Work(t) < Work(s)
  {
    SumSame(s, t, |s.tasks|);
    assert NotAttempted(s) == NotAttempted(t);
  }

  // Starting and stopping take a bounded number of steps, however they are mixed with the rest.
  lemma WorkRunsOut(s: State, step: Step)
    requires RunInv(s) && Enabled(s, step) && !step.Send? && (step.Stop? ==> s.phase.Started?)
    ensures Work(Next(s, step)) < Work(s)
  {
    hide TaskOk, EdgeOk, EdgeDone, CleanedUp, DoneMuxes, StoppedInOrder, Work;
    var t := Next(s, step);
    match step
    case StartTask(i) =>
      NotGone(s, i);
      OneTaskAttempted(s, t, i);
    case PassTask(i) => OneTaskAttempted(s, t, i);
    case StartMux(i) =>
      NotGone(s, i);
      StartMuxKeeps(s, i);
      OneTaskWorks(s, t, i);
    case Exit(i) =>
      NotGone(s, i);
      OneTaskWorks(s, t, i);
    case StopTask(i) => OneTaskWorks(s, t, i);
    case _ => PhaseWorks(s, t);
  }

  // A task whose thread goes on has not been stopped, and one without has not exited unless it has.
  lemma NotGone(s: State, i: nat)
    requires Inv(s) && i < |s.tasks|
    ensures s.tasks[i].running ==> i !in s.stopped
    ensures s.tasks[i].exited && !s.tasks[i].running ==> i in s.stopped
  {
    assert TaskOk(s.tasks[i], i in s.stopped);
  }

  // And sch_stop() never gets stuck: a thread it waits for has yet to exit, or it can go on itself.
  lemma StopGoesOn(s: State) returns (step: Step)
    requires RunInv(s) && s.phase.Stopping?
    ensures Enabled(s, step) && (step.Exit? || step.StopTask? || step.AllStopped?)
    ensures step.Exit? ==> s.tasks[step.i].running && !s.tasks[step.i].exited
  {
    if i :| 0 <= i < |s.tasks| && i !in s.stopped {
      var next := NextToStop(s, 0, i);
      step := if Active(s.tasks[next]) then Exit(next) else StopTask(next);
    } else {
      step := AllStopped;
    }
  }

  lemma {:induction false} NextToStop(s: State, order: nat, i: nat) returns (next: nat)
    requires order <= 4 && i < |s.tasks| && i !in s.stopped
    requires forall j :: 0 <= j < |s.tasks| && StopOrder(s.tasks[j].kind) < order ==> j in s.stopped
    requires s.phase.Stopping?
    ensures IsNextStop(s, next)
    decreases 4 - order
  {
    if j :| 0 <= j < |s.tasks| && j !in s.stopped && StopOrder(s.tasks[j].kind) == order {
      next := j;
    } else {
      assert StopOrder(s.tasks[i].kind) > order;
      next := NextToStop(s, order + 1, i);
    }
  }
}

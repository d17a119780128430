/** The updater's session: a FIFO queue of tasks run strictly one after
    another, every outcome recorded whatever came before, and a verdict once
    the queue is empty. The window's callbacks `_start_updates`, `_run_next`,
    `_task_finished` and `_all_done` become functions over a session value;
    the worker's completion signal becomes a direct call. */
module Scheduler {
  import opened Common
  import opened Resolver
  import opened Spawn
  import opened Tasks

  /** A task counts as successful on exit code 0 or 100, for every task. */
  predicate TaskOk(code: int) { code == 0 || code == 100 }

  predicate Failed(r: TaskResult) { !TaskOk(r.code) }

  /** The failed results, in result order. */
  function Failures(results: seq<TaskResult>): (f: seq<TaskResult>)
    ensures forall i :: 0 <= i < |f| ==> !TaskOk(f[i].code) && f[i] in results
    ensures forall i :: 0 <= i < |results| && !TaskOk(results[i].code) ==> results[i] in f
    ensures Subsequence(f, results)
    ensures f == [] <==> forall i :: 0 <= i < |results| ==> TaskOk(results[i].code)
  {
    var f := Filter(results, Failed);
    assert f != [] ==> f[0] in results && Failed(f[0]);
    f
  }

  /** The failures of a longer history are those of its parts, in order. */
  lemma FailuresConcat(a: seq<TaskResult>, b: seq<TaskResult>)
    ensures Failures(a + b) == Failures(a) + Failures(b)
  {
    FilterConcat(a, b, Failed);
  }

  datatype Phase = Running | Complete(ok: bool)

  /** The window's session state: the tasks still queued, the results so far,
      every event logged since the run started, and the phase. */
  datatype Session = Session(queue: seq<TaskSpec>, results: seq<TaskResult>, log: seq<Event>, phase: Phase)

  /** What the window sees of the worker thread: for each task, the events it
      emits. The window relies only on their shape. */
  type Worker = TaskSpec -> TaskRun

  /** Every task run announces itself, emits output only, and finishes once. */
  ghost predicate Conforms(run: Worker)
  {
    forall t :: TaskTrace(run(t).events, t.name)
  }

  /** The update worker given the available binaries and the process oracle. */
  function UpdateWorker(avail: Availability, spawn: Spawner): (run: Worker)
    ensures Conforms(run)
  {
    t => RunTask(t, avail, spawn)
  }

  // ---------------------------------------------------------------------------
  // Reference behaviour: every task judged on its own

  /** What each task reports when run on its own, in queue order. */
  function Expected(queue: seq<TaskSpec>, run: Worker): (rs: seq<TaskResult>)
    requires Conforms(run)
    ensures |rs| == |queue|
  {
    seq(|queue|, i requires 0 <= i < |queue| =>
      TaskResult(queue[i].name, FinishCode(run(queue[i]))))
  }

  /** Taking the head task off the queue takes its result off the front. */
  lemma ExpectedCons(queue: seq<TaskSpec>, run: Worker)
    requires Conforms(run)
    requires queue != []
    ensures Expected(queue, run) ==
      [TaskResult(queue[0].name, FinishCode(run(queue[0])))] + Expected(queue[1..], run)
  {
    var rs, rs' := Expected(queue, run), Expected(queue[1..], run);
    assert forall i :: 0 <= i < |rs'| ==> rs'[i] == rs[i + 1];
  }

  /** The events of the queued tasks run back to back. */
  function Trace(queue: seq<TaskSpec>, run: Worker): seq<Event>
    requires Conforms(run)
  {
    if queue == [] then [] else run(queue[0]).events + Trace(queue[1..], run)
  }

  // ---------------------------------------------------------------------------
  // The state machine

  /** `_all_done`: called with an empty queue; judges the session and emits
      the terminal event. */
  function AllDone(s: Session): (r: Session)
    ensures r.queue == s.queue && r.results == s.results
    ensures r.phase.Complete?
    ensures r.phase.ok <==> forall i :: 0 <= i < |s.results| ==> TaskOk(s.results[i].code)
    ensures r.log == s.log + [SessionFinished(r.phase.ok, Failures(s.results))]
  {
    var failures := Failures(s.results);
    var ok := failures == [];
    s.(phase := Complete(ok), log := s.log + [SessionFinished(ok, failures)])
  }

  /** `_run_next`: with an empty queue the session ends; otherwise the head
      task is taken off the queue and run, and its completion is handled. */
  function RunNext(s: Session, run: Worker): (r: Session)
    requires Conforms(run)
    ensures r.queue == [] && r.phase.Complete?
    ensures r.results == s.results + Expected(s.queue, run)
    ensures r.log == s.log + Trace(s.queue, run) + [SessionFinished(r.phase.ok, Failures(r.results))]
    ensures r.phase.ok <==> Failures(r.results) == []
    decreases |s.queue|, 0
  {
    if s.queue == [] then
      assert s.results + Expected(s.queue, run) == s.results;
      assert s.log + Trace(s.queue, run) == s.log;
      AllDone(s)
    else
      var task := s.queue[0];
      var outcome := run(task);
      var r := TaskFinished(s.(queue := s.queue[1..], log := s.log + outcome.events), FinishCode(outcome), task.name, run);
      ExpectedCons(s.queue, run);
      assert s.log + outcome.events + Trace(s.queue[1..], run) == s.log + Trace(s.queue, run);
      r
  }

  /** `_task_finished`: record the result, whatever its code, and move on. */
  function TaskFinished(s: Session, code: int, name: string, run: Worker): (r: Session)
    requires Conforms(run)
    ensures r.queue == [] && r.phase.Complete?
    ensures r.results == s.results + [TaskResult(name, code)] + Expected(s.queue, run)
    ensures r.log == s.log + Trace(s.queue, run) + [SessionFinished(r.phase.ok, Failures(r.results))]
    ensures r.phase.ok <==> Failures(r.results) == []
    decreases |s.queue|, 1
  {
    RunNext(s.(results := s.results + [TaskResult(name, code)]), run)
  }

  /** `_start_updates` given the built task list: an empty list leaves the
      window exactly as it was; otherwise a fresh session (results and log
      cleared, then the start banner) runs the whole queue. */
  function StartSession(w: Session, tasks: seq<TaskSpec>, run: Worker): (r: Session)
    requires Conforms(run)
    ensures tasks == [] ==> r == w
    ensures tasks != [] ==>
      && r.phase == Complete(forall i :: 0 <= i < |r.results| ==> TaskOk(r.results[i].code))
      && r.queue == []
      && r.results == Expected(tasks, run)
      && r.log == [SessionStarted] + Trace(tasks, run) + [SessionFinished(r.phase.ok, Failures(r.results))]
  {
    if tasks == [] then w
    else
      var r := RunNext(Session(tasks, [], [SessionStarted], Running), run);
      assert [] + Expected(tasks, run) == Expected(tasks, run);
      r
  }

  /** The "Run Updates" button: build the task list from the ticked sources
      and start a session with it. */
  function StartUpdates(w: Session, checked: Source -> bool, avail: Availability, spawn: Spawner): (r: Session)
    ensures (forall s: Source :: !checked(s)) ==> r == w
    ensures (exists s: Source :: checked(s)) ==>
      var tasks := BuildTaskList(checked);
      && r.phase.Complete? && r.queue == []
      && |r.results| == |tasks|
      && (forall i :: 0 <= i < |tasks| ==>
            r.results[i] == TaskResult(tasks[i].name, FinishCode(RunTask(tasks[i], avail, spawn))))
      && r.log == [SessionStarted] + Trace(tasks, UpdateWorker(avail, spawn)) + [SessionFinished(r.phase.ok, Failures(r.results))]
      && (r.phase.ok <==> forall i :: 0 <= i < |r.results| ==> TaskOk(r.results[i].code))
  {
    var tasks := BuildTaskList(checked);
    var run := UpdateWorker(avail, spawn);
    TaskListEmpty(checked);
    var r := StartSession(w, tasks, run);
    WorkerResults(tasks, avail, spawn);
    r
  }

  /** Each task's expected result under the update worker is what `RunTask`
      reports for it. */
  lemma WorkerResults(queue: seq<TaskSpec>, avail: Availability, spawn: Spawner)
    ensures var rs := Expected(queue, UpdateWorker(avail, spawn));
      forall i :: 0 <= i < |queue| ==> rs[i] == TaskResult(queue[i].name, FinishCode(RunTask(queue[i], avail, spawn)))
  {
  }

  // ---------------------------------------------------------------------------
  // Properties of the trace

  predicate IsSection(e: Event) { e.Section? }
  predicate IsFinished(e: Event) { e.Finished? }

  /** Tasks never overlap: every section after the first directly follows the
      previous task's finish event, and the trace starts with a section and
      ends with a finish event. */
  lemma {:induction false} TraceSequential(queue: seq<TaskSpec>, run: Worker)
    requires Conforms(run)
    ensures var t := Trace(queue, run);
      && (queue == [] <==> t == [])
      && (t != [] ==> t[0].Section? && t[|t| - 1].Finished?)
      && forall i :: 0 < i < |t| && t[i].Section? ==> t[i - 1].Finished?
    decreases |queue|
  {
    if queue != [] {
      var e := run(queue[0]).events;
      var rest := Trace(queue[1..], run);
      var t := Trace(queue, run);
      assert t == e + rest;
      assert TaskTrace(e, queue[0].name);
      TraceSequential(queue[1..], run);
      forall i | 0 < i < |t| && t[i].Section?
        ensures t[i - 1].Finished?
      {
        if i == |e| {
          assert t[i - 1] == e[|e| - 1];
        } else if i > |e| {
          assert t[i] == rest[i - |e|] && t[i - 1] == rest[i - 1 - |e|];
        }
      }
      if rest != [] {
        assert t[|t| - 1] == rest[|rest| - 1];
      }
    }
  }

  /** One task's events hold exactly one section and one finish event: the
      first and the last. */
  lemma TaskTraceMarkers(events: seq<Event>, name: string)
    requires TaskTrace(events, name)
    ensures Filter(events, IsSection) == [Section(name)]
    ensures Filter(events, IsFinished) == [events[|events| - 1]]
  {
    var n := |events|;
    var first, mid, last := events[0], events[1..n - 1], events[n - 1];
    assert events == [first] + mid + [last];
    assert forall i :: 0 <= i < |mid| ==> mid[i] == events[i + 1];
    FilterEnds(first, mid, last, IsSection);
    FilterEnds(first, mid, last, IsFinished);
  }

  /** The section events a queue should produce, in queue order. */
  function Sections(queue: seq<TaskSpec>): (evs: seq<Event>)
    ensures |evs| == |queue|
  {
    seq(|queue|, i requires 0 <= i < |queue| => Section(queue[i].name))
  }

  /** The finish events a list of results should produce, in order. */
  function Finishes(rs: seq<TaskResult>): (evs: seq<Event>)
    ensures |evs| == |rs|
  {
    seq(|rs|, i requires 0 <= i < |rs| => Finished(rs[i].code, rs[i].name))
  }

  /** One section per task, in queue order. */
  lemma {:induction false} TraceSections(queue: seq<TaskSpec>, run: Worker)
    requires Conforms(run)
    ensures Filter(Trace(queue, run), IsSection) == Sections(queue)
    decreases |queue|
  {
    if queue != [] {
      var e := run(queue[0]).events;
      var rest := Trace(queue[1..], run);
      assert Trace(queue, run) == e + rest;
      assert TaskTrace(e, queue[0].name);
      FilterConcat(e, rest, IsSection);
      TaskTraceMarkers(e, queue[0].name);
      TraceSections(queue[1..], run);
      SectionsCons(queue);
    }
  }

  /** Taking the head task off the queue takes its section off the front. */
  lemma SectionsCons(queue: seq<TaskSpec>)
    requires queue != []
    ensures Sections(queue) == [Section(queue[0].name)] + Sections(queue[1..])
  {
  }

  /** Prepending a result prepends its finish event. */
  lemma FinishesCons(head: TaskResult, rs: seq<TaskResult>)
    ensures Finishes([head] + rs) == [Finished(head.code, head.name)] + Finishes(rs)
  {
  }

  /** One finish event per task, in queue order, each carrying exactly the
      result recorded for its task. */
  lemma {:induction false} TraceFinishes(queue: seq<TaskSpec>, run: Worker)
    requires Conforms(run)
    ensures Filter(Trace(queue, run), IsFinished) == Finishes(Expected(queue, run))
    decreases |queue|
  {
    if queue != [] {
      var outcome := run(queue[0]);
      var e := outcome.events;
      var rest := Trace(queue[1..], run);
      assert Trace(queue, run) == e + rest;
      assert TaskTrace(e, queue[0].name);
      FilterConcat(e, rest, IsFinished);
      TaskTraceMarkers(e, queue[0].name);
      TraceFinishes(queue[1..], run);
      ExpectedCons(queue, run);
      FinishesCons(TaskResult(queue[0].name, FinishCode(outcome)), Expected(queue[1..], run));
    }
  }

  /** No fail-fast: the session records one result per task in queue order,
      each exactly what that task reports on its own, and the verdict is
      successful exactly when no task ended outside {0, 100}. */
  lemma SessionResults(w: Session, tasks: seq<TaskSpec>, run: Worker)
    requires Conforms(run)
    requires tasks != []
    ensures var r := StartSession(w, tasks, run);
      && |r.results| == |tasks|
      && (forall i :: 0 <= i < |tasks| ==>
            r.results[i] == TaskResult(tasks[i].name, FinishCode(run(tasks[i]))))
      && (r.phase.ok <==> Failures(r.results) == [])
  {
    var r := StartSession(w, tasks, run);
    assert r.results == Expected(tasks, run);
  }
}

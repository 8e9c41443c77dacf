/** What the bridge does where nobody destroys it and nothing throws: it loses nothing and can finish everything. */
module BridgeProgress {
  import opened Wrappers
  import opened Dynamic
  import opened MethodCalls
  import opened BridgeProtocol
  import opened BridgeTheorems

  // ---- nothing is lost, nothing fails ----

  /** Before destroy, nothing submitted has been dropped: it is with its thread, or it was put on the queue. */
  ghost predicate AllPosted(s: State) {
    !s.flags.destroyed ==>
      && s.work.dropped == []
      && multiset(s.work.submitted) == multiset(s.work.submitting) + multiset(s.work.posting) + multiset(s.work.enqueued)
  }

  lemma {:induction false} Removed<T>(s: seq<T>, i: nat)
    requires i < |s|
    ensures multiset(RemoveAt(s, i)) + multiset{s[i]} == multiset(s)
  {
    assert s == s[..i] + ([s[i]] + s[i + 1..]);
  }

  lemma {:induction false} StepKeepsAllPosted(s: State, step: Step)
    requires Enabled(s, step) && TeardownOrdered(s) && AllPosted(s)
    ensures AllPosted(Next(s, step))
  {
    if step.ReadFlag? {
      Removed(s.work.submitting, step.i);
    } else if step.Enqueue? {
      Removed(s.work.posting, step.i);
    } else if !IsSubmission(step) {
      OtherStepsSubmitNothing(s, step);
    }
  }

  lemma {:induction false} OtherStepsSubmitNothing(s: State, step: Step)
    requires Enabled(s, step) && !IsSubmission(step) && TeardownOrdered(s)
    ensures var w, u := s.work, Next(s, step).work;
            && u.submitted == w.submitted && u.submitting == w.submitting && u.posting == w.posting && u.enqueued == w.enqueued
            && Next(s, step).flags.destroyed == s.flags.destroyed
            && (!s.flags.destroyed ==> u.dropped == w.dropped)
  {
    if !IsQueueStep(step) {
      BodyStepFiles(s, step);
    }
  }

  lemma {:induction false} RunKeepsAllPosted(s: State, steps: seq<Step>)
    requires IsRun(s, steps) && TeardownOrdered(s) && AllPosted(s)
    ensures AllPosted(Exec(s, steps))
    decreases |steps|
  {
    if steps == [] {
    } else {
      StepKeepsTeardownOrdered(s, steps[0]);
      StepKeepsAllPosted(s, steps[0]);
      RunKeepsAllPosted(Next(s, steps[0]), steps[1..]);
    }
  }

  /** No submission is lost unless somebody destroys the bridge. */
  lemma {:induction false} NothingDroppedBeforeDestroy(steps: seq<Step>)
    requires IsRun(INIT, steps)
    ensures AllPosted(Exec(INIT, steps))
  {
    RunKeepsAllPosted(INIT, steps);
  }

  /** The submitted tasks among those that reached the executor, in that order. */
  function TasksOf(rs: seq<Runner>): seq<Task> {
    if rs == [] then []
    else TasksOf(rs[..|rs| - 1]) + if rs[|rs| - 1].Queued? then [rs[|rs| - 1].task] else []
  }

  lemma {:induction false} OneMoreReaches(rs: seq<Runner>, r: Runner)
    ensures TasksOf(rs + [r]) == TasksOf(rs) + if r.Queued? then [r.task] else []
  {
    assert (rs + [r])[..|rs|] == rs;
  }

  /** What has just been started, if it has not entered the executor yet. */
  function Entering(s: State): seq<Task> {
    if s.slot.Body? && s.slot.stage.Entered? then Running(s) else []
  }

  /** A step in which nothing throws. */
  predicate Calm(step: Step) {
    && !step.JsThrow? && !step.DispatchThrow? && !step.RegistryThrow?
    && (step.FlushBatch? ==> Parse(step.batch).Ok?)
  }

  /** Nothing has failed, and every body that was started is in the executor or has been. */
  ghost predicate AllWell(s: State) {
    && s.work.failed == [] && s.work.syncFailed == 0 && s.work.registryFailed == 0 && !s.js.appFailed && !Ended(s)
    && s.work.started == TasksOf(s.js.reached) + Entering(s)
  }

  lemma ParsedBatchHasEmptiness(batch: Dyn)
    requires Parse(batch).Ok?
    ensures batch.HasEmptiness()
  {
  }

  lemma {:induction false} StepKeepsAllWell(s: State, step: Step)
    requires Enabled(s, step) && AllWell(s) && Calm(step)
    ensures AllWell(Next(s, step))
  {
    if step.EnterExecutor? {
      EnteringKeepsAllWell(s);
    } else if step.FlushBatch? {
      ParsedBatchHasEmptiness(step.batch);
    } else if step.Pop? {
      PoppingKeepsAllWell(s);
    }
  }

  lemma {:induction false} PoppingKeepsAllWell(s: State)
    requires Enabled(s, Pop) && AllWell(s)
    ensures AllWell(QueueStep(s, Pop))
  {
    assert s.work.started + [] == s.work.started;
  }

  lemma {:induction false} EnteringKeepsAllWell(s: State)
    requires Enabled(s, EnterExecutor) && AllWell(s)
    ensures AllWell(BodyStep(s, EnterExecutor))
  {
    OneMoreReaches(s.js.reached, s.slot.runner);
    assert s.work.started + [] == s.work.started;
    assert TasksOf(s.js.reached) + [] == TasksOf(s.js.reached);
  }

  lemma {:induction false} RunKeepsAllWell(s: State, steps: seq<Step>)
    requires IsRun(s, steps) && AllWell(s) && forall i :: 0 <= i < |steps| ==> Calm(steps[i])
    ensures AllWell(Exec(s, steps))
    decreases |steps|
  {
    if steps == [] {
    } else {
      StepKeepsAllWell(s, steps[0]);
      RunKeepsAllWell(Next(s, steps[0]), steps[1..]);
    }
  }

  /** Where nothing throws, nothing fails, and the bodies enter the executor one after the other as they are started. */
  lemma {:induction false} CalmRunsFailNothing(steps: seq<Step>)
    requires IsRun(INIT, steps) && forall i :: 0 <= i < |steps| ==> Calm(steps[i])
    ensures AllWell(Exec(INIT, steps))
  {
    RunKeepsAllWell(INIT, steps);
  }

  /** The tasks of uncounted calls. */
  function Others(ts: seq<Task>): seq<Task> {
    if ts == [] then []
    else Others(ts[..|ts| - 1]) + if ts[|ts| - 1].kind.Other? then [ts[|ts| - 1]] else []
  }

  lemma {:induction false} OthersAppend(a: seq<Task>, b: seq<Task>)
    ensures Others(a + b) == Others(a) + Others(b)
  {
    if b == [] {
      assert a + b == a && Others(a) + [] == Others(a);
    } else {
      var n := |b| - 1;
      OthersAppend(a, b[..n]);
      assert (a + b)[..|a + b| - 1] == a + b[..n];
      var last := if b[n].kind.Other? then [b[n]] else [];
      assert Others(a) + (Others(b[..n]) + last) == Others(a) + Others(b[..n]) + last;
    }
  }

  lemma {:induction false} OthersOfOne(x: Task)
    ensures Others([x]) == (if x.kind.Other? then [x] else []) && Others([]) == []
  {
    assert [x][..0] == [];
  }

  /** What was entering has entered, or is not counted among the others. */
  lemma {:induction false} EnteredOrNot(a: seq<Task>, entering: seq<Task>, now: seq<Task>)
    requires now == a + entering || (now == a && Others(entering) == [])
    ensures Others(a) + Others(entering) == Others(now) + Others([])
  {
    OthersAppend(a, entering);
  }

  ghost predicate OthersReach(s: State) {
    Others(s.work.started) == Others(TasksOf(s.js.reached)) + Others(Entering(s))
  }

  /** A step starts a body, lets the body that was started enter or turns it away, or does neither. */
  lemma {:induction false} StepReaches(s: State, step: Step)
    requires Enabled(s, step)
    ensures var t := Next(s, step);
      || (t.work.started == s.work.started && t.js.reached == s.js.reached && Entering(t) == Entering(s))
      || (t.work.started == s.work.started + Entering(t) && t.js.reached == s.js.reached && Entering(s) == [])
      || (t.work.started == s.work.started && Entering(t) == []
          && (TasksOf(t.js.reached) == TasksOf(s.js.reached) + Entering(s)
              || (t.js.reached == s.js.reached && s.slot.Body? && s.slot.runner.Queued? && Entering(s) == [s.slot.runner.task]
                  && !s.slot.runner.task.kind.Other?)))
  {
    if IsSubmission(step) {
    } else if IsQueueStep(step) {
      assert s.work.started + [] == s.work.started;
    } else {
      BodyStepReaches(s, step);
    }
  }

  lemma {:induction false} BodyStepReaches(s: State, step: Step)
    requires Enabled(s, step) && !IsSubmission(step) && !IsQueueStep(step)
    ensures var t := BodyStep(s, step);
      && t.work.started == s.work.started
      && ((t.js.reached == s.js.reached && Entering(t) == Entering(s))
          || (Entering(t) == [] && TasksOf(t.js.reached) == TasksOf(s.js.reached) + Entering(s))
          || (Entering(t) == [] && t.js.reached == s.js.reached && s.slot.runner.Queued?
              && Entering(s) == [s.slot.runner.task] && !s.slot.runner.task.kind.Other?))
  {
    BodyStepFiles(s, step);
    if step.EnterExecutor? {
      OneMoreReaches(s.js.reached, s.slot.runner);
      assert TasksOf(s.js.reached) + [] == TasksOf(s.js.reached);
    }
  }

  lemma {:induction false} StepKeepsOthersReaching(s: State, step: Step)
    requires Enabled(s, step) && OthersReach(s)
    ensures OthersReach(Next(s, step))
  {
    var t := Next(s, step);
    StepReaches(s, step);
    if t.work.started != s.work.started {
      OthersAppend(s.work.started, Entering(t));
      assert Others(TasksOf(s.js.reached)) + Others([]) == Others(TasksOf(s.js.reached));
    } else if t.js.reached != s.js.reached || Entering(t) != Entering(s) {
      if Entering(s) != [] {
        OthersOfOne(s.slot.runner.task);
      }
      if Entering(t) == [] {
        assert Others(TasksOf(s.js.reached)) + [] == Others(TasksOf(s.js.reached));
        EnteredOrNot(TasksOf(s.js.reached), Entering(s), TasksOf(t.js.reached));
      }
    }
  }

  lemma {:induction false} RunKeepsOthersReaching(s: State, steps: seq<Step>)
    requires IsRun(s, steps) && OthersReach(s)
    ensures OthersReach(Exec(s, steps))
    decreases |steps|
  {
    if steps == [] {
    } else {
      StepKeepsOthersReaching(s, steps[0]);
      RunKeepsOthersReaching(Next(s, steps[0]), steps[1..]);
    }
  }

  /** In every run, also after failed loads, every uncounted call that is started gets through to the executor, in order. */
  lemma {:induction false} UncountedCallsAlwaysReach(steps: seq<Step>)
    requires IsRun(INIT, steps)
    ensures OthersReach(Exec(INIT, steps))
  {
    RunKeepsOthersReaching(INIT, steps);
  }

  // ---- what is queued can be done ----

  /** The queue thread is free to go on, and nothing keeps it from it. */
  ghost predicate Ready(s: State) {
    s.slot.Free? && s.flags == INIT.flags && !s.js.appFailed
  }

  function BodyOf(t: Task): seq<Step> {
    if Counted(t) then [FlushBatch(Null, true), FlushDone, Decrement] else [FinishOther]
  }

  lemma {:induction false} BodyCanEnd(s: State)
    requires CanRun(s) && s.slot.stage.InJs? && s.slot.runner.Queued? && s.flags == INIT.flags && !s.js.appFailed
    ensures var t := s.slot.runner.task;
            && IsRun(s, BodyOf(t))
            && var u := Exec(s, BodyOf(t));
               && Ready(u) && u.work == s.work.(done := s.work.done + [t])
               && u.pending == s.pending - (if Counted(t) then 1 else 0)
  {
    var t := s.slot.runner.task;
    if Counted(t) {
      var s1 := Next(s, FlushBatch(Null, true));
      var s2 := Next(s1, FlushDone);
      OneStep(s2, Decrement, []);
      OneStep(s1, FlushDone, [Decrement]);
      OneStep(s, FlushBatch(Null, true), [FlushDone, Decrement]);
    } else {
      OneStep(s, FinishOther, []);
    }
  }

  lemma {:induction false} HeadCanBeDone(s: State)
    requires Ready(s) && s.work.queue != [] && s.work.queue[0].Work?
    ensures var t := s.work.queue[0].task;
            var steps := [Pop, EnterExecutor] + BodyOf(t);
            && IsRun(s, steps)
            && var u := Exec(s, steps);
               && Ready(u) && u.work.queue == s.work.queue[1..] && u.work.done == s.work.done + [t]
               && u.pending == s.pending - (if Counted(t) then 1 else 0)
  {
    var t := s.work.queue[0].task;
    var s1 := Next(s, Pop);
    var s2 := Next(s1, EnterExecutor);
    BodyCanEnd(s2);
    OneStep(s1, EnterExecutor, BodyOf(t));
    OneStep(s, Pop, [EnterExecutor] + BodyOf(t));
    assert [Pop] + ([EnterExecutor] + BodyOf(t)) == [Pop, EnterExecutor] + BodyOf(t);
  }

  function Drain(q: seq<Entry>): seq<Step> {
    if q == [] then []
    else if q[0].Work? then [Pop, EnterExecutor] + BodyOf(q[0].task) + Drain(q[1..])
    else []
  }

  /** Whatever has been queued on a bridge that nobody destroys can all be done, in the order of the queue. */
  lemma {:induction false} QueueCanBeDrained(s: State)
    requires Ready(s) && Teardown !in s.work.queue
    ensures IsRun(s, Drain(s.work.queue))
    ensures var u := Exec(s, Drain(s.work.queue));
            && Ready(u) && u.work.queue == [] && u.work.done == s.work.done + Works(s.work.queue)
            && u.pending == s.pending - NumCounted(Works(s.work.queue))
    decreases |s.work.queue|
  {
    var q := s.work.queue;
    if q == [] {
      assert s.work.done + [] == s.work.done;
    } else {
      assert q[0] in q;
      HeadCanBeDone(s);
      var first := [Pop, EnterExecutor] + BodyOf(q[0].task);
      var u := Exec(s, first);
      QueueCanBeDrained(u);
      RunsCompose(s, first, Drain(q[1..]));
      assert s.work.done + [q[0].task] + Works(q[1..]) == s.work.done + Works(q);
      CountAppends([q[0].task], Works(q[1..]), Counted);
      CountAdds([], q[0].task, Counted);
    }
  }
}

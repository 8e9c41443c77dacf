/** What holds in every run of the bridge, under every interleaving. */
module BridgeTheorems {
  import opened Wrappers
  import opened Dynamic
  import opened MethodCalls
  import opened BridgeProtocol

  // ---- counting ----

  function Count(ts: seq<Task>, p: Task -> bool): nat {
    if ts == [] then 0 else (if p(ts[0]) then 1 else 0) + Count(ts[1..], p)
  }

  /** How many tasks increment the pending-call counter. */
  function NumCounted(ts: seq<Task>): nat {
    Count(ts, Counted)
  }

  lemma {:induction false} CountAppends(a: seq<Task>, b: seq<Task>, p: Task -> bool)
    ensures Count(a + b, p) == Count(a, p) + Count(b, p)
  {
    if a == [] {
      assert a + b == b;
    } else {
      CountAppends(a[1..], b, p);
      assert (a + b)[1..] == a[1..] + b;
    }
  }

  lemma {:induction false} CountAdds(a: seq<Task>, t: Task, p: Task -> bool)
    ensures Count(a + [t], p) == Count(a, p) + Count([t], p)
    ensures Count([t], p) == if p(t) then 1 else 0
  {
    CountAppends(a, [t], p);
    assert [t][1..] == [];
  }

  lemma {:induction false} CountRemoves(ts: seq<Task>, i: nat, p: Task -> bool)
    requires i < |ts|
    ensures Count(ts, p) == Count(RemoveAt(ts, i), p) + Count([ts[i]], p)
  {
    var before, after := ts[..i], ts[i + 1..];
    assert ts == before + ([ts[i]] + after);
    CountAppends(before, [ts[i]] + after, p);
    CountAppends([ts[i]], after, p);
    CountAppends(before, after, p);
  }

  lemma {:induction false} CountIsMultiplicity(ts: seq<Task>, x: Task)
    ensures Count(ts, t => t == x) == multiset(ts)[x]
  {
    if ts == [] {
    } else {
      CountIsMultiplicity(ts[1..], x);
      assert ts == [ts[0]] + ts[1..];
    }
  }

  lemma {:induction false} WorksAppend(a: seq<Entry>, b: seq<Entry>)
    ensures Works(a + b) == Works(a) + Works(b)
  {
    if a == [] {
      assert a + b == b;
    } else {
      WorksAppend(a[1..], b);
      assert (a + b)[1..] == a[1..] + b;
    }
  }

  lemma {:induction false} WorksAdds(q: seq<Entry>, e: Entry)
    ensures Works(q + [e]) == Works(q) + (if e.Work? then [e.task] else [])
  {
    WorksAppend(q, [e]);
    assert [e][1..] == [];
  }

  /** The submitted task that runs now, if any. */
  function Running(s: State): seq<Task> {
    if s.slot.Body? && s.slot.runner.Queued? then [s.slot.runner.task] else []
  }

  // ---- conservation ----

  /** Of the submitted tasks with a property, as many are somewhere along the way as were submitted. */
  ghost predicate Accounted(s: State, p: Task -> bool) {
    Count(s.work.submitted, p)
    == Count(s.work.submitting, p) + Count(s.work.posting, p) + Count(Works(s.work.queue), p) + Count(Running(s), p)
       + Count(s.work.done, p) + Count(s.work.failed, p) + Count(s.work.dropped, p)
  }

  /** Counted work went up once per submission and down once per completion; synchronous loads only go down. */
  ghost predicate UpsAndDowns(s: State) {
    s.pending == NumCounted(s.work.submitted) - NumCounted(s.work.done) - s.work.syncDone
  }

  lemma {:induction false} SubmissionAccounts(s: State, step: Step, p: Task -> bool)
    requires Enabled(s, step) && IsSubmission(step) && Accounted(s, p)
    ensures Accounted(Submission(s, step), p)
  {
    var w := s.work;
    match step
    case Submit(t) => CountAdds(w.submitting, t, p); CountAdds(w.submitted, t, p);
    case ReadFlag(i) =>
      CountRemoves(w.submitting, i, p);
      CountAdds(w.posting, w.submitting[i], p);
      CountAdds(w.dropped, w.submitting[i], p);
    case Enqueue(i) =>
      CountRemoves(w.posting, i, p);
      WorksAdds(w.queue, Work(w.posting[i]));
      CountAdds(Works(w.queue), w.posting[i], p);
      CountAdds(w.dropped, w.posting[i], p);
    case SetDestroyed =>
    case PostTeardown => WorksAdds(w.queue, Teardown); assert Works(w.queue) + [] == Works(w.queue);
  }

  lemma {:induction false} QueueStepAccounts(s: State, step: Step, p: Task -> bool)
    requires Enabled(s, step) && IsQueueStep(step) && Accounted(s, p)
    ensures Accounted(QueueStep(s, step), p)
  {
    match step
    case Pop => PopAccounts(s, p);
    case TearStep => TeardownAccounts(s, step, p);
    case TeardownInBody => TeardownAccounts(s, step, p);
    case TeardownNow =>
    case StartSync =>
  }

  lemma {:induction false} TeardownAccounts(s: State, step: Step, p: Task -> bool)
    requires Enabled(s, step) && (step.TearStep? || step.TeardownInBody?) && Accounted(s, p)
    ensures Accounted(QueueStep(s, step), p)
  {
    QuitAccounts(s.work, p);
    var t := QueueStep(s, step);
    assert Running(t) == Running(s);
    assert t.work == s.work || t.work == QuitQueue(s.work);
  }

  /** Quitting the queue drops what is on it. */
  lemma {:induction false} QuitAccounts(w: Ledger, p: Task -> bool)
    ensures Count(Works(QuitQueue(w).queue), p) == 0
    ensures Count(QuitQueue(w).dropped, p) == Count(w.dropped, p) + Count(Works(w.queue), p)
  {
    CountAppends(w.dropped, Works(w.queue), p);
  }

  lemma {:induction false} PopAccounts(s: State, p: Task -> bool)
    requires Enabled(s, Pop) && Accounted(s, p)
    ensures Accounted(QueueStep(s, Pop), p)
  {
    if s.work.queue[0].Work? {
      var t := s.work.queue[0].task;
      CountAppends([t], Works(s.work.queue[1..]), p);
      CountAdds(s.work.dropped, t, p);
    }
  }

  /** A step of the body leaves the lists of the ledger alone, or ends the body and files its task as done or failed. */
  lemma {:induction false} BodyStepFiles(s: State, step: Step)
    requires Enabled(s, step) && !IsSubmission(step) && !IsQueueStep(step)
    ensures var t := BodyStep(s, step);
            && t.work == s.work.(done := t.work.done, failed := t.work.failed, syncDone := t.work.syncDone,
                                 syncFailed := t.work.syncFailed, registryFailed := t.work.registryFailed)
            && ((Running(t) == Running(s) && t.work.done == s.work.done && t.work.failed == s.work.failed)
                || (Running(t) == [] && t.work.done == s.work.done && t.work.failed == s.work.failed + Running(s))
                || (Running(t) == [] && t.work.done == s.work.done + Running(s) && t.work.failed == s.work.failed))
  {
    assert s.work.failed + [] == s.work.failed;
    assert s.work.done + [] == s.work.done;
  }

  lemma {:induction false} BodyStepAccounts(s: State, step: Step, p: Task -> bool)
    requires Enabled(s, step) && !IsSubmission(step) && !IsQueueStep(step) && Accounted(s, p)
    ensures Accounted(BodyStep(s, step), p)
  {
    BodyStepFiles(s, step);
    CountAppends(s.work.failed, Running(s), p);
    CountAppends(s.work.done, Running(s), p);
  }

  lemma {:induction false} StepAccounts(s: State, step: Step, p: Task -> bool)
    requires Enabled(s, step) && Accounted(s, p)
    ensures Accounted(Next(s, step), p)
  {
    if IsSubmission(step) {
      SubmissionAccounts(s, step, p);
    } else if IsQueueStep(step) {
      QueueStepAccounts(s, step, p);
    } else {
      BodyStepAccounts(s, step, p);
    }
  }

  /** Only counted work and synchronous loads ever reach the decrement. */
  ghost predicate KindsFit(s: State) {
    s.slot.Body? && s.slot.runner.Uncounted() ==> !s.slot.stage.Decrementing? && (s.slot.stage.Dispatching? ==> !s.slot.stage.end)
  }

  lemma StepKeepsKinds(s: State, step: Step)
    requires Enabled(s, step) && KindsFit(s)
    ensures KindsFit(Next(s, step))
  {
  }

  lemma {:induction false} StepKeepsUpsAndDowns(s: State, step: Step)
    requires Enabled(s, step) && KindsFit(s) && UpsAndDowns(s)
    ensures UpsAndDowns(Next(s, step))
  {
    if IsSubmission(step) {
      if step.Submit? {
        CountAdds(s.work.submitted, step.task, Counted);
      }
    } else if IsQueueStep(step) {
      var w, u := s.work, QueueStep(s, step).work;
      assert u.submitted == w.submitted && u.done == w.done && u.syncDone == w.syncDone;
    } else {
      BodyStepKeepsUpsAndDowns(s, step);
    }
  }

  lemma {:induction false} BodyStepKeepsUpsAndDowns(s: State, step: Step)
    requires Enabled(s, step) && !IsSubmission(step) && !IsQueueStep(step) && KindsFit(s) && UpsAndDowns(s)
    ensures UpsAndDowns(BodyStep(s, step))
  {
    if (step.Decrement? || step.FinishOther?) && s.slot.runner.Queued? {
      CountAdds(s.work.done, s.slot.runner.task, Counted);
    }
  }

  lemma {:induction false} RunAccounts(s: State, steps: seq<Step>, p: Task -> bool)
    requires IsRun(s, steps) && Accounted(s, p)
    ensures Accounted(Exec(s, steps), p)
    decreases |steps|
  {
    if steps == [] {
    } else {
      StepAccounts(s, steps[0], p);
      RunAccounts(Next(s, steps[0]), steps[1..], p);
    }
  }

  lemma {:induction false} RunKeepsUpsAndDowns(s: State, steps: seq<Step>)
    requires IsRun(s, steps) && KindsFit(s) && UpsAndDowns(s)
    ensures KindsFit(Exec(s, steps)) && UpsAndDowns(Exec(s, steps))
    decreases |steps|
  {
    if steps == [] {
    } else {
      StepKeepsKinds(s, steps[0]);
      StepKeepsUpsAndDowns(s, steps[0]);
      RunKeepsUpsAndDowns(Next(s, steps[0]), steps[1..]);
    }
  }

  /** The counter counts the work in flight, plus what was dropped or failed, minus completed synchronous loads. */
  ghost predicate CountsInFlight(s: State) {
    s.pending == NumCounted(s.work.submitting) + NumCounted(s.work.posting) + NumCounted(Works(s.work.queue)) + NumCounted(Running(s))
                 + NumCounted(s.work.dropped) + NumCounted(s.work.failed) - s.work.syncDone
  }

  lemma {:induction false} RunCountsInFlight(s: State, steps: seq<Step>)
    requires IsRun(s, steps) && Accounted(s, Counted) && KindsFit(s) && UpsAndDowns(s)
    ensures CountsInFlight(Exec(s, steps))
  {
    RunAccounts(s, steps, Counted);
    RunKeepsUpsAndDowns(s, steps);
  }

  /** And that it does in every run, under every interleaving. */
  lemma {:induction false} CounterLaw(steps: seq<Step>)
    requires IsRun(INIT, steps)
    ensures CountsInFlight(Exec(INIT, steps))
  {
    RunCountsInFlight(INIT, steps);
  }

  /** Each submitted task is in exactly one place, as often as it was submitted. */
  ghost predicate AllInPlace(s: State) {
    multiset(s.work.submitted)
    == multiset(s.work.submitting) + multiset(s.work.posting) + multiset(Works(s.work.queue)) + multiset(Running(s))
       + multiset(s.work.done) + multiset(s.work.failed) + multiset(s.work.dropped)
  }

  ghost predicate EachAccounted(s: State, x: Task) {
    Accounted(s, t => t == x)
  }

  lemma {:induction false} AccountedIsInPlace(s: State)
    requires forall x: Task :: EachAccounted(s, x)
    ensures AllInPlace(s)
  {
    var w := s.work;
    var places := multiset(w.submitting) + multiset(w.posting) + multiset(Works(w.queue)) + multiset(Running(s))
                  + multiset(w.done) + multiset(w.failed) + multiset(w.dropped);
    forall x: Task
      ensures multiset(w.submitted)[x] == places[x]
    {
      assert EachAccounted(s, x);
      CountIsMultiplicity(w.submitted, x);
      CountIsMultiplicity(w.submitting, x);
      CountIsMultiplicity(w.posting, x);
      CountIsMultiplicity(Works(w.queue), x);
      CountIsMultiplicity(Running(s), x);
      CountIsMultiplicity(w.done, x);
      CountIsMultiplicity(w.failed, x);
      CountIsMultiplicity(w.dropped, x);
    }
  }

  /** No run loses or doubles a task. */
  lemma {:induction false} NothingLost(steps: seq<Step>)
    requires IsRun(INIT, steps)
    ensures AllInPlace(Exec(INIT, steps))
  {
    forall x: Task
      ensures EachAccounted(Exec(INIT, steps), x)
    {
      RunAccounts(INIT, steps, t => t == x);
    }
    AccountedIsInPlace(Exec(INIT, steps));
  }

  ghost predicate Idle(s: State) {
    NumCounted(s.work.submitting) == NumCounted(s.work.posting) == NumCounted(Works(s.work.queue)) == NumCounted(Running(s)) == 0
  }

  /**
   Where nothing counted was dropped or failed and no synchronous load completed, the counter is never negative and
   zero exactly when idle. In general an idle bridge shows zero exactly if as many counted tasks were dropped or failed
   as synchronous loads completed.
   */
  ghost predicate IdleAtZero(s: State) {
    && (NumCounted(s.work.dropped) == NumCounted(s.work.failed) == s.work.syncDone == 0 ==>
          s.pending >= 0 && (s.pending == 0 <==> Idle(s)))
    && (Idle(s) ==> (s.pending == 0 <==> NumCounted(s.work.dropped) + NumCounted(s.work.failed) == s.work.syncDone))
  }

  lemma {:induction false} IdleExactlyAtZero(steps: seq<Step>)
    requires IsRun(INIT, steps)
    ensures IdleAtZero(Exec(INIT, steps))
  {
    CounterLaw(steps);
    CountingGivesZero(Exec(INIT, steps));
  }

  lemma CountingGivesZero(s: State)
    requires CountsInFlight(s)
    ensures IdleAtZero(s)
  {
  }

  /** A body that ends with an empty flush counts down. */
  lemma {:induction false} EmptyFlushCountsDown(s: State)
    requires CanRun(s) && s.slot.stage.InJs? && !s.slot.runner.Uncounted()
    ensures var steps := [FlushBatch(Null, true), FlushDone, Decrement];
            IsRun(s, steps) && Exec(s, steps).pending == s.pending - 1
  {
    var s1 := Next(s, FlushBatch(Null, true));
    var s2 := Next(s1, FlushDone);
    OneStep(s2, Decrement, []);
    OneStep(s1, FlushDone, [Decrement]);
    OneStep(s, FlushBatch(Null, true), [FlushDone, Decrement]);
  }

  /** A synchronous load is never counted but still counts down: one of them alone drives the counter below zero. */
  lemma {:induction false} SyncLoadUnderflows()
    ensures var steps := [StartSync, EnterExecutor, FlushBatch(Null, true), FlushDone, Decrement];
            IsRun(INIT, steps) && Exec(INIT, steps).pending == -1
  {
    var s1 := Next(INIT, StartSync);
    var s2 := Next(s1, EnterExecutor);
    EmptyFlushCountsDown(s2);
    OneStep(s1, EnterExecutor, [FlushBatch(Null, true), FlushDone, Decrement]);
    OneStep(INIT, StartSync, [EnterExecutor, FlushBatch(Null, true), FlushDone, Decrement]);
  }

  lemma {:induction false} OneStep(s: State, step: Step, rest: seq<Step>)
    requires Enabled(s, step) && IsRun(Next(s, step), rest)
    ensures IsRun(s, [step] + rest) && Exec(s, [step] + rest) == Exec(Next(s, step), rest)
  {
    assert ([step] + rest)[1..] == rest;
  }

  // ---- teardown ----

  ghost predicate TeardownOrdered(s: State) {
    && (Teardown in s.work.queue ==> s.flags.destroyed)
    && (s.slot.Tearing? ==> s.flags.destroyed)
    && (s.slot.Tearing? && s.slot.phase > 0 ==> !s.flags.alive)
    && (!s.flags.alive ==> s.flags.destroyed)
    && (s.flags.quit ==> !s.flags.alive && Works(s.work.queue) == [])
    && (s.flags.request.FlagSet? ==> s.flags.destroyed)
    && (s.slot.Body? && !s.flags.alive ==> s.slot.runner.Queued?)
  }

  lemma {:induction false} StepKeepsTeardownOrdered(s: State, step: Step)
    requires Enabled(s, step) && TeardownOrdered(s)
    ensures TeardownOrdered(Next(s, step))
  {
    if IsSubmission(step) {
      if step.PostTeardown? {
        WorksAdds(s.work.queue, Teardown);
      }
    } else if IsQueueStep(step) {
      QueueStepKeepsTeardownOrdered(s, step);
    } else {
      BodyStepKeepsTeardownOrdered(s, step);
    }
  }

  lemma QueueStepKeepsTeardownOrdered(s: State, step: Step)
    requires Enabled(s, step) && IsQueueStep(step) && TeardownOrdered(s)
    ensures TeardownOrdered(QueueStep(s, step))
  {
  }

  lemma {:induction false} BodyStepKeepsTeardownOrdered(s: State, step: Step)
    requires Enabled(s, step) && !IsSubmission(step) && !IsQueueStep(step) && TeardownOrdered(s)
    ensures TeardownOrdered(BodyStep(s, step))
  {
    var t := BodyStep(s, step);
    assert t.flags == s.flags && t.work.queue == s.work.queue && (t.slot.Body? ==> t.slot.runner == s.slot.runner);
  }

  lemma {:induction false} RunKeepsTeardownOrdered(s: State, steps: seq<Step>)
    requires IsRun(s, steps) && TeardownOrdered(s)
    ensures TeardownOrdered(Exec(s, steps))
    decreases |steps|
  {
    if steps == [] {
    } else {
      StepKeepsTeardownOrdered(s, steps[0]);
      RunKeepsTeardownOrdered(Next(s, steps[0]), steps[1..]);
    }
  }

  lemma {:induction false} AlwaysOrdered(steps: seq<Step>)
    requires IsRun(INIT, steps)
    ensures TeardownOrdered(Exec(INIT, steps))
  {
    RunKeepsTeardownOrdered(INIT, steps);
  }

  /** A running body has a live executor on a live queue. */
  ghost predicate BodySafe(s: State) {
    s.slot.Body? ==> s.flags.alive && !s.flags.quit
  }

  lemma {:induction false} BodiesSafeUnlessTornDownInside(s: State, steps: seq<Step>)
    requires IsRun(s, steps) && TeardownOrdered(s) && BodySafe(s)
    requires TeardownInBody !in steps
    ensures BodySafe(Exec(s, steps))
    decreases |steps|
  {
    if steps == [] {
    } else {
      assert steps[0] in steps;
      StepKeepsTeardownOrdered(s, steps[0]);
      BodiesSafeUnlessTornDownInside(Next(s, steps[0]), steps[1..]);
    }
  }

  lemma {:induction false} PrefixIsRun(s: State, steps: seq<Step>, k: nat)
    requires IsRun(s, steps) && k <= |steps|
    ensures IsRun(s, steps[..k])
    ensures IsRun(Exec(s, steps[..k]), steps[k..]) && Exec(Exec(s, steps[..k]), steps[k..]) == Exec(s, steps)
    decreases |steps|
  {
    if k == 0 {
      assert steps[..0] == [] && steps[0..] == steps;
    } else {
      PrefixIsRun(Next(s, steps[0]), steps[1..], k - 1);
      assert steps[..k][1..] == steps[1..][..k - 1];
      assert steps[k..] == steps[1..][k - 1..];
    }
  }

  /** Every task body has a live executor for its whole duration, exactly in the runs where no body calls destroy itself. */
  lemma {:induction false} ExecutorOutlivesBodies(steps: seq<Step>)
    requires IsRun(INIT, steps)
    ensures (forall k :: 0 <= k <= |steps| ==> IsRun(INIT, steps[..k]) && BodySafe(Exec(INIT, steps[..k])))
            <==> TeardownInBody !in steps
  {
    forall k | 0 <= k <= |steps|
      ensures IsRun(INIT, steps[..k])
      ensures TeardownInBody !in steps ==> BodySafe(Exec(INIT, steps[..k]))
    {
      PrefixIsRun(INIT, steps, k);
      if TeardownInBody !in steps {
        BodiesSafeUnlessTornDownInside(INIT, steps[..k]);
      }
    }
    if TeardownInBody in steps {
      var k :| 0 <= k < |steps| && steps[k] == TeardownInBody;
      PrefixIsRun(INIT, steps, k);
      var s := Exec(INIT, steps[..k]);
      assert steps[k..][0] == TeardownInBody;
      assert steps[..k + 1] == steps[..k] + [TeardownInBody];
      RunsCompose(INIT, steps[..k], [TeardownInBody]);
      assert IsRun(Next(s, TeardownInBody), []);
      assert [TeardownInBody][1..] == [];
      assert Exec(INIT, steps[..k + 1]) == Next(s, TeardownInBody);
      assert !BodySafe(Exec(INIT, steps[..k + 1]));
    }
  }

  /** A first task is submitted and started. */
  function Startup(t: Task): seq<Step> {
    [Submit(t), ReadFlag(0), Enqueue(0), Pop]
  }

  function StartedBody(t: Task): (s: State)
    ensures s.slot == Body(Queued(t), Entered) && s.flags == INIT.flags && s.js == INIT.js && s.work.failed == []
    ensures s.pending == if Counted(t) then 1 else 0
  {
    var s1 := Next(INIT, Submit(t));
    var s2 := Next(s1, ReadFlag(0));
    Next(Next(s2, Enqueue(0)), Pop)
  }

  lemma {:induction false} StartsBody(t: Task)
    ensures IsRun(INIT, Startup(t)) && Exec(INIT, Startup(t)) == StartedBody(t)
  {
    var s1 := Next(INIT, Submit(t));
    var s2 := Next(s1, ReadFlag(0));
    var s3 := Next(s2, Enqueue(0));
    OneStep(s3, Pop, []);
    OneStep(s2, Enqueue(0), [Pop]);
    OneStep(s1, ReadFlag(0), [Enqueue(0), Pop]);
    OneStep(INIT, Submit(t), [ReadFlag(0), Enqueue(0), Pop]);
  }

  /** A body calls destroy: the executor and the queue go, all else of the body stays. */
  lemma {:induction false} DestroyInside(s: State)
    requires CanRun(s) && !Ended(s) && s.slot.runner.Queued? && !s.flags.destroyed
    ensures var steps := [SetDestroyed, TeardownInBody];
            && IsRun(s, steps)
            && var t := Exec(s, steps);
               && t.flags.quit && !t.flags.alive && t.slot == s.slot && t.pending == s.pending && t.js == s.js
  {
    OneStep(Next(s, SetDestroyed), TeardownInBody, []);
    OneStep(s, SetDestroyed, [TeardownInBody]);
  }

  /** And a body can call destroy: such a run leaves it without an executor, whichever task it runs. */
  lemma {:induction false} DestroyInBodyEndsTheExecutor(t: Task)
    ensures var steps := Startup(t) + [SetDestroyed, TeardownInBody];
            IsRun(INIT, steps) && Exec(INIT, steps).slot == Body(Queued(t), Entered) && !BodySafe(Exec(INIT, steps))
  {
    StartsBody(t);
    DestroyInside(StartedBody(t));
    RunsCompose(INIT, Startup(t), [SetDestroyed, TeardownInBody]);
  }

  /** Once the flag is up, no queued body ever starts. */
  lemma {:induction false} NothingStartsAfterDestroy(s: State, steps: seq<Step>)
    requires IsRun(s, steps) && s.flags.destroyed
    ensures Exec(s, steps).flags.destroyed && Exec(s, steps).work.started == s.work.started
    decreases |steps|
  {
    if steps == [] {
    } else {
      NothingStartsAfterDestroy(Next(s, steps[0]), steps[1..]);
    }
  }

  /** Everything the queue and the executor ever do. */
  ghost predicate SameActivity(s: State, t: State) {
    && s.work.taken == t.work.taken && s.work.started == t.work.started && s.js.reached == t.js.reached
    && s.work.done == t.work.done && s.work.failed == t.work.failed
    && s.work.syncDone == t.work.syncDone && s.work.syncFailed == t.work.syncFailed
    && s.js.flushes == t.js.flushes && s.js.dispatched == t.js.dispatched && s.js.trace == t.js.trace
  }

  /** A running body is in the native part of a flush, with something left to do. */
  predicate InNativePart(s: State) {
    s.slot.Body? && (s.slot.stage.Decrementing? || (s.slot.stage.Dispatching? && (s.slot.stage.end || s.slot.stage.rest != [])))
  }

  /** Nothing is begun: no work taken, no body started, no call to the executor, no flush, no synchronous load. */
  ghost predicate NothingBegun(s: State, t: State) {
    && s.work.taken == t.work.taken && s.work.started == t.work.started && s.js.reached == t.js.reached
    && s.work.syncDone == t.work.syncDone && s.work.syncFailed == t.work.syncFailed
    && |s.js.flushes| == |t.js.flushes|
  }

  lemma {:induction false} StepAfterQuit(s: State, step: Step)
    requires Enabled(s, step) && TeardownOrdered(s) && s.flags.quit
    ensures var t := Next(s, step);
            && t.flags.quit && NothingBegun(s, t)
            && s.js.dispatched <= t.js.dispatched
            && t.js.dispatched + Remaining(t) <= s.js.dispatched + Remaining(s)
            && (!InNativePart(s) ==> SameActivity(s, t) && !InNativePart(t))
  {
    if IsSubmission(step) || IsQueueStep(step) {
      QuietStepAfterQuit(s, step);
    } else {
      BodyStepAfterQuit(s, step);
    }
  }

  lemma QuietStepAfterQuit(s: State, step: Step)
    requires Enabled(s, step) && TeardownOrdered(s) && s.flags.quit && (IsSubmission(step) || IsQueueStep(step))
    ensures var t := Next(s, step);
            t.flags.quit && SameActivity(s, t) && Remaining(t) == Remaining(s) && InNativePart(t) == InNativePart(s)
  {
  }

  lemma {:induction false} BodyStepAfterQuit(s: State, step: Step)
    requires Enabled(s, step) && !IsSubmission(step) && !IsQueueStep(step) && TeardownOrdered(s) && s.flags.quit
    ensures var t := BodyStep(s, step);
            && t.flags.quit && NothingBegun(s, t)
            && s.js.dispatched <= t.js.dispatched
            && t.js.dispatched + Remaining(t) <= s.js.dispatched + Remaining(s)
            && (!InNativePart(s) ==> SameActivity(s, t) && !InNativePart(t))
  {
    if step.Dispatch? {
      var rest := s.slot.stage.rest;
      assert rest == [rest[0]] + rest[1..];
    }
  }

  lemma {:induction false} NothingRunsAfterQuitFrom(s: State, steps: seq<Step>)
    requires IsRun(s, steps) && TeardownOrdered(s) && s.flags.quit
    ensures var t := Exec(s, steps);
            && NothingBegun(s, t)
            && s.js.dispatched <= t.js.dispatched
            && t.js.dispatched + Remaining(t) <= s.js.dispatched + Remaining(s)
            && (!InNativePart(s) ==> SameActivity(s, t))
    decreases |steps|
  {
    if steps == [] {
    } else {
      StepKeepsTeardownOrdered(s, steps[0]);
      StepAfterQuit(s, steps[0]);
      NothingRunsAfterQuitFrom(Next(s, steps[0]), steps[1..]);
    }
  }

  /**
   After the queue quits nothing is begun any more. All that can still happen is the rest of the flush that a body was
   in when it destroyed the bridge itself.
   */
  lemma {:induction false} NothingBeginsAfterQuit(before: seq<Step>, after: seq<Step>)
    requires IsRun(INIT, before) && IsRun(Exec(INIT, before), after) && Exec(INIT, before).flags.quit
    ensures var s, t := Exec(INIT, before), Exec(Exec(INIT, before), after);
            && NothingBegun(s, t)
            && s.js.dispatched <= t.js.dispatched <= s.js.dispatched + Remaining(s)
  {
    AlwaysOrdered(before);
    NothingRunsAfterQuitFrom(Exec(INIT, before), after);
  }

  /** No continuation of any length does anything. */
  ghost predicate AtRest(s: State) {
    forall after :: IsRun(s, after) ==> SameActivity(s, Exec(s, after))
  }

  lemma {:induction false} NativePartGoesOn(s: State, step: Step)
    requires InNativePart(s) && Enabled(s, step) && !SameActivity(s, Next(s, step))
    ensures !AtRest(s)
  {
    OneStep(s, step, []);
    assert [step] + [] == [step];
    assert IsRun(s, [step]) && !SameActivity(s, Exec(s, [step]));
  }

  /** Once the queue has quit, all activity is over exactly if no body is in the native part of a flush. */
  lemma {:induction false} AtRestAfterQuitExactly(before: seq<Step>)
    requires IsRun(INIT, before) && Exec(INIT, before).flags.quit
    ensures AtRest(Exec(INIT, before)) <==> !InNativePart(Exec(INIT, before))
  {
    var s := Exec(INIT, before);
    AlwaysOrdered(before);
    if InNativePart(s) {
      NativePartGoesOn(s, if s.slot.stage.Decrementing? then Decrement else if s.slot.stage.rest == [] then FlushDone else Dispatch);
    } else {
      forall after | IsRun(s, after)
        ensures SameActivity(s, Exec(s, after))
      {
        NothingRunsAfterQuitFrom(s, after);
      }
    }
  }

  function Dispatches(n: nat): seq<Step> {
    if n == 0 then [] else [Dispatch] + Dispatches(n - 1)
  }

  /** In that part all the remaining calls can be made, executor or not. */
  lemma {:induction false} RestCanBeDispatched(s: State)
    requires MidFlush(s)
    ensures var steps := Dispatches(|s.slot.stage.rest|);
            IsRun(s, steps) && Exec(s, steps).js.dispatched == s.js.dispatched + Remaining(s)
    decreases |s.slot.stage.rest|
  {
    var rest := s.slot.stage.rest;
    if rest == [] {
      assert s.js.dispatched + [] == s.js.dispatched;
    } else {
      var next := Next(s, Dispatch);
      RestCanBeDispatched(next);
      OneStep(s, Dispatch, Dispatches(|rest| - 1));
      assert s.js.dispatched + [rest[0]] + rest[1..] == s.js.dispatched + rest;
    }
  }

  /** A body that destroys the bridge at the end of its last flush still counts down, after the queue has quit. */
  lemma {:induction false} CountsDownAfterQuit(s: State)
    requires CanRun(s) && s.slot.stage == Dispatching([], true) && s.slot.runner.Queued? && !s.flags.destroyed
    ensures var before, after := [SetDestroyed, TeardownInBody], [FlushDone, Decrement];
            && IsRun(s, before) && Exec(s, before).flags.quit && Exec(s, before).pending == s.pending
            && IsRun(Exec(s, before), after) && Exec(Exec(s, before), after).pending == s.pending - 1
  {
    DestroyInside(s);
    var t := Exec(s, [SetDestroyed, TeardownInBody]);
    OneStep(Next(t, FlushDone), Decrement, []);
    OneStep(t, FlushDone, [Decrement]);
  }

  /** And there are such states, whatever the counted task. */
  lemma {:induction false} LastFlushIsReached(t: Task)
    requires Counted(t)
    ensures var steps := Startup(t) + [EnterExecutor, FlushBatch(Null, true)];
            && IsRun(INIT, steps)
            && var s := Exec(INIT, steps);
               && CanRun(s) && s.slot == Body(Queued(t), Dispatching([], true)) && !s.flags.destroyed && s.pending == 1
  {
    StartsBody(t);
    var s := StartedBody(t);
    OneStep(Next(s, EnterExecutor), FlushBatch(Null, true), []);
    OneStep(s, EnterExecutor, [FlushBatch(Null, true)]);
    RunsCompose(INIT, Startup(t), [EnterExecutor, FlushBatch(Null, true)]);
  }

  /**
   When the queue has quit and no thread is in the middle of submitting, every task is done, failed, dropped, or the one
   whose body tore the executor down and is still running.
   */
  ghost predicate SettledOnceQuit(s: State) {
    s.flags.quit && s.work.submitting == s.work.posting == [] ==>
      && multiset(s.work.submitted)
         == multiset(s.work.done) + multiset(s.work.failed) + multiset(s.work.dropped) + multiset(Running(s))
      && s.pending == NumCounted(s.work.dropped) + NumCounted(s.work.failed) + NumCounted(Running(s)) - s.work.syncDone
  }

  lemma {:induction false} TeardownSettles(steps: seq<Step>)
    requires IsRun(INIT, steps)
    ensures SettledOnceQuit(Exec(INIT, steps))
  {
    NothingLost(steps);
    CounterLaw(steps);
    AlwaysOrdered(steps);
    AccountsSettle(Exec(INIT, steps));
  }

  lemma AccountsSettle(s: State)
    requires TeardownOrdered(s) && AllInPlace(s) && CountsInFlight(s)
    ensures SettledOnceQuit(s)
  {
  }

  // ---- order of tasks ----

  ghost predicate InOrder(s: State) {
    && (if s.flags.quit then s.work.taken <= s.work.enqueued else s.work.enqueued == s.work.taken + Works(s.work.queue))
    && (if s.flags.destroyed then s.work.started <= s.work.taken else s.work.started == s.work.taken)
  }

  lemma {:induction false} StepKeepsOrder(s: State, step: Step)
    requires Enabled(s, step) && InOrder(s) && (s.flags.quit ==> s.flags.destroyed)
    ensures InOrder(Next(s, step))
  {
    if IsSubmission(step) {
      SubmissionKeepsOrder(s, step);
    } else if IsQueueStep(step) {
      QueueStepKeepsOrder(s, step);
    } else {
      BodyStepFiles(s, step);
    }
  }

  lemma {:induction false} SubmissionKeepsOrder(s: State, step: Step)
    requires Enabled(s, step) && IsSubmission(step) && InOrder(s)
    ensures InOrder(Submission(s, step))
  {
    if step.Enqueue? || step.PostTeardown? {
      AddingKeepsOrder(s, step);
    }
  }

  lemma {:induction false} QueueStepKeepsOrder(s: State, step: Step)
    requires Enabled(s, step) && IsQueueStep(step) && InOrder(s) && (s.flags.quit ==> s.flags.destroyed)
    ensures InOrder(QueueStep(s, step))
  {
    if step.Pop? {
      PopKeepsOrder(s);
    } else {
      assert QueueStep(s, step).work.taken == s.work.taken && QueueStep(s, step).work.started == s.work.started;
    }
  }

  lemma {:induction false} AddingKeepsOrder(s: State, step: Step)
    requires Enabled(s, step) && InOrder(s) && (step.Enqueue? || step.PostTeardown?)
    ensures InOrder(Submission(s, step))
  {
    var e := if step.Enqueue? then Work(s.work.posting[step.i]) else Teardown;
    WorksAdds(s.work.queue, e);
    if step.PostTeardown? {
      assert Works(s.work.queue) + [] == Works(s.work.queue);
    } else if !s.flags.quit {
      assert s.work.taken + Works(s.work.queue) + [e.task] == s.work.taken + (Works(s.work.queue) + [e.task]);
    }
  }

  lemma {:induction false} PopKeepsOrder(s: State)
    requires Enabled(s, Pop) && InOrder(s)
    ensures InOrder(QueueStep(s, Pop))
  {
    if s.work.queue[0].Work? {
      var t := s.work.queue[0].task;
      assert s.work.taken + Works(s.work.queue) == (s.work.taken + [t]) + Works(s.work.queue[1..]);
    }
  }

  lemma {:induction false} RunKeepsOrder(s: State, steps: seq<Step>)
    requires IsRun(s, steps) && InOrder(s) && TeardownOrdered(s)
    ensures InOrder(Exec(s, steps))
    decreases |steps|
  {
    if steps == [] {
    } else {
      StepKeepsOrder(s, steps[0]);
      StepKeepsTeardownOrdered(s, steps[0]);
      RunKeepsOrder(Next(s, steps[0]), steps[1..]);
    }
  }

  /** Queued bodies start in the order in which their tasks were put on the queue, none skipped before another. */
  lemma {:induction false} FirstInFirstOut(steps: seq<Step>)
    requires IsRun(INIT, steps)
    ensures var s := Exec(INIT, steps);
            && s.work.started <= s.work.taken <= s.work.enqueued
            && (!s.flags.destroyed ==> s.work.enqueued == s.work.started + Works(s.work.queue))
  {
    RunKeepsOrder(INIT, steps);
    AlwaysOrdered(steps);
  }

  // ---- the end of the process ----

  /** Only a batch with an id that does not convert ends the process. */
  lemma {:induction false} StepEndsExactly(s: State, step: Step)
    requires Enabled(s, step)
    ensures Ended(Next(s, step)) <==> step.FlushBatch? && Parse(step.batch) == Err(NotAnInteger)
  {
  }

  /** A run ends in the end of the process exactly if its last step hands over such a batch. */
  lemma {:induction false} EndsExactly(steps: seq<Step>)
    requires IsRun(INIT, steps)
    ensures Ended(Exec(INIT, steps))
       <==> steps != [] && var last := steps[|steps| - 1]; last.FlushBatch? && Parse(last.batch) == Err(NotAnInteger)
  {
    if steps == [] {
    } else {
      var n := |steps| - 1;
      PrefixIsRun(INIT, steps, n);
      assert steps[n..][0] == steps[n] && steps[n..][1..] == [];
      StepEndsExactly(Exec(INIT, steps[..n]), steps[n]);
    }
  }

  /** And such a batch can come, whatever the counted task. */
  lemma {:induction false} FatalBatchEndsTheProcess(t: Task, batch: Dyn)
    requires Counted(t) && Fatal(batch)
    ensures var steps := Startup(t) + [EnterExecutor, FlushBatch(batch, true)];
            IsRun(INIT, steps) && Ended(Exec(INIT, steps))
  {
    StartsBody(t);
    EndsTheProcessExactly(batch);
    var s := StartedBody(t);
    var s1 := Next(s, EnterExecutor);
    StepEndsExactly(s1, FlushBatch(batch, true));
    OneStep(s1, FlushBatch(batch, true), []);
    OneStep(s, EnterExecutor, [FlushBatch(batch, true)]);
    RunsCompose(INIT, Startup(t), [EnterExecutor, FlushBatch(batch, true)]);
  }
}

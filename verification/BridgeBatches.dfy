/** The order of native calls, the end-of-batch signal and the failure latch, in every run of the bridge. */
module BridgeBatches {
  import opened Wrappers
  import opened Dynamic
  import opened MethodCalls
  import opened BridgeProtocol
  import BridgeTheorems

  // ---- order of native calls ----

  /** The batches JavaScript handed over in a run, in that order; malformed ones are rejected whole. */
  function Handed(steps: seq<Step>): seq<seq<MethodCall>> {
    if steps == [] then []
    else HandedBy(steps[0]) + Handed(steps[1..])
  }

  function HandedBy(step: Step): seq<seq<MethodCall>> {
    if step.FlushBatch? && Parse(step.batch).Ok? then [Parse(step.batch).value] else []
  }

  function Flatten(batches: seq<seq<MethodCall>>): seq<MethodCall> {
    if batches == [] then [] else batches[0] + Flatten(batches[1..])
  }

  function CallsOf(flushes: seq<Flush>): seq<seq<MethodCall>> {
    seq(|flushes|, i requires 0 <= i < |flushes| => flushes[i].calls)
  }

  ghost predicate CountsFit(flushes: seq<Flush>) {
    forall i :: 0 <= i < |flushes| ==> flushes[i].count <= |flushes[i].calls|
  }

  /** What the flushes dispatched, each a first part of its batch. */
  function DispatchedBy(flushes: seq<Flush>): seq<MethodCall>
    requires CountsFit(flushes)
  {
    if flushes == [] then []
    else
      var last := flushes[|flushes| - 1];
      DispatchedBy(flushes[..|flushes| - 1]) + last.calls[..last.count]
  }

  ghost predicate FlushesAgree(s: State) {
    && CountsFit(s.js.flushes)
    && s.js.dispatched == DispatchedBy(s.js.flushes)
    && (MidFlush(s) ==>
          && s.js.flushes != []
          && var last := s.js.flushes[|s.js.flushes| - 1];
             s.slot.stage.rest == last.calls[last.count..])
  }

  lemma ParsedHasEmptiness(d: Dyn)
    requires Parse(d).Ok?
    ensures d.HasEmptiness()
  {
  }

  lemma {:induction false} DispatchedBySnoc(flushes: seq<Flush>, f: Flush)
    requires CountsFit(flushes) && f.count <= |f.calls|
    ensures CountsFit(flushes + [f])
    ensures DispatchedBy(flushes + [f]) == DispatchedBy(flushes) + f.calls[..f.count]
  {
    assert (flushes + [f])[..|flushes|] == flushes;
  }

  lemma {:induction false} StepKeepsFlushesAgree(s: State, step: Step)
    requires Enabled(s, step) && FlushesAgree(s)
    ensures FlushesAgree(Next(s, step))
  {
    if step.FlushBatch? && Parse(step.batch).Ok? {
      FlushAgrees(s, step);
    } else if step.Dispatch? {
      DispatchAgrees(s);
    } else {
      assert Next(s, step).js.flushes == s.js.flushes && Next(s, step).js.dispatched == s.js.dispatched;
    }
  }

  lemma {:induction false} FlushAgrees(s: State, step: Step)
    requires Enabled(s, step) && step.FlushBatch? && Parse(step.batch).Ok? && FlushesAgree(s)
    ensures FlushesAgree(Next(s, step))
  {
    ParsedHasEmptiness(step.batch);
    var calls := Parse(step.batch).value;
    DispatchedBySnoc(s.js.flushes, Flush(calls, 0));
    assert s.js.dispatched + calls[..0] == s.js.dispatched;
    assert calls[0..] == calls;
  }

  lemma {:induction false} DispatchAgrees(s: State)
    requires Enabled(s, Dispatch) && FlushesAgree(s)
    ensures FlushesAgree(Next(s, Dispatch))
  {
    var n := |s.js.flushes| - 1;
    var init, last := s.js.flushes[..n], s.js.flushes[n];
    DispatchedBySnoc(init, last.(count := last.count + 1));
    assert last.calls[..last.count + 1] == last.calls[..last.count] + [s.slot.stage.rest[0]];
    assert last.calls[last.count + 1..] == s.slot.stage.rest[1..];
    assert CountOne(s.js.flushes) == init + [last.(count := last.count + 1)];
    assert DispatchedBy(init) + (last.calls[..last.count] + [s.slot.stage.rest[0]]) == s.js.dispatched + [s.slot.stage.rest[0]];
  }

  lemma {:induction false} StepHandsOver(s: State, step: Step)
    requires Enabled(s, step)
    ensures CallsOf(Next(s, step).js.flushes) == CallsOf(s.js.flushes) + HandedBy(step)
  {
    if step.FlushBatch? && Parse(step.batch).Ok? {
      ParsedHasEmptiness(step.batch);
    }
  }

  lemma {:induction false} RunKeepsFlushesAgree(s: State, steps: seq<Step>)
    requires IsRun(s, steps) && FlushesAgree(s)
    ensures FlushesAgree(Exec(s, steps))
    decreases |steps|
  {
    if steps == [] {
    } else {
      StepKeepsFlushesAgree(s, steps[0]);
      RunKeepsFlushesAgree(Next(s, steps[0]), steps[1..]);
    }
  }

  lemma Joined(a: seq<seq<MethodCall>>, b: seq<seq<MethodCall>>, c: seq<seq<MethodCall>>)
    ensures (a + b) + c == a + (b + c)
  {
  }

  lemma {:induction false} RunHandsOver(s: State, steps: seq<Step>)
    requires IsRun(s, steps)
    ensures CallsOf(Exec(s, steps).js.flushes) == CallsOf(s.js.flushes) + Handed(steps)
    decreases |steps|
  {
    if steps == [] {
    } else {
      StepHandsOver(s, steps[0]);
      RunHandsOver(Next(s, steps[0]), steps[1..]);
      Joined(CallsOf(s.js.flushes), HandedBy(steps[0]), Handed(steps[1..]));
    }
  }

  lemma {:induction false} HandedFromStart(steps: seq<Step>)
    requires IsRun(INIT, steps)
    ensures CallsOf(Exec(INIT, steps).js.flushes) == Handed(steps)
  {
    RunHandsOver(INIT, steps);
    assert CallsOf(INIT.js.flushes) == [];
    assert [] + Handed(steps) == Handed(steps);
  }

  /** Some flush is over although not all of its calls were made. */
  ghost predicate CutShort(s: State) {
    exists i :: 0 <= i < |s.js.flushes| && IsCutShort(s, i)
  }

  ghost predicate IsCutShort(s: State, i: nat)
    requires i < |s.js.flushes|
  {
    s.js.flushes[i].count < |s.js.flushes[i].calls| && !(MidFlush(s) && i == |s.js.flushes| - 1)
  }

  lemma {:induction false} StepCutsShort(s: State, step: Step)
    requires Enabled(s, step) && FlushesAgree(s)
    ensures CutShort(Next(s, step)) <==> CutShort(s) || step.DispatchThrow?
  {
    var t := Next(s, step);
    if step.FlushBatch? && Parse(step.batch).Ok? {
      ParsedHasEmptiness(step.batch);
    }
    if CutShort(s) {
      var i :| 0 <= i < |s.js.flushes| && IsCutShort(s, i);
      assert IsCutShort(t, i);
    } else if step.DispatchThrow? {
      assert IsCutShort(t, |s.js.flushes| - 1);
    } else if CutShort(t) {
      var i :| 0 <= i < |t.js.flushes| && IsCutShort(t, i);
      assert i < |s.js.flushes| ==> IsCutShort(s, i);
    }
  }

  lemma {:induction false} RunCutsShort(s: State, steps: seq<Step>)
    requires IsRun(s, steps) && FlushesAgree(s)
    ensures CutShort(Exec(s, steps)) <==> CutShort(s) || DispatchThrow in steps
    decreases |steps|
  {
    if steps == [] {
    } else {
      StepKeepsFlushesAgree(s, steps[0]);
      StepCutsShort(s, steps[0]);
      RunCutsShort(Next(s, steps[0]), steps[1..]);
    }
  }

  lemma {:induction false} FlattenSnoc(batches: seq<seq<MethodCall>>, last: seq<MethodCall>)
    ensures Flatten(batches + [last]) == Flatten(batches) + last
  {
    if batches == [] {
      assert [last][1..] == [] && batches + [last] == [last];
      assert last + [] == last;
    } else {
      FlattenSnoc(batches[1..], last);
      assert (batches + [last])[1..] == batches[1..] + [last];
      assert batches[0] + (Flatten(batches[1..]) + last) == batches[0] + Flatten(batches[1..]) + last;
    }
  }

  /** The flushes dispatched all they were handed exactly if each of them made all its calls. */
  lemma {:induction false} DispatchedAll(flushes: seq<Flush>)
    requires CountsFit(flushes)
    ensures |DispatchedBy(flushes)| <= |Flatten(CallsOf(flushes))|
    ensures DispatchedBy(flushes) == Flatten(CallsOf(flushes))
            <==> forall i :: 0 <= i < |flushes| ==> flushes[i].count == |flushes[i].calls|
    ensures |DispatchedBy(flushes)| == |Flatten(CallsOf(flushes))|
            ==> forall i :: 0 <= i < |flushes| ==> flushes[i].count == |flushes[i].calls|
  {
    if flushes == [] {
    } else {
      var init, last := flushes[..|flushes| - 1], flushes[|flushes| - 1];
      DispatchedAll(init);
      assert CallsOf(flushes) == CallsOf(init) + [last.calls];
      FlattenSnoc(CallsOf(init), last.calls);
      if forall i :: 0 <= i < |flushes| ==> flushes[i].count == |flushes[i].calls| {
        forall i | 0 <= i < |init|
          ensures init[i].count == |init[i].calls|
        {
          assert init[i] == flushes[i];
        }
        assert last.calls[..last.count] == last.calls;
      }
      if |DispatchedBy(flushes)| == |Flatten(CallsOf(flushes))| {
        assert last.count == |last.calls| && |DispatchedBy(init)| == |Flatten(CallsOf(init))|;
        forall i | 0 <= i < |flushes|
          ensures flushes[i].count == |flushes[i].calls|
        {
          if i < |init| {
            assert init[i] == flushes[i];
          }
        }
      }
    }
  }

  lemma {:induction false} CompleteUnlessCutShort(s: State)
    requires FlushesAgree(s) && !MidFlush(s)
    ensures s.js.dispatched == Flatten(CallsOf(s.js.flushes)) <==> !CutShort(s)
  {
    DispatchedAll(s.js.flushes);
    if CutShort(s) {
      var i :| 0 <= i < |s.js.flushes| && IsCutShort(s, i);
    } else {
      forall i | 0 <= i < |s.js.flushes|
        ensures s.js.flushes[i].count == |s.js.flushes[i].calls|
      {
        assert !IsCutShort(s, i);
      }
    }
  }

  /** The flushes of a state in the middle of one, as they are when that one is carried through. */
  ghost function CarriedThrough(s: State): (flushes: seq<Flush>)
    requires FlushesAgree(s) && MidFlush(s)
    ensures CountsFit(flushes)
  {
    var n := |s.js.flushes| - 1;
    s.js.flushes[..n] + [Flush(s.js.flushes[n].calls, |s.js.flushes[n].calls|)]
  }

  lemma {:induction false} CarryingThrough(s: State)
    requires FlushesAgree(s) && MidFlush(s)
    ensures CallsOf(CarriedThrough(s)) == CallsOf(s.js.flushes)
    ensures DispatchedBy(CarriedThrough(s)) == s.js.dispatched + Remaining(s)
  {
    var n := |s.js.flushes| - 1;
    var init, last := s.js.flushes[..n], s.js.flushes[n];
    DispatchedBySnoc(init, Flush(last.calls, |last.calls|));
    assert s.js.flushes == init + [last];
    DispatchedBySnoc(init, last);
    assert last.calls[..last.count] + last.calls[last.count..] == last.calls[..|last.calls|];
    assert DispatchedBy(init) + last.calls[..last.count] + last.calls[last.count..]
        == DispatchedBy(init) + (last.calls[..last.count] + last.calls[last.count..]);
  }

  /** With the current flush carried through, nothing is missing exactly if no flush was cut short. */
  lemma {:induction false} CoverageIsCompleteness(s: State)
    requires FlushesAgree(s)
    ensures s.js.dispatched + Remaining(s) == Flatten(CallsOf(s.js.flushes)) <==> !CutShort(s)
  {
    if MidFlush(s) {
      CarryingThrough(s);
      var flushes := CarriedThrough(s);
      DispatchedAll(flushes);
      if CutShort(s) {
        var i :| 0 <= i < |flushes| && IsCutShort(s, i);
        assert flushes[i].count < |flushes[i].calls|;
      } else {
        forall i | 0 <= i < |flushes|
          ensures flushes[i].count == |flushes[i].calls|
        {
          assert i < |flushes| - 1 ==> !IsCutShort(s, i);
        }
      }
    } else {
      assert s.js.dispatched + [] == s.js.dispatched;
      CompleteUnlessCutShort(s);
    }
  }

  /** Native calls are dispatched in exactly the order JavaScript handed them over, all of them unless a native call throws. */
  lemma {:induction false} CallsKeepTheirOrder(steps: seq<Step>)
    requires IsRun(INIT, steps)
    ensures var s := Exec(INIT, steps);
            s.js.dispatched + Remaining(s) == Flatten(Handed(steps)) <==> DispatchThrow !in steps
  {
    RunKeepsFlushesAgree(INIT, steps);
    HandedFromStart(steps);
    RunCutsShort(INIT, steps);
    CoverageIsCompleteness(Exec(INIT, steps));
  }

  /** Whatever throws, each batch handed over is dispatched up to some point and in its own order. */
  lemma {:induction false} CallsOfEachBatchKeepTheirOrder(steps: seq<Step>)
    requires IsRun(INIT, steps)
    ensures var s := Exec(INIT, steps);
            && CallsOf(s.js.flushes) == Handed(steps)
            && CountsFit(s.js.flushes) && s.js.dispatched == DispatchedBy(s.js.flushes)
  {
    RunKeepsFlushesAgree(INIT, steps);
    HandedFromStart(steps);
  }

  // ---- the end-of-batch signal ----

  /** A flush that was not empty has happened since the last end of a batch. */
  ghost predicate CallsSinceBatchEnd(trace: seq<Event>) {
    exists j :: 0 <= j < |trace| && trace[j] == Flushed(true) && forall m :: j < m < |trace| ==> !trace[m].EndOfBatch?
  }

  ghost predicate FiredExactly(trace: seq<Event>) {
    forall i :: 0 <= i < |trace| && trace[i].EndOfBatch? ==> (trace[i].completeFired <==> CallsSinceBatchEnd(trace[..i]))
  }

  lemma {:induction false} EventAdded(trace: seq<Event>, e: Event)
    ensures CallsSinceBatchEnd(trace + [e]) <==> if e.EndOfBatch? then false else e.nonEmpty || CallsSinceBatchEnd(trace)
    ensures FiredExactly(trace) && (e.EndOfBatch? ==> (e.completeFired <==> CallsSinceBatchEnd(trace))) ==> FiredExactly(trace + [e])
  {
    var more := trace + [e];
    assert more[|trace|] == e;
    if e == Flushed(true) {
      assert CallsSinceBatchEnd(more);
    } else if e == Flushed(false) {
      if CallsSinceBatchEnd(trace) {
        var j :| 0 <= j < |trace| && trace[j] == Flushed(true) && forall m :: j < m < |trace| ==> !trace[m].EndOfBatch?;
        assert more[j] == Flushed(true);
      }
      if CallsSinceBatchEnd(more) {
        var j :| 0 <= j < |more| && more[j] == Flushed(true) && forall m :: j < m < |more| ==> !more[m].EndOfBatch?;
        forall m | j < m < |trace|
          ensures !trace[m].EndOfBatch?
        {
          assert more[m] == trace[m];
        }
        assert trace[j] == Flushed(true);
      }
    }
    forall i | 0 <= i < |more| && more[i].EndOfBatch?
      ensures more[..i] == trace[..i]
    {
    }
  }

  ghost predicate FlagTracks(s: State) {
    (s.js.batchHad <==> CallsSinceBatchEnd(s.js.trace)) && FiredExactly(s.js.trace)
  }

  lemma {:induction false} StepKeepsFlagTracking(s: State, step: Step)
    requires Enabled(s, step) && FlagTracks(s)
    ensures FlagTracks(Next(s, step))
  {
    StepTraces(s, step);
    var before, after := s.js.trace, Next(s, step).js.trace;
    if after != before {
      EventAdded(before, after[|before|]);
    }
  }

  /** A step leaves trace and flag alone, or adds one event that says what the flag was or will be. */
  lemma StepTraces(s: State, step: Step)
    requires Enabled(s, step)
    ensures var js, next := s.js, Next(s, step).js;
            || (next.trace == js.trace && next.batchHad == js.batchHad)
            || (next.trace == js.trace + [EndOfBatch(js.batchHad)] && !next.batchHad)
            || exists nonEmpty :: next.trace == js.trace + [Flushed(nonEmpty)] && next.batchHad == (js.batchHad || nonEmpty)
  {
  }

  lemma {:induction false} RunKeepsFlagTracking(s: State, steps: seq<Step>)
    requires IsRun(s, steps) && FlagTracks(s)
    ensures FlagTracks(Exec(s, steps))
    decreases |steps|
  {
    if steps == [] {
    } else {
      StepKeepsFlagTracking(s, steps[0]);
      RunKeepsFlagTracking(Next(s, steps[0]), steps[1..]);
    }
  }

  /** onBatchComplete fires at an end of batch exactly if a flush that was not empty happened since the previous one. */
  lemma {:induction false} BatchCompleteFiresExactly(steps: seq<Step>)
    requires IsRun(INIT, steps)
    ensures FiredExactly(Exec(INIT, steps).js.trace)
  {
    RunKeepsFlagTracking(INIT, steps);
  }

  // ---- the failure latch ----

  predicate IsLoad(t: Task) {
    t.kind.Load?
  }

  /** How many loads have failed, from the queue or synchronous. */
  function FailedLoads(s: State): nat {
    BridgeTheorems.Count(s.work.failed, IsLoad) + s.work.syncFailed
  }

  /** The latch is up exactly if not all of them failed before their script, over their bundle registry. */
  ghost predicate LatchFits(s: State) {
    s.work.registryFailed <= FailedLoads(s) && (s.js.appFailed <==> s.work.registryFailed < FailedLoads(s))
  }

  lemma {:induction false} StepKeepsLatch(s: State, step: Step)
    requires Enabled(s, step) && LatchFits(s)
    ensures LatchFits(Next(s, step))
  {
    if IsSubmission(step) || IsQueueStep(step) {
      var w, u := s.work, Next(s, step).work;
      assert u.failed == w.failed && u.syncFailed == w.syncFailed && u.registryFailed == w.registryFailed;
    } else {
      BodyStepKeepsLatch(s, step);
    }
  }

  lemma {:induction false} BodyStepKeepsLatch(s: State, step: Step)
    requires Enabled(s, step) && !IsSubmission(step) && !IsQueueStep(step) && LatchFits(s)
    ensures LatchFits(BodyStep(s, step))
  {
    var next := BodyStep(s, step);
    if next.work.failed != s.work.failed {
      var task := s.slot.runner.task;
      assert next.work.failed == s.work.failed + [task];
      BridgeTheorems.CountAdds(s.work.failed, task, IsLoad);
    }
  }

  lemma {:induction false} RunKeepsLatch(s: State, steps: seq<Step>)
    requires IsRun(s, steps) && LatchFits(s)
    ensures LatchFits(Exec(s, steps))
    decreases |steps|
  {
    if steps == [] {
    } else {
      StepKeepsLatch(s, steps[0]);
      RunKeepsLatch(Next(s, steps[0]), steps[1..]);
    }
  }

  /** The failure latch is up exactly if more loads have failed than failed over their bundle registry, before the script. */
  lemma {:induction false} LatchedExactly(steps: seq<Step>)
    requires IsRun(INIT, steps)
    ensures Exec(INIT, steps).js.appFailed <==> Exec(INIT, steps).work.registryFailed < FailedLoads(Exec(INIT, steps))
  {
    RunKeepsLatch(INIT, steps);
  }

  /** Such a load fails and leaves the latch down. */
  lemma {:induction false} RegistryFailureDoesNotLatch(t: Task)
    requires IsLoad(t)
    ensures var steps := BridgeTheorems.Startup(t) + [RegistryThrow];
            IsRun(INIT, steps) && Exec(INIT, steps).work.failed == [t] && !Exec(INIT, steps).js.appFailed
  {
    BridgeTheorems.StartsBody(t);
    var s := BridgeTheorems.StartedBody(t);
    BridgeTheorems.OneStep(s, RegistryThrow, []);
    RunsCompose(INIT, BridgeTheorems.Startup(t), [RegistryThrow]);
  }

  lemma {:induction false} NoCallGetsThrough(s: State, steps: seq<Step>)
    requires IsRun(s, steps) && s.js.appFailed
    ensures var t := Exec(s, steps);
            && t.js.appFailed && s.js.reached <= t.js.reached
            && forall k :: |s.js.reached| <= k < |t.js.reached| ==> !t.js.reached[k].CallsJs()
    decreases |steps|
  {
    if steps == [] {
    } else {
      var next := Next(s, steps[0]);
      assert s.js.reached <= next.js.reached && next.js.appFailed;
      NoCallGetsThrough(next, steps[1..]);
    }
  }

  /** Once the script of any load has failed, no later JavaScript call or callback gets through to the executor. */
  lemma {:induction false} FailedLoadStopsCalls(before: seq<Step>, after: seq<Step>)
    requires IsRun(INIT, before) && IsRun(Exec(INIT, before), after)
    requires Exec(INIT, before).work.registryFailed < FailedLoads(Exec(INIT, before))
    ensures var s, t := Exec(INIT, before), Exec(Exec(INIT, before), after);
            && s.js.reached <= t.js.reached
            && forall k :: |s.js.reached| <= k < |t.js.reached| ==> !t.js.reached[k].CallsJs()
  {
    LatchedExactly(before);
    NoCallGetsThrough(Exec(INIT, before), after);
  }
}

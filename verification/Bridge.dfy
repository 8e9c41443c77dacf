/**
 The bridge as it is written: the fields of the four objects that own each other one to one (Instance,
 NativeToJsBridge, JsToNativeBridge and the executor), updated in place.  Every method is a piece of a run of
 the protocol, so every theorem about runs holds of the object.
 */
module Bridge {
  import opened Wrappers
  import opened Dynamic
  import opened MethodCalls
  import opened BridgeProtocol
  import BridgeTheorems

  /**
   A queue that JavaScript hands over; the call in it that throws, and the call that calls destroy, if it has that many
   and gets that far. One past the last call it is the callback at the end of the batch that calls destroy.
   */
  datatype Outgoing = Outgoing(batch: Dyn, throwsAt: nat, destroysAt: nat)

  /**
   What happens when a body enters the executor: a load may fail over its bundle registry; then JavaScript flushes
   queues on the way, and ends with a last queue or an exception.
   */
  datatype Script = Script(registryThrows: bool, immediate: seq<Outgoing>, result: Option<Outgoing>)

  /** How a flush ends: its calls are made, an exception leaves it, or the process is over. */
  datatype FlushEnd = Returned | Threw | EndedProcess

  // ---- the steps of each method ----

  ghost function SubmitSteps(t: Task, destroyed: bool): seq<Step> {
    if destroyed then [Submit(t), ReadFlag(0)] else [Submit(t), ReadFlag(0), Enqueue(0)]
  }

  /** Steps over the calls of a flush: dispatch until one throws; on the queue thread a call may destroy the bridge. */
  ghost function CallSteps(calls: seq<MethodCall>, end: bool, throwsAt: nat, destroysAt: nat, onQueue: bool): seq<Step>
    decreases |calls|, onQueue
  {
    if calls == [] then EndSteps(end, onQueue && destroysAt == 0)
    else if onQueue && destroysAt == 0 then [SetDestroyed, TeardownInBody] + CallSteps(calls, end, throwsAt, 0, false)
    else if throwsAt == 0 then [DispatchThrow]
    else [Dispatch] + CallSteps(calls[1..], end, throwsAt - 1, if destroysAt == 0 then 0 else destroysAt - 1, onQueue)
  }

  ghost function CallStep(destroys: bool, throws: bool): seq<Step> {
    (if destroys then [SetDestroyed, TeardownInBody] else []) + [if throws then DispatchThrow else Dispatch]
  }

  lemma {:induction false} OneCall(calls: seq<MethodCall>, end: bool, throwsAt: nat, destroysAt: nat, onQueue: bool)
    requires calls != []
    ensures CallSteps(calls, end, throwsAt, destroysAt, onQueue)
         == CallStep(onQueue && destroysAt == 0, throwsAt == 0)
            + if throwsAt == 0 then []
              else CallSteps(calls[1..], end, throwsAt - 1, Left(destroysAt, 1), onQueue && destroysAt != 0)
  {
    if onQueue && destroysAt == 0 {
      OneCall(calls, end, throwsAt, 0, false);
      Associates([SetDestroyed, TeardownInBody], CallStep(false, throwsAt == 0),
                 if throwsAt == 0 then [] else CallSteps(calls[1..], end, throwsAt - 1, 0, false));
    }
  }

  ghost function EndSteps(end: bool, destroys: bool): seq<Step> {
    if !end then [FlushDone]
    else if destroys then [FlushDone, SetDestroyed, TeardownInBody, Decrement]
    else [FlushDone, Decrement]
  }

  /** How far a position is from a later one. */
  function Left(position: nat, from: nat): nat {
    if position < from then 0 else position - from
  }

  /** A flush reaches the point where destroy is called. */
  ghost predicate Destroys(calls: seq<MethodCall>, end: bool, throwsAt: nat, destroysAt: nat, onQueue: bool) {
    && onQueue
    && ((destroysAt < |calls| && destroysAt <= throwsAt) || (destroysAt == |calls| <= throwsAt && end))
  }

  ghost predicate FlushDestroys(out: Outgoing, end: bool, onQueue: bool) {
    Parse(out.batch).Ok? && Destroys(Parse(out.batch).value, end, out.throwsAt, out.destroysAt, onQueue)
  }

  ghost predicate FlushEndsProcess(out: Outgoing) {
    Parse(out.batch) == Err(NotAnInteger)
  }

  ghost function FlushSteps(out: Outgoing, end: bool, onQueue: bool): seq<Step> {
    match Parse(out.batch)
    case Ok(calls) => [FlushBatch(out.batch, end)] + CallSteps(calls, end, out.throwsAt, out.destroysAt, onQueue)
    case Err(_) => [FlushBatch(out.batch, end)]
  }

  /** JavaScript cannot go on after a flush that destroyed its executor or ended the process. */
  ghost predicate Stops(out: Outgoing, onQueue: bool) {
    FlushEndsProcess(out) || FlushDestroys(out, false, onQueue)
  }

  ghost function ImmediateSteps(queues: seq<Outgoing>, onQueue: bool): seq<Step> {
    if queues == [] then []
    else FlushSteps(queues[0], false, onQueue) + if Stops(queues[0], onQueue) then [] else ImmediateSteps(queues[1..], onQueue)
  }

  ghost predicate NoneStops(queues: seq<Outgoing>, onQueue: bool) {
    forall i :: 0 <= i < |queues| ==> !Stops(queues[i], onQueue)
  }

  /** Steps of the executor call of a body, up to its end, or to where it cannot go on. */
  ghost function ScriptSteps(js: Script, r: Runner): seq<Step> {
    ImmediateSteps(js.immediate, r.Queued?)
    + if !NoneStops(js.immediate, r.Queued?) then []
      else ResultSteps(js.result, r)
  }

  ghost function ResultSteps(result: Option<Outgoing>, r: Runner): seq<Step> {
    match result
    case None => [JsThrow]
    case Some(last) => if r.Uncounted() then [FinishOther] else FlushSteps(last, true, r.Queued?)
  }

  ghost function BodySteps(r: Runner, appFailed: bool, js: Script): seq<Step> {
    if r.Loads() && js.registryThrows then [RegistryThrow]
    else if appFailed && r.CallsJs() then [EnterExecutor]
    else [EnterExecutor] + ScriptSteps(js, r)
  }

  /** The body in the slot cannot go on: the process has ended, or JavaScript would go on in an executor that is gone. */
  ghost predicate Stuck(s: State) {
    s.slot.Body? && (s.slot.stage.Crashed? || (s.slot.stage.InJs? && !s.flags.alive))
  }

  ghost function HeadSteps(s: State, js: Script): seq<Step>
    requires s.work.queue != []
  {
    match s.work.queue[0]
    case Teardown => [Pop, TearStep, TearStep, TearStep]
    case Work(t) => if s.flags.destroyed then [Pop] else [Pop] + BodySteps(Queued(t), s.js.appFailed, js)
  }

  // ---- what a body comes to, without the steps ----

  /** What a body changes of the bridge's fields: counter, signals given, batch flag, native calls made, queue, executor. */
  datatype Counts = Counts(pending: int, completed: nat, batchHad: bool, invoked: seq<MethodCall>, queue: seq<Entry>, alive: bool)

  /** The bridge is torn down, if it is. */
  function DownIf(c: Counts, down: bool): Counts {
    if down then c.(queue := [], alive := false) else c
  }

  /** The calls of a flush up to the one that throws. */
  ghost function CallsMade(out: Outgoing): seq<MethodCall> {
    match Parse(out.batch)
    case Ok(calls) => if out.throwsAt < |calls| then calls[..out.throwsAt] else calls
    case Err(_) => []
  }

  /** A batch ends: it is signalled if it had calls, and the counter goes down. */
  ghost function AfterBatch(c: Counts): Counts {
    c.(pending := c.pending - 1, completed := c.completed + (if c.batchHad then 1 else 0), batchHad := false)
  }

  /** Calls are made up to the one that throws; without that one the batch may end. */
  ghost function AfterCalls(c: Counts, calls: seq<MethodCall>, end: bool, throwsAt: nat): Counts {
    if throwsAt < |calls| then c.(invoked := c.invoked + calls[..throwsAt])
    else
      var made := c.(invoked := c.invoked + calls);
      if end then AfterBatch(made) else made
  }

  ghost predicate Completes(out: Outgoing) {
    Parse(out.batch).Ok? && out.throwsAt >= |Parse(out.batch).value|
  }

  /** A flush makes its calls, ends its batch unless something throws, and may tear the bridge down. */
  ghost function AfterFlush(c: Counts, out: Outgoing, end: bool, onQueue: bool): Counts {
    var noted := c.(batchHad := c.batchHad || (out.batch.HasEmptiness() && !out.batch.IsEmpty()));
    var made := noted.(invoked := c.invoked + CallsMade(out));
    DownIf(if end && Completes(out) then AfterBatch(made) else made, FlushDestroys(out, end, onQueue))
  }

  ghost function AfterImmediate(c: Counts, queues: seq<Outgoing>, onQueue: bool): Counts
    decreases |queues|
  {
    if queues == [] then c
    else if Stops(queues[0], onQueue) then AfterFlush(c, queues[0], false, onQueue)
    else AfterImmediate(AfterFlush(c, queues[0], false, onQueue), queues[1..], onQueue)
  }

  /** Loads may fail before their script, and calls are turned away once a script has failed; all else runs. */
  ghost function AfterBody(c: Counts, r: Runner, appFailed: bool, js: Script): Counts {
    if (r.Loads() && js.registryThrows) || (appFailed && r.CallsJs()) then c
    else
      var flushed := AfterImmediate(c, js.immediate, r.Queued?);
      if NoneStops(js.immediate, r.Queued?) && js.result.Some? && !r.Uncounted()
      then AfterFlush(flushed, js.result.value, true, r.Queued?) else flushed
  }

  /** The same for the calls of a flush, one by one. */
  ghost function AfterMaking(c: Counts, calls: seq<MethodCall>, throwsAt: nat, destroysAt: nat, onQueue: bool): Counts
    decreases |calls|
  {
    if calls == [] then c
    else
      var d := DownIf(c, onQueue && destroysAt == 0);
      if throwsAt == 0 then d
      else AfterMaking(d.(invoked := d.invoked + [calls[0]]), calls[1..], throwsAt - 1, Left(destroysAt, 1), onQueue && destroysAt != 0)
  }

  lemma {:induction false} MakingComesTo(c: Counts, calls: seq<MethodCall>, throwsAt: nat, destroysAt: nat, onQueue: bool)
    ensures AfterMaking(c, calls, throwsAt, destroysAt, onQueue)
         == DownIf(c.(invoked := c.invoked + if throwsAt < |calls| then calls[..throwsAt] else calls),
                   onQueue && destroysAt < |calls| && destroysAt <= throwsAt)
    decreases |calls|
  {
    if calls == [] {
      assert c.invoked + [] == c.invoked;
    } else if throwsAt == 0 {
      assert c.invoked + calls[..0] == c.invoked;
    } else {
      var d := DownIf(c, onQueue && destroysAt == 0);
      var rest := calls[1..];
      MakingComesTo(d.(invoked := d.invoked + [calls[0]]), rest, throwsAt - 1, Left(destroysAt, 1), onQueue && destroysAt != 0);
      OneMoreMade(c.invoked, calls, if throwsAt < |calls| then throwsAt else |calls|);
    }
  }

  lemma OneMoreMade(made: seq<MethodCall>, calls: seq<MethodCall>, n: nat)
    requires 0 < n <= |calls|
    ensures made + [calls[0]] + calls[1..][..n - 1] == made + calls[..n]
    ensures calls[..|calls|] == calls && calls[1..][..|calls| - 1] == calls[1..]
  {
  }

  /** What is still to come of a flush completes the run and leads to the last fields. The quantifier keeps it folded. */
  ghost predicate Owes(
    run: seq<Step>, goal: seq<Step>, c: Counts, last: Counts,
    calls: seq<MethodCall>, end: bool, throwsAt: nat, destroysAt: nat, onQueue: bool
  ) {
    forall cs {:trigger CallSteps(cs, end, throwsAt, destroysAt, onQueue)} :: cs == calls ==>
      && run + CallSteps(cs, end, throwsAt, destroysAt, onQueue) == goal
      && AfterMaking(c, cs, throwsAt, destroysAt, onQueue) == last
  }

  lemma {:induction false} OwesOneCall(
    run: seq<Step>, goal: seq<Step>, c: Counts, last: Counts,
    calls: seq<MethodCall>, end: bool, throwsAt: nat, destroysAt: nat, onQueue: bool
  )
    requires calls != [] && Owes(run, goal, c, last, calls, end, throwsAt, destroysAt, onQueue)
    ensures var destroys := onQueue && destroysAt == 0;
            var d := DownIf(c, destroys);
      if throwsAt == 0 then run + CallStep(destroys, true) == goal && d == last
      else Owes(run + CallStep(destroys, false), goal, d.(invoked := d.invoked + [calls[0]]), last,
                calls[1..], end, throwsAt - 1, Left(destroysAt, 1), onQueue && destroysAt != 0)
  {
    OneCall(calls, end, throwsAt, destroysAt, onQueue);
    var now := CallStep(onQueue && destroysAt == 0, throwsAt == 0);
    assert run + CallSteps(calls, end, throwsAt, destroysAt, onQueue) == goal;
    if throwsAt == 0 {
      assert now + [] == now;
    } else {
      Associates(run, now, CallSteps(calls[1..], end, throwsAt - 1, Left(destroysAt, 1), onQueue && destroysAt != 0));
    }
  }

  lemma {:induction false} OwesTheEnd(
    run: seq<Step>, goal: seq<Step>, c: Counts, last: Counts, end: bool, throwsAt: nat, destroysAt: nat, onQueue: bool
  )
    requires Owes(run, goal, c, last, [], end, throwsAt, destroysAt, onQueue)
    ensures run + EndSteps(end, onQueue && destroysAt == 0) == goal && c == last
  {
    assert run + CallSteps([], end, throwsAt, destroysAt, onQueue) == goal;
  }

  /** What is still to be flushed completes the run and leads to the last fields. The quantifier keeps it folded. */
  ghost predicate OwesFlushes(run: seq<Step>, goal: seq<Step>, c: Counts, last: Counts, queues: seq<Outgoing>, onQueue: bool) {
    forall qs {:trigger ImmediateSteps(qs, onQueue)} ::
      qs == queues ==> run + ImmediateSteps(qs, onQueue) == goal && AfterImmediate(c, qs, onQueue) == last
  }

  lemma {:induction false} OwesOneFlush(
    run: seq<Step>, goal: seq<Step>, c: Counts, last: Counts, queues: seq<Outgoing>, onQueue: bool
  )
    requires queues != [] && OwesFlushes(run, goal, c, last, queues, onQueue)
    ensures var now, after := FlushSteps(queues[0], false, onQueue), AfterFlush(c, queues[0], false, onQueue);
      if Stops(queues[0], onQueue) then run + now == goal && after == last
      else OwesFlushes(run + now, goal, after, last, queues[1..], onQueue)
  {
    assert run + ImmediateSteps(queues, onQueue) == goal && AfterImmediate(c, queues, onQueue) == last;
    var now := FlushSteps(queues[0], false, onQueue);
    assert now + [] == now;
    Associates(run, now, ImmediateSteps(queues[1..], onQueue));
  }

  lemma {:induction false} OwesNoFlush(run: seq<Step>, goal: seq<Step>, c: Counts, last: Counts, onQueue: bool)
    requires OwesFlushes(run, goal, c, last, [], onQueue)
    ensures run == goal && c == last
  {
    assert run + ImmediateSteps([], onQueue) == goal;
  }

  lemma FlushOfCalls(c: Counts, out: Outgoing, end: bool, onQueue: bool)
    ensures var noted := c.(batchHad := c.batchHad || (out.batch.HasEmptiness() && !out.batch.IsEmpty()));
            match Parse(out.batch)
            case Ok(calls) =>
              AfterFlush(c, out, end, onQueue)
              == DownIf(AfterCalls(noted, calls, end, out.throwsAt), Destroys(calls, end, out.throwsAt, out.destroysAt, onQueue))
            case Err(_) => AfterFlush(c, out, end, onQueue) == noted && !Completes(out)
  {
  }

  /** How often the end of a batch signalled its completion. */
  ghost function Fired(trace: seq<Event>): nat {
    if trace == [] then 0
    else
      var last := trace[|trace| - 1];
      Fired(trace[..|trace| - 1]) + if last == EndOfBatch(true) then 1 else 0
  }

  lemma {:induction false} FiredGrows(trace: seq<Event>, e: Event)
    ensures Fired(trace + [e]) == Fired(trace) + if e == EndOfBatch(true) then 1 else 0
  {
    assert (trace + [e])[..|trace|] == trace;
  }

  /** A step leads from one state to the next. The quantifier keeps the step folded where only its effects matter. */
  ghost predicate Leads(s: State, step: Step, t: State) {
    Enabled(s, step) && forall x {:trigger Next(s, x)} :: x == step ==> Enabled(s, x) && t == Next(s, x)
  }

  /** What the bridge keeps in fields is the same in both states, save the batch flag and the failure latch. */
  ghost predicate SameFields(s: State, t: State) {
    && t.pending == s.pending && t.flags == s.flags
    && t.work.queue == s.work.queue && t.work.submitting == s.work.submitting && t.work.posting == s.work.posting
    && t.js.dispatched == s.js.dispatched
  }

  /** An exception in a flush leaves the body at the end of a batch, and failed loads latch. */
  ghost predicate FlushThrew(s: State, end: bool, t: State)
    requires s.slot.Body?
  {
    && t.slot == (if end then Free else Body(s.slot.runner, InJs))
    && t.js.appFailed == (s.js.appFailed || (end && s.slot.runner.Loads()))
  }

  /** Of the fields, the beginning of a flush touches the batch flag; the slot tells whether parsing threw. */
  lemma {:induction false} BeginFlushEffects(s: State, batch: Dyn, end: bool, t: State)
    requires Leads(s, FlushBatch(batch, end), t)
    ensures s.slot.Body? && SameFields(s, t)
    ensures match Parse(batch)
            case Ok(calls) => t.slot == Body(s.slot.runner, Dispatching(calls, end)) && t.js.appFailed == s.js.appFailed
            case Err(NotAnInteger) => t.slot == Body(s.slot.runner, Crashed) && t.js.appFailed == s.js.appFailed
            case Err(_) => FlushThrew(s, end, t)
  {
    assert t == Next(s, FlushBatch(batch, end)) == BridgeProtocol.BeginFlush(s, batch, end);
    BatchHasEmptinessIfParsed(batch);
  }

  lemma {:induction false} BeginFlushMarks(s: State, batch: Dyn, end: bool, t: State)
    requires Leads(s, FlushBatch(batch, end), t)
    ensures Fired(t.js.trace) == Fired(s.js.trace)
    ensures t.js.batchHad == (s.js.batchHad || (batch.HasEmptiness() && !batch.IsEmpty()))
  {
    assert t == Next(s, FlushBatch(batch, end)) == BridgeProtocol.BeginFlush(s, batch, end);
    FiredGrows(s.js.trace, Flushed(batch.HasEmptiness() && !batch.IsEmpty()));
  }

  lemma BatchHasEmptinessIfParsed(batch: Dyn)
    ensures Parse(batch).Ok? ==> batch.HasEmptiness()
  {
  }

  /** The end of a flush completes the batch, if it is its last. */
  lemma {:induction false} FlushDoneEffects(s: State, t: State)
    requires Leads(s, FlushDone, t)
    ensures s.slot.Body? && s.slot.stage.Dispatching? && SameFields(s, t) && t.js.appFailed == s.js.appFailed
    ensures t.slot == Body(s.slot.runner, if s.slot.stage.end then Decrementing else InJs)
    ensures t.js.batchHad == (!s.slot.stage.end && s.js.batchHad)
    ensures Fired(t.js.trace) == Fired(s.js.trace) + if s.slot.stage.end && s.js.batchHad then 1 else 0
  {
    assert t == Next(s, FlushDone);
    FiredGrows(s.js.trace, EndOfBatch(s.js.batchHad));
  }

  lemma {:induction false} DispatchEffects(s: State, t: State)
    requires Leads(s, Dispatch, t)
    ensures s.slot.Body? && s.slot.stage.Dispatching? && s.slot.stage.rest != []
    ensures SameFields(s, t.(js := t.js.(dispatched := s.js.dispatched)))
    ensures t.js.dispatched == s.js.dispatched + [s.slot.stage.rest[0]]
    ensures t.slot == Body(s.slot.runner, s.slot.stage.(rest := s.slot.stage.rest[1..]))
    ensures t.js.appFailed == s.js.appFailed && t.js.batchHad == s.js.batchHad && t.js.trace == s.js.trace
  {
    assert t == Next(s, Dispatch);
  }

  lemma {:induction false} DispatchThrowEffects(s: State, t: State)
    requires Leads(s, DispatchThrow, t)
    ensures s.slot.Body? && s.slot.stage.Dispatching? && SameFields(s, t) && FlushThrew(s, s.slot.stage.end, t)
    ensures t.js.batchHad == s.js.batchHad && t.js.trace == s.js.trace
  {
    assert t == Next(s, DispatchThrow);
  }

  lemma {:induction false} DecrementEffects(s: State, t: State)
    requires Leads(s, Decrement, t)
    ensures t.slot.Free? && t.pending == s.pending - 1 && SameFields(s, t.(pending := s.pending)) && t.js == s.js
  {
    assert t == Next(s, Decrement);
  }

  /** The body ends without a last flush: JavaScript threw, or the work was not counted. */
  lemma {:induction false} RaiseEffects(s: State, t: State)
    requires Leads(s, SetDestroyed, t)
    ensures t == s.(flags := s.flags.(destroyed := true, request := FlagSet))
  {
    assert t == Next(s, SetDestroyed);
  }

  lemma {:induction false} TeardownEffects(s: State, t: State)
    requires Leads(s, TeardownInBody, t) && s.flags.destroyed
    ensures t == s.(flags := DOWN, work := QuitQueue(s.work))
  {
    assert t == Next(s, TeardownInBody);
  }

  const DOWN := Flags(true, false, true, Requested)

  lemma {:induction false} BodyEnds(s: State, step: Step, t: State)
    requires Leads(s, step, t) && (step.JsThrow? || step.FinishOther?)
    ensures s.slot.Body? && t.slot.Free? && SameFields(s, t)
    ensures t.js == s.js.(appFailed := s.js.appFailed || (step.JsThrow? && s.slot.runner.Loads()))
  {
    assert t == Next(s, step);
  }

  lemma Associates(a: seq<Step>, b: seq<Step>, c: seq<Step>)
    ensures a + b + c == a + (b + c)
  {
  }

  lemma TwoMore(run: seq<Step>, a: Step, b: Step)
    ensures run + [a] + [b] == run + [a, b]
  {
  }

  lemma {:induction false} RunGrows(run: seq<Step>, step: Step)
    requires IsRun(INIT, run) && Enabled(Exec(INIT, run), step)
    ensures IsRun(INIT, run + [step]) && Exec(INIT, run + [step]) == Next(Exec(INIT, run), step)
  {
    RunsCompose(INIT, run, [step]);
    assert [step][1..] == [];
  }

  /** A run from the initial state leads to a state. The quantifier keeps the run folded where only its end matters. */
  ghost predicate Led(run: seq<Step>, state: State) {
    forall r {:trigger IsRun(INIT, r)} :: r == run ==> IsRun(INIT, r) && state == Exec(INIT, r)
  }

  lemma StartsAnywhere()
    ensures Led([], INIT) && Fired(INIT.js.trace) == 0
  {
    forall r: seq<Step> | r == []
      ensures IsRun(INIT, r) && INIT == Exec(INIT, r)
    {
      assert Exec(INIT, []) == INIT;
    }
    var none: seq<Event> := INIT.js.trace;
    assert none == [] && Fired(none) == 0;
  }

  class Bridge {
    var pendingJSCalls: int
    var batchesCompleted: nat
    var destroyed: bool
    var executorAlive: bool
    var queueQuit: bool
    var queue: seq<Entry>
    var applicationScriptHasFailure: bool
    var batchHadNativeModuleCalls: bool
    var invoked: seq<MethodCall>   // the calls made on the module registry
    ghost var run: seq<Step>       // the run so far
    ghost var state: State         // where it has led

    ghost predicate Valid()
      reads this
    {
      Consistent() && applicationScriptHasFailure == state.js.appFailed
    }

    /** All fields agree with the run, except perhaps the failure latch while an exception is on its way. */
    ghost predicate Consistent()
      reads this
    {
      && Led(run, state)
      && pendingJSCalls == state.pending
      && destroyed == state.flags.destroyed && executorAlive == state.flags.alive && queueQuit == state.flags.quit
      && queue == state.work.queue && state.work.submitting == state.work.posting == []
      && batchHadNativeModuleCalls == state.js.batchHad
      && invoked == state.js.dispatched && batchesCompleted == Fired(state.js.trace)
    }

    ghost function Now(): Counts
      reads this
    {
      Counts(pendingJSCalls, batchesCompleted, batchHadNativeModuleCalls, invoked, queue, executorAlive)
    }

    constructor ()
      ensures Valid() && run == [] && Now() == Counts(0, 0, false, [], [], true)
      ensures !destroyed && !queueQuit && !applicationScriptHasFailure
    {
      pendingJSCalls, batchesCompleted, destroyed, executorAlive, queueQuit := 0, 0, false, true, false;
      queue, applicationScriptHasFailure, batchHadNativeModuleCalls, invoked := [], false, false, [];
      run, state := [], INIT;
      StartsAnywhere();
    }

    ghost method Take(step: Step)
      requires Led(run, state) && Enabled(state, step)
      modifies this`run, this`state
      ensures Led(run, state) && Leads(old(state), step, state)
      ensures run == old(run) + [step]
    {
      assert IsRun(INIT, run) && state == Exec(INIT, run);
      RunGrows(run, step);
      run, state := run + [step], Next(state, step);
    }

    /** The same, with the step in the open. */
    ghost method TakeOpenly(step: Step)
      requires Led(run, state) && Enabled(state, step)
      modifies this`run, this`state
      ensures Led(run, state)
      ensures run == old(run) + [step] && state == Next(old(state), step)
    {
      ghost var before := state;
      Take(step);
      assert state == Next(before, step);
    }

    /** loadApplication, callJSFunction, callJSCallback and the uncounted calls: count, check the flag, queue. */
    method SubmitTask(t: Task)
      requires Valid() && !Ended(state)
      modifies this
      ensures Valid() && run == old(run) + SubmitSteps(t, old(destroyed))
      ensures queue == if old(destroyed) then old(queue) else old(queue) + [Work(t)]
      ensures pendingJSCalls == old(pendingJSCalls) + (if t.kind.Other? then 0 else 1)
      ensures destroyed == old(destroyed) && executorAlive == old(executorAlive) && queueQuit == old(queueQuit)
    {
      ExecutorGoesLast();
      if Counted(t) {
        pendingJSCalls := pendingJSCalls + 1;
      }
      TakeOpenly(Submit(t));
      RunOnExecutorQueue(t);
    }

    method RunOnExecutorQueue(t: Task)
      requires Led(run, state) && !Ended(state)
      requires state.work.submitting == [t] && state.work.posting == []
      requires destroyed == state.flags.destroyed && queueQuit == state.flags.quit && queue == state.work.queue
      modifies this`queue, this`run, this`state
      ensures Led(run, state)
      ensures run == old(run) + if destroyed then [ReadFlag(0)] else [ReadFlag(0), Enqueue(0)]
      ensures state.work.submitting == state.work.posting == [] && queue == state.work.queue
      ensures queue == if destroyed || queueQuit then old(queue) else old(queue) + [Work(t)]
      ensures state.pending == old(state.pending) && state.flags == old(state.flags) && state.js == old(state.js)
    {
      TakeOpenly(ReadFlag(0));
      if destroyed {
        return;
      }
      if !queueQuit {   // a queue that has quit discards what is posted to it
        queue := queue + [Work(t)];
      }
      TakeOpenly(Enqueue(0));
      TwoMore(old(run), ReadFlag(0), Enqueue(0));
    }

    /** destroy(), called by a running body: the teardown runs at once, and the body is left without an executor. */
    method DestroyInBody()
      requires Consistent() && !destroyed && CanRun(state) && !Ended(state) && state.slot.runner.Queued?
      modifies this
      ensures Consistent() && run == old(run) + [SetDestroyed, TeardownInBody]
      ensures state.flags == DOWN && Now() == DownIf(old(Now()), true)
      ensures state.slot == old(state.slot) && state.js == old(state.js) && pendingJSCalls == old(pendingJSCalls)
      ensures applicationScriptHasFailure == old(applicationScriptHasFailure)
    {
      ghost var before := state;
      destroyed := true;
      Take(SetDestroyed);
      RaiseEffects(before, state);
      before := state;
      executorAlive, queueQuit, queue := false, true, [];
      Take(TeardownInBody);
      TeardownEffects(before, state);
      TwoMore(old(run), SetDestroyed, TeardownInBody);
    }

    /**
     JsToNativeBridge::callNativeModules. Once begun it goes on to its end, even if a call or the callback at the end of
     the batch destroys the bridge.
     */
    method CallNativeModules(ghost r: Runner, out: Outgoing, isEndOfBatch: bool, onQueue: bool) returns (how: FlushEnd)
      requires Consistent() && Enabled(state, FlushBatch(out.batch, isEndOfBatch))
      requires state.slot.runner == r && onQueue == r.Queued? && (onQueue ==> !destroyed)
      modifies this
      ensures Consistent() && run == old(run) + FlushSteps(out, isEndOfBatch, onQueue)
      ensures how.EndedProcess? <==> FlushEndsProcess(out)
      ensures how.EndedProcess? ==> state.slot == Body(r, Crashed)
      ensures !how.EndedProcess? ==> state.slot == if isEndOfBatch then Free else Body(r, InJs)
      ensures state.flags == if FlushDestroys(out, isEndOfBatch, onQueue) then DOWN else old(state.flags)
      ensures applicationScriptHasFailure == old(applicationScriptHasFailure)
      ensures state.js.appFailed == (old(state.js.appFailed) || (isEndOfBatch && how.Threw? && r.Loads()))
      ensures Now() == AfterFlush(old(Now()), out, isEndOfBatch, onQueue) && (how.Returned? <==> Completes(out))
    {
      FlushOfCalls(Now(), out, isEndOfBatch, onQueue);
      ghost var before := run;
      var calls := BeginFlush(out.batch, isEndOfBatch);
      if calls.Ok? {
        var threw := DispatchCalls(r, calls.value, isEndOfBatch, out.throwsAt, out.destroysAt, onQueue);
        Associates(before, [FlushBatch(out.batch, isEndOfBatch)],
                   CallSteps(calls.value, isEndOfBatch, out.throwsAt, out.destroysAt, onQueue));
        how := if threw then Threw else Returned;
      } else {
        how := if calls.error.NotAnInteger? then EndedProcess else Threw;
      }
    }

    /** callNativeModules up to the loop: an error when asking for emptiness or parsing throws. */
    method BeginFlush(batch: Dyn, isEndOfBatch: bool) returns (calls: Parsed)
      requires Consistent() && Enabled(state, FlushBatch(batch, isEndOfBatch))
      modifies this
      ensures Consistent() && run == old(run) + [FlushBatch(batch, isEndOfBatch)]
      ensures calls == Parse(batch)
      ensures Now() == old(Now()).(batchHad := old(batchHadNativeModuleCalls) || (batch.HasEmptiness() && !batch.IsEmpty()))
      ensures state.flags == old(state.flags) && applicationScriptHasFailure == old(applicationScriptHasFailure)
      ensures match calls
              case Ok(c) =>
                && state.js.appFailed == old(state.js.appFailed)
                && state.slot == Body(old(state.slot).runner, Dispatching(c, isEndOfBatch))
              case Err(NotAnInteger) =>
                && state.js.appFailed == old(state.js.appFailed)
                && state.slot == Body(old(state.slot).runner, Crashed)
              case Err(_) =>
                && state.slot == (if isEndOfBatch then Free else old(state.slot))
                && state.js.appFailed == (old(state.js.appFailed) || (isEndOfBatch && old(state.slot).runner.Loads()))
    {
      ghost var before := state;
      Take(FlushBatch(batch, isEndOfBatch));
      BeginFlushEffects(before, batch, isEndOfBatch, state);
      BeginFlushMarks(before, batch, isEndOfBatch, state);
      BatchHasEmptinessIfParsed(batch);
      if !batchHadNativeModuleCalls {
        if !batch.HasEmptiness() {
          return Err(NotAnArray);
        }
        batchHadNativeModuleCalls := !batch.IsEmpty();
      }
      calls := ParseMethodCalls(batch);
    }

    /** The loop over the calls of a flush, and the end of the batch. */
    method DispatchCalls(
      ghost r: Runner, calls: seq<MethodCall>, isEndOfBatch: bool, throwsAt: nat, destroysAt: nat, onQueue: bool
    ) returns (threw: bool)
      requires Consistent() && CanRun(state) && state.slot == Body(r, Dispatching(calls, isEndOfBatch))
      requires onQueue == r.Queued? && (onQueue ==> !destroyed)
      modifies this
      ensures Consistent() && run == old(run) + CallSteps(calls, isEndOfBatch, throwsAt, destroysAt, onQueue)
      ensures state.slot == if isEndOfBatch then Free else Body(r, InJs)
      ensures state.flags == if Destroys(calls, isEndOfBatch, throwsAt, destroysAt, onQueue) then DOWN else old(state.flags)
      ensures applicationScriptHasFailure == old(applicationScriptHasFailure)
      ensures state.js.appFailed == (old(state.js.appFailed) || (isEndOfBatch && threw && r.Loads()))
      ensures threw <==> throwsAt < |calls|
      ensures Now() == DownIf(AfterCalls(old(Now()), calls, isEndOfBatch, throwsAt), Destroys(calls, isEndOfBatch, throwsAt, destroysAt, onQueue))
    {
      ghost var goal := run + CallSteps(calls, isEndOfBatch, throwsAt, destroysAt, onQueue);
      ghost var last := AfterMaking(Now(), calls, throwsAt, destroysAt, onQueue);
      MakingComesTo(Now(), calls, throwsAt, destroysAt, onQueue);
      threw := MakeCalls(r, goal, last, calls, isEndOfBatch, throwsAt, destroysAt, onQueue);
      if !threw {
        EndFlush(r, isEndOfBatch, onQueue && |calls| == destroysAt);
      }
    }

    /** The loop: one call after the other, until one throws. */
    method MakeCalls(
      ghost r: Runner, ghost goal: seq<Step>, ghost last: Counts,
      calls: seq<MethodCall>, ghost end: bool, throwsAt: nat, destroysAt: nat, onQueue: bool
    ) returns (threw: bool)
      requires Consistent() && CanRun(state) && state.slot == Body(r, Dispatching(calls, end))
      requires onQueue == r.Queued? && (onQueue ==> !destroyed)
      requires Owes(run, goal, Now(), last, calls, end, throwsAt, destroysAt, onQueue)
      modifies this
      ensures Consistent() && (threw <==> throwsAt < |calls|) && Now() == last
      ensures (if threw then run else run + EndSteps(end, onQueue && destroysAt == |calls|)) == goal
      ensures state.slot == if !threw then Body(r, Dispatching([], end)) else if end then Free else Body(r, InJs)
      ensures state.flags == if onQueue && destroysAt < |calls| && destroysAt <= throwsAt then DOWN else old(state.flags)
      ensures applicationScriptHasFailure == old(applicationScriptHasFailure)
      ensures state.js.appFailed == (old(state.js.appFailed) || (end && threw && r.Loads()))
    {
      var i := 0;
      assert calls[0..] == calls;
      while i < |calls|
        invariant 0 <= i <= |calls| && i <= throwsAt
        invariant Owes(run, goal, Now(), last, calls[i..], end, throwsAt - i, Left(destroysAt, i), onQueue && i <= destroysAt)
        invariant Consistent() && state.slot == Body(r, Dispatching(calls[i..], end))
        invariant state.flags == if onQueue && destroysAt < i then DOWN else old(state.flags)
        invariant applicationScriptHasFailure == old(applicationScriptHasFailure)
        invariant state.js.appFailed == old(state.js.appFailed)
      {
        OwesOneCall(run, goal, Now(), last, calls[i..], end, throwsAt - i, Left(destroysAt, i), onQueue && i <= destroysAt);
        assert calls[i..][1..] == calls[i + 1..];
        threw := MakeCall(r, calls[i], calls[i..], end, onQueue && i == destroysAt, i == throwsAt);
        if threw {
          return;
        }
        i := i + 1;
      }
      assert calls[i..] == [];
      OwesTheEnd(run, goal, Now(), last, end, throwsAt - i, Left(destroysAt, i), onQueue && i <= destroysAt);
      threw := false;
    }

    /** One native call, which may destroy the bridge on its way, and may throw. */
    method MakeCall(ghost r: Runner, call: MethodCall, ghost rest: seq<MethodCall>, ghost end: bool, destroys: bool, throws: bool)
      returns (threw: bool)
      requires Consistent() && rest != [] && rest[0] == call && state.slot == Body(r, Dispatching(rest, end))
      requires destroys ==> r.Queued? && !destroyed && executorAlive
      modifies this
      ensures Consistent() && run == old(run) + CallStep(destroys, throws) && threw == throws
      ensures state.slot == if !throws then Body(r, Dispatching(rest[1..], end)) else if end then Free else Body(r, InJs)
      ensures state.flags == if destroys then DOWN else old(state.flags)
      ensures applicationScriptHasFailure == old(applicationScriptHasFailure)
      ensures state.js.appFailed == (old(state.js.appFailed) || (end && throws && r.Loads()))
      ensures Now() == DownIf(if throws then old(Now()) else old(Now()).(invoked := old(invoked) + [call]), destroys)
    {
      if destroys {
        DestroyInBody();
        Associates(old(run), [SetDestroyed, TeardownInBody], [if throws then DispatchThrow else Dispatch]);
      } else {
        assert [] + [if throws then DispatchThrow else Dispatch] == [if throws then DispatchThrow else Dispatch];
      }
      threw := throws;
      if throws {
        Refuse();
      } else {
        Invoke(call);
      }
    }

    /** One native call throws: at the end of a batch out of the body, otherwise into JavaScript. */
    method Refuse()
      requires Consistent() && MidFlush(state) && state.slot.stage.rest != []
      modifies this
      ensures Consistent() && run == old(run) + [DispatchThrow]
      ensures state.slot == if old(state.slot).stage.end then Free else Body(old(state.slot).runner, InJs)
      ensures state.flags == old(state.flags) && applicationScriptHasFailure == old(applicationScriptHasFailure)
      ensures state.js.appFailed == (old(state.js.appFailed) || (old(state.slot).stage.end && old(state.slot).runner.Loads()))
      ensures Now() == old(Now())
    {
      ghost var before := state;
      Take(DispatchThrow);
      DispatchThrowEffects(before, state);
    }

    /** One native call succeeds. */
    method Invoke(call: MethodCall)
      requires Consistent() && MidFlush(state) && state.slot.stage.rest != [] && state.slot.stage.rest[0] == call
      modifies this
      ensures Consistent() && run == old(run) + [Dispatch]
      ensures state.slot == Body(old(state.slot).runner, old(state.slot).stage.(rest := old(state.slot).stage.rest[1..]))
      ensures state.flags == old(state.flags) && applicationScriptHasFailure == old(applicationScriptHasFailure)
      ensures state.js.appFailed == old(state.js.appFailed)
      ensures Now() == old(Now()).(invoked := old(invoked) + [call])
    {
      ghost var before := state;
      invoked := invoked + [call];
      Take(Dispatch);
      DispatchEffects(before, state);
    }

    /** The end of a flush; at the end of a batch a callback may destroy the bridge before the counter goes down. */
    method EndFlush(ghost r: Runner, isEndOfBatch: bool, destroys: bool)
      requires Consistent() && state.slot == Body(r, Dispatching([], isEndOfBatch))
      requires destroys ==> r.Queued? && !destroyed && executorAlive
      modifies this
      ensures Consistent() && run == old(run) + EndSteps(isEndOfBatch, destroys)
      ensures state.slot == if isEndOfBatch then Free else Body(r, InJs)
      ensures state.flags == if isEndOfBatch && destroys then DOWN else old(state.flags)
      ensures applicationScriptHasFailure == old(applicationScriptHasFailure)
      ensures state.js.appFailed == old(state.js.appFailed)
      ensures Now() == if isEndOfBatch then DownIf(AfterBatch(old(Now())), destroys) else old(Now())
    {
      ghost var before := state;
      Take(FlushDone);
      FlushDoneEffects(before, state);
      if isEndOfBatch {
        if batchHadNativeModuleCalls {
          batchesCompleted := batchesCompleted + 1;
          batchHadNativeModuleCalls := false;
        }
        if destroys {
          DestroyInBody();
        }
        DecrementPendingJSCalls();
        assert run == old(run) + EndSteps(isEndOfBatch, destroys);
      }
    }

    method DecrementPendingJSCalls()
      requires Consistent() && state.slot.Body? && state.slot.stage.Decrementing?
      modifies this
      ensures Consistent() && run == old(run) + [Decrement] && state.slot.Free?
      ensures state.flags == old(state.flags) && applicationScriptHasFailure == old(applicationScriptHasFailure)
      ensures state.js.appFailed == old(state.js.appFailed)
      ensures Now() == old(Now()).(pending := old(pendingJSCalls) - 1)
    {
      ghost var before := state;
      pendingJSCalls := pendingJSCalls - 1;
      Take(Decrement);
      DecrementEffects(before, state);
    }

    /**
     flushQueueImmediate, as often as JavaScript asks for it; what a flush throws, JavaScript receives. A flush that takes
     the executor down, or the process, is the last.
     */
    method FlushImmediately(ghost r: Runner, queues: seq<Outgoing>, onQueue: bool) returns (goesOn: bool)
      requires Consistent() && CanRun(state) && state.slot == Body(r, InJs) && onQueue == r.Queued?
      requires onQueue ==> !destroyed
      modifies this
      ensures Consistent() && run == old(run) + ImmediateSteps(queues, onQueue)
      ensures goesOn <==> NoneStops(queues, onQueue)
      ensures if goesOn then state.slot == old(state.slot) && state.flags == old(state.flags) else Stuck(state)
      ensures applicationScriptHasFailure == old(applicationScriptHasFailure) && state.js.appFailed == old(state.js.appFailed)
      ensures Now() == AfterImmediate(old(Now()), queues, onQueue)
    {
      ghost var goal, last := run + ImmediateSteps(queues, onQueue), AfterImmediate(Now(), queues, onQueue);
      var i := 0;
      assert queues[0..] == queues;
      while i < |queues|
        invariant 0 <= i <= |queues| && forall k :: 0 <= k < i ==> !Stops(queues[k], onQueue)
        invariant Consistent() && state.slot == Body(r, InJs) && state.flags == old(state.flags)
        invariant OwesFlushes(run, goal, Now(), last, queues[i..], onQueue)
        invariant applicationScriptHasFailure == old(applicationScriptHasFailure)
        invariant state.js.appFailed == old(state.js.appFailed)
      {
        assert queues[i..][1..] == queues[i + 1..];
        OwesOneFlush(run, goal, Now(), last, queues[i..], onQueue);
        var how := CallNativeModules(r, queues[i], false, onQueue);
        if how.EndedProcess? || !executorAlive {
          assert Stops(queues[i], onQueue);
          return false;
        }
        i := i + 1;
      }
      assert queues[i..] == [];
      OwesNoFlush(run, goal, Now(), last, onQueue);
      goesOn := true;
    }

    /** The executor's side of a body: JavaScript flushes at will, then throws or returns its last queue. */
    method CallExecutor(r: Runner, js: Script) returns (threw: bool)
      requires Consistent() && CanRun(state) && state.slot == Body(r, InJs) && (r.Queued? ==> !destroyed)
      modifies this
      ensures Consistent() && run == old(run) + ScriptSteps(js, r)
      ensures state.slot.Free? || Stuck(state)
      ensures threw ==> state.slot.Free?
      ensures applicationScriptHasFailure == old(applicationScriptHasFailure)
      ensures state.js.appFailed == (old(state.js.appFailed) || (threw && r.Loads()))
      ensures Now() == AfterBody(old(Now()), r, false, js.(registryThrows := false))
    {
      var goesOn := FlushImmediately(r, js.immediate, r.Queued?);
      ghost var prefix := ImmediateSteps(js.immediate, r.Queued?);
      if goesOn {
        threw := LeaveJs(r, js.result);
        Associates(old(run), prefix, ResultSteps(js.result, r));
      } else {
        threw := false;
        assert prefix + [] == prefix;
      }
    }

    /** JavaScript throws, or returns its last queue, which an uncounted call ignores. */
    method LeaveJs(r: Runner, result: Option<Outgoing>) returns (threw: bool)
      requires Consistent() && CanRun(state) && state.slot == Body(r, InJs) && (r.Queued? ==> !destroyed)
      modifies this
      ensures Consistent() && run == old(run) + ResultSteps(result, r)
      ensures state.slot.Free? || (Stuck(state) && !threw)
      ensures applicationScriptHasFailure == old(applicationScriptHasFailure)
      ensures state.js.appFailed == (old(state.js.appFailed) || (threw && r.Loads()))
      ensures Now() == if result.Some? && !r.Uncounted() then AfterFlush(old(Now()), result.value, true, r.Queued?) else old(Now())
      ensures threw <==> result.None? || (!r.Uncounted() && !FlushEndsProcess(result.value) && !Completes(result.value))
    {
      ghost var before := state;
      if result.None? {
        Take(JsThrow);
        BodyEnds(before, JsThrow, state);
        threw := true;
      } else if r.Uncounted() {
        Take(FinishOther);
        BodyEnds(before, FinishOther, state);
        threw := false;
      } else {
        var how := CallNativeModules(r, result.value, true, r.Queued?);
        threw := how.Threw?;
      }
    }

    /**
     A body: a load hands over its bundle registry, calls on a failed application throw, and a load whose script throws
     latches the failure.
     */
    method RunBody(r: Runner, js: Script)
      requires Valid() && CanRun(state) && state.slot == Body(r, Entered) && (r.Queued? ==> !destroyed)
      modifies this
      ensures Valid() && run == old(run) + BodySteps(r, old(applicationScriptHasFailure), js)
      ensures state.slot.Free? || Stuck(state)
      ensures Now() == AfterBody(old(Now()), r, old(applicationScriptHasFailure), js)
    {
      if r.Loads() && js.registryThrows {
        TakeOpenly(RegistryThrow);
        return;
      }
      TakeOpenly(EnterExecutor);
      if applicationScriptHasFailure && r.CallsJs() {
        return;
      }
      var threw := CallExecutor(r, js);
      if threw && r.Loads() {
        applicationScriptHasFailure := true;
      }
      Associates(old(run), [EnterExecutor], ScriptSteps(js, r));
    }

    /** The queue thread takes the head of the queue and sees it through. */
    method RunHead(js: Script)
      requires Valid() && state.slot.Free? && !queueQuit && queue != []
      modifies this
      ensures Valid() && (state.slot.Free? || Stuck(state))
      ensures run == old(run) + HeadSteps(old(state), js)
      ensures var popped := old(Now()).(queue := old(queue)[1..]);
              Now() == match old(queue)[0]
                       case Teardown => DownIf(popped, true)
                       case Work(t) =>
                         if old(destroyed) then popped else AfterBody(popped, Queued(t), old(applicationScriptHasFailure), js)
      ensures old(queue)[0].Teardown? ==> queueQuit
    {
      ExecutorGoesLast();
      var head := queue[0];
      queue := queue[1..];
      TakeOpenly(Pop);
      match head
      case Teardown =>
        RunTeardown();
        Associates(old(run), [Pop], [TearStep, TearStep, TearStep]);
        assert [Pop] + [TearStep, TearStep, TearStep] == [Pop, TearStep, TearStep, TearStep];
      case Work(t) =>
        if destroyed {
          return;
        }
        RunBody(Queued(t), js);
        Associates(old(run), [Pop], BodySteps(Queued(t), old(applicationScriptHasFailure), js));
    }

    method RunTeardown()
      requires Valid() && state.slot == Tearing(0)
      modifies this
      ensures Valid() && state.slot.Free? && run == old(run) + [TearStep, TearStep, TearStep]
      ensures destroyed == old(destroyed) && !executorAlive && queueQuit && Now() == DownIf(old(Now()), true)
    {
      executorAlive := false;
      TakeOpenly(TearStep);
      queueQuit, queue := true, [];
      TakeOpenly(TearStep);
      TakeOpenly(TearStep);
      assert old(run) + [TearStep] + [TearStep] + [TearStep] == old(run) + [TearStep, TearStep, TearStep];
    }

    /** A synchronous load bypasses the queue and does not look at the destroyed flag. */
    method LoadApplicationSync(js: Script)
      requires Valid() && state.slot.Free? && executorAlive
      modifies this
      ensures Valid() && (state.slot.Free? || Stuck(state))
      ensures run == old(run) + ([StartSync] + BodySteps(SyncLoad, old(applicationScriptHasFailure), js))
      ensures Now() == AfterBody(old(Now()), SyncLoad, false, js)
    {
      TakeOpenly(StartSync);
      RunBody(SyncLoad, js);
      Associates(old(run), [StartSync], BodySteps(SyncLoad, old(applicationScriptHasFailure), js));
    }

    /** destroy(), off the queue thread: raise the flag, then queue the teardown. */
    method Destroy()
      requires Valid() && !destroyed && !Ended(state)
      modifies this
      ensures Valid() && run == old(run) + [SetDestroyed, PostTeardown]
      ensures destroyed && Now() == old(Now()).(queue := old(queue) + [Teardown])
    {
      destroyed := true;
      TakeOpenly(SetDestroyed);
      queue := queue + [Teardown];
      TakeOpenly(PostTeardown);
      TwoMore(old(run), SetDestroyed, PostTeardown);
    }

    /** destroy(), on the queue thread between two bodies: the teardown runs at once, ahead of all that is queued. */
    method DestroyOnQueueThread()
      requires Valid() && !destroyed && state.slot.Free?
      modifies this
      ensures Valid() && state.slot.Free?
      ensures run == old(run) + ([SetDestroyed, TeardownNow] + [TearStep, TearStep, TearStep])
      ensures destroyed && queueQuit && Now() == DownIf(old(Now()), true)
    {
      destroyed := true;
      TakeOpenly(SetDestroyed);
      TakeOpenly(TeardownNow);
      TwoMore(old(run), SetDestroyed, TeardownNow);
      RunTeardown();
      Associates(old(run), [SetDestroyed, TeardownNow], [TearStep, TearStep, TearStep]);
    }

    // ---- what the theorems about runs say of the fields ----

    /** The executor is destroyed only after the flag is up, and the queue quits only after that. */
    lemma {:induction false} ExecutorGoesLast()
      requires Valid()
      ensures !executorAlive ==> destroyed
      ensures queueQuit ==> !executorAlive && Works(queue) == []
    {
      assert IsRun(INIT, run) && state == Exec(INIT, run);
      BridgeTheorems.AlwaysOrdered(run);
    }

    /** The counter field counts the queue, the running body, and what was dropped or failed, less synchronous loads. */
    lemma {:induction false} PendingCallsAddUp()
      requires Valid()
      ensures pendingJSCalls
           == BridgeTheorems.NumCounted(Works(queue)) + BridgeTheorems.NumCounted(BridgeTheorems.Running(state))
              + BridgeTheorems.NumCounted(state.work.dropped) + BridgeTheorems.NumCounted(state.work.failed)
              - state.work.syncDone
    {
      assert IsRun(INIT, run) && state == Exec(INIT, run);
      BridgeTheorems.CounterLaw(run);
    }
  }
}

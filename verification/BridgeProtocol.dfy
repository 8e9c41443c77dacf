/**
 The native-to-JavaScript bridge as interleaved atomic steps.  Any thread submits work; one queue thread
 runs it; `destroy` cancels what is pending.  JavaScript is an oracle: while a task body runs, it may flush
 queues of native calls at will, throw, or return a last queue.
 */
module BridgeProtocol {
  import opened Wrappers
  import opened Dynamic
  import opened MethodCalls

  // ---- state ----

  datatype Kind = Load | Call | Callback | Other

  datatype Task = Task(id: nat, kind: Kind)

  /** The work whose submission increments the pending-call counter. */
  predicate Counted(t: Task) {
    t.kind.Load? || t.kind.Call? || t.kind.Callback?
  }

  /** Whose body uses the executor: a queued task, or a thread that loads an application synchronously. */
  datatype Runner = Queued(task: Task) | SyncLoad {
    predicate Loads() {
      SyncLoad? || task.kind.Load?
    }

    predicate CallsJs() {
      Queued? && (task.kind.Call? || task.kind.Callback?)
    }

    predicate Uncounted() {
      Queued? && task.kind.Other?
    }
  }

  datatype Entry = Work(task: Task) | Teardown

  /** Where a running body stands. */
  datatype Stage =
    | Entered                                        // the destroyed flag was read as false
    | InJs                                           // JavaScript runs
    | Dispatching(rest: seq<MethodCall>, end: bool)  // native calls of a flush are made one by one
    | Decrementing                                   // the batch is complete, the counter is about to go down
    | Crashed                                        // the parser let out an exception that ends the process

  /** What occupies the executor. */
  datatype Slot = Free | Body(runner: Runner, stage: Stage) | Tearing(phase: nat)

  datatype TeardownRequest = NotRequested | FlagSet | Requested

  /** A flush: the calls handed over, and how many of them were dispatched. */
  datatype Flush = Flush(calls: seq<MethodCall>, count: nat)

  datatype Event = Flushed(nonEmpty: bool) | EndOfBatch(completeFired: bool)

  datatype Flags = Flags(
    destroyed: bool,
    alive: bool,                  // the executor has not been destroyed
    quit: bool,                   // the queue has quit
    request: TeardownRequest)

  /** Where submitted tasks are, and where they went. */
  datatype Ledger = Ledger(
    submitting: seq<Task>,        // counted by their threads, about to read the destroyed flag
    posting: seq<Task>,           // the flag was read as false, about to be put on the queue
    queue: seq<Entry>,
    submitted: seq<Task>,
    enqueued: seq<Task>,
    taken: seq<Task>,
    started: seq<Task>,
    done: seq<Task>,
    failed: seq<Task>,
    dropped: seq<Task>,
    syncDone: nat,
    syncFailed: nat,
    registryFailed: nat)          // loads, queued or not, that failed before their script, over the bundle registry

  /** The executor's side: two flags of the bridge and the history of the calls between the two worlds. */
  datatype Exchange = Exchange(
    appFailed: bool,              // an application script failed to load
    batchHad: bool,               // the current batch had native calls
    reached: seq<Runner>,          // got through to the executor
    flushes: seq<Flush>,
    dispatched: seq<MethodCall>,
    trace: seq<Event>)

  datatype State = State(
    pending: int,                 // the callback's pending-call counter
    flags: Flags,
    work: Ledger,
    slot: Slot,
    js: Exchange)

  const INIT := State(
    0,
    Flags(false, true, false, NotRequested),
    Ledger([], [], [], [], [], [], [], [], [], [], 0, 0, 0),
    Free,
    Exchange(false, false, [], [], [], []))

  // ---- steps ----

  datatype Step =
    | Submit(task: Task)      // a thread enters loadApplication, callJSFunction, callJSCallback or an uncounted call
    | ReadFlag(i: nat)        // a submitting thread reads the destroyed flag
    | Enqueue(i: nat)         // a posting thread puts its task on the queue
    | SetDestroyed            // destroy() raises the flag
    | PostTeardown            // destroy(), off the queue thread: the teardown is queued
    | TeardownNow             // destroy(), on the queue thread between bodies: the teardown runs at once
    | TeardownInBody          // destroy(), called by the running body itself: the teardown runs at once
    | Pop                     // the queue thread takes the head
    | TearStep                // the queue thread tears down: destroy executor, quit queue, drop executor
    | StartSync               // loadApplicationSync runs the executor directly
    | RegistryThrow           // a load fails while it hands its bundle registry to the executor
    | EnterExecutor           // the body calls the executor, or throws on a failed application
    | FlushBatch(batch: Dyn, end: bool)  // JavaScript hands over a queue: immediately, or as its last result
    | JsThrow                 // JavaScript throws out of the executor call
    | Dispatch                // the next native call succeeds
    | DispatchThrow           // the next native call throws
    | FlushDone               // no call is left
    | Decrement               // decrementPendingJSCalls
    | FinishOther             // an uncounted body ends

  predicate IsSubmission(step: Step) {
    step.Submit? || step.ReadFlag? || step.Enqueue? || step.SetDestroyed? || step.PostTeardown?
  }

  predicate IsQueueStep(step: Step) {
    step.Pop? || step.TearStep? || step.TeardownNow? || step.TeardownInBody? || step.StartSync?
  }

  predicate CanRun(s: State) {
    s.slot.Body? && s.flags.alive
  }

  /** The native part of a flush asks nothing of the executor: it goes on even after a teardown inside the body. */
  predicate MidFlush(s: State) {
    s.slot.Body? && s.slot.stage.Dispatching?
  }

  /** The process has ended, and with it every thread. */
  predicate Ended(s: State) {
    s.slot.Body? && s.slot.stage.Crashed?
  }

  predicate Enabled(s: State, step: Step) {
    !Ended(s) &&
    match step
    case Submit(_) => true
    case ReadFlag(i) => i < |s.work.submitting|
    case Enqueue(i) => i < |s.work.posting|
    case SetDestroyed => !s.flags.destroyed
    case PostTeardown => s.flags.request.FlagSet?
    case TeardownNow => s.flags.request.FlagSet? && s.slot.Free?
    case TeardownInBody => s.flags.request.FlagSet? && CanRun(s) && s.slot.runner.Queued?
    case Pop => s.slot.Free? && !s.flags.quit && s.work.queue != []
    case TearStep => s.slot.Tearing?
    case StartSync => s.slot.Free? && s.flags.alive
    case RegistryThrow => CanRun(s) && s.slot.stage.Entered? && s.slot.runner.Loads()
    case EnterExecutor => CanRun(s) && s.slot.stage.Entered?
    case FlushBatch(_, end) => CanRun(s) && s.slot.stage.InJs? && (end ==> !s.slot.runner.Uncounted())
    case JsThrow => CanRun(s) && s.slot.stage.InJs?
    case Dispatch => MidFlush(s) && s.slot.stage.rest != []
    case DispatchThrow => MidFlush(s) && s.slot.stage.rest != []
    case FlushDone => MidFlush(s) && s.slot.stage.rest == []
    case Decrement => s.slot.Body? && s.slot.stage.Decrementing?
    case FinishOther => CanRun(s) && s.slot.stage.InJs? && s.slot.runner.Uncounted()
  }

  function RemoveAt<T>(s: seq<T>, i: nat): seq<T>
    requires i < |s|
  {
    s[..i] + s[i + 1..]
  }

  function Works(q: seq<Entry>): seq<Task> {
    if q == [] then []
    else if q[0].Work? then [q[0].task] + Works(q[1..])
    else Works(q[1..])
  }

  function Next(s: State, step: Step): State
    requires Enabled(s, step)
  {
    if IsSubmission(step) then Submission(s, step)
    else if IsQueueStep(step) then QueueStep(s, step)
    else BodyStep(s, step)
  }

  // Steps of submitting and destroying threads

  function Submission(s: State, step: Step): State
    requires Enabled(s, step) && IsSubmission(step)
  {
    var w := s.work;
    match step
    case Submit(t) =>
      s.(pending := s.pending + (if Counted(t) then 1 else 0),
         work := w.(submitting := w.submitting + [t], submitted := w.submitted + [t]))
    case ReadFlag(i) =>
      var t := w.submitting[i];
      var left := w.(submitting := RemoveAt(w.submitting, i));
      s.(work := if s.flags.destroyed then left.(dropped := w.dropped + [t]) else left.(posting := w.posting + [t]))
    case Enqueue(i) =>
      var t := w.posting[i];
      var left := w.(posting := RemoveAt(w.posting, i));
      s.(work := if s.flags.quit then left.(dropped := w.dropped + [t])
                 else left.(queue := w.queue + [Work(t)], enqueued := w.enqueued + [t]))
    case SetDestroyed => s.(flags := s.flags.(destroyed := true, request := FlagSet))
    case PostTeardown => s.(flags := s.flags.(request := Requested), work := w.(queue := w.queue + [Teardown]))
  }

  // Steps that give the executor away, or take it down

  function QuitQueue(w: Ledger): Ledger {
    w.(queue := [], dropped := w.dropped + Works(w.queue))
  }

  function QueueStep(s: State, step: Step): State
    requires Enabled(s, step) && IsQueueStep(step)
  {
    var w := s.work;
    match step
    case Pop =>
      var left := w.(queue := w.queue[1..]);
      if w.queue[0].Teardown? then s.(work := left, slot := Tearing(0))
      else
        var t := w.queue[0].task;
        if s.flags.destroyed then s.(work := left.(taken := w.taken + [t], dropped := w.dropped + [t]))
        else s.(work := left.(taken := w.taken + [t], started := w.started + [t]), slot := Body(Queued(t), Entered))
    case TearStep =>
      if s.slot.phase == 0 then s.(flags := s.flags.(alive := false), slot := Tearing(1))
      else if s.slot.phase == 1 then s.(flags := s.flags.(quit := true), work := QuitQueue(w), slot := Tearing(2))
      else s.(slot := Free)
    case TeardownNow => s.(flags := s.flags.(request := Requested), slot := Tearing(0))
    case TeardownInBody =>
      s.(flags := s.flags.(alive := false, quit := true, request := Requested), work := QuitQueue(w))
    case StartSync => s.(slot := Body(SyncLoad, Entered))
  }

  // Steps of the running body

  /** A body leaves by an exception. */
  function Leave(s: State): State
    requires s.slot.Body?
  {
    var r := s.slot.runner;
    s.(slot := Free,
       work := if r.SyncLoad? then s.work.(syncFailed := s.work.syncFailed + 1)
               else s.work.(failed := s.work.failed + [r.task]))
  }

  /** A body leaves by an exception out of the executor; a failed load latches. */
  function Fail(s: State): State
    requires s.slot.Body?
  {
    Leave(s).(js := s.js.(appFailed := s.js.appFailed || s.slot.runner.Loads()))
  }

  function At(s: State, stage: Stage): State
    requires s.slot.Body?
  {
    s.(slot := Body(s.slot.runner, stage))
  }

  /** An exception during a flush: at the end of a batch it leaves the body, otherwise JavaScript receives it. */
  function FlushThrows(s: State, end: bool): State
    requires s.slot.Body?
  {
    if end then Fail(s) else At(s, InJs)
  }

  /** callNativeModules up to the loop over the calls. */
  function BeginFlush(s: State, batch: Dyn, end: bool): State
    requires s.slot.Body?
  {
    if !s.js.batchHad && !batch.HasEmptiness() then FlushThrows(s, end)
    else
      var nonEmpty := batch.HasEmptiness() && !batch.IsEmpty();
      var s1 := s.(js := s.js.(batchHad := s.js.batchHad || nonEmpty, trace := s.js.trace + [Flushed(nonEmpty)]));
      match Parse(batch)
      case Err(NotAnInteger) => At(s1, Crashed)
      case Err(_) => FlushThrows(s1, end)
      case Ok(calls) => At(s1.(js := s1.js.(flushes := s.js.flushes + [Flush(calls, 0)])), Dispatching(calls, end))
  }

  function CountOne(flushes: seq<Flush>): seq<Flush> {
    if flushes == [] then []
    else
      var last := flushes[|flushes| - 1];
      flushes[..|flushes| - 1] + [last.(count := last.count + 1)]
  }

  function BodyStep(s: State, step: Step): State
    requires Enabled(s, step) && !IsSubmission(step) && !IsQueueStep(step)
  {
    var r := s.slot.runner;
    match step
    case RegistryThrow => Leave(s).(work := Leave(s).work.(registryFailed := s.work.registryFailed + 1))
    case EnterExecutor =>
      if s.js.appFailed && r.CallsJs() then Fail(s)
      else At(s.(js := s.js.(reached := s.js.reached + [r])), InJs)
    case FlushBatch(batch, end) => BeginFlush(s, batch, end)
    case JsThrow => Fail(s)
    case Dispatch =>
      var st := s.slot.stage;
      At(s.(js := s.js.(dispatched := s.js.dispatched + [st.rest[0]], flushes := CountOne(s.js.flushes))),
         Dispatching(st.rest[1..], st.end))
    case DispatchThrow => FlushThrows(s, s.slot.stage.end)
    case FlushDone =>
      if s.slot.stage.end then
        At(s.(js := s.js.(batchHad := false, trace := s.js.trace + [EndOfBatch(s.js.batchHad)])), Decrementing)
      else At(s, InJs)
    case Decrement =>
      s.(pending := s.pending - 1,
         slot := Free,
         work := if r.SyncLoad? then s.work.(syncDone := s.work.syncDone + 1)
                 else s.work.(done := s.work.done + [r.task]))
    case FinishOther => s.(slot := Free, work := s.work.(done := s.work.done + [r.task]))
  }

  /** Calls of the current flush that are still to be made. */
  function Remaining(s: State): seq<MethodCall> {
    if MidFlush(s) then s.slot.stage.rest else []
  }

  // ---- runs ----

  ghost predicate IsRun(s: State, steps: seq<Step>)
    decreases |steps|
  {
    steps == [] || (Enabled(s, steps[0]) && IsRun(Next(s, steps[0]), steps[1..]))
  }

  ghost function Exec(s: State, steps: seq<Step>): State
    requires IsRun(s, steps)
    decreases |steps|
  {
    if steps == [] then s else Exec(Next(s, steps[0]), steps[1..])
  }

  /** Runs compose. */
  lemma {:induction false} RunsCompose(s: State, a: seq<Step>, b: seq<Step>)
    requires IsRun(s, a)
    ensures IsRun(s, a + b) <==> IsRun(Exec(s, a), b)
    ensures IsRun(s, a + b) ==> Exec(s, a + b) == Exec(Exec(s, a), b)
    decreases |a|
  {
    if a == [] {
      assert a + b == b;
    } else {
      RunsCompose(Next(s, a[0]), a[1..], b);
      assert (a + b)[1..] == a[1..] + b;
    }
  }
}

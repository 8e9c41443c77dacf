# The native bridge, modelled and proved in Dafny

The native side of the React Native bridge under `android/ReactCommon`: how calls travel between native code and
JavaScript, how native modules are found and described, how text, traces and profiles are rendered, who owns the
engine's strings and objects, and how bundles are read. Each source file that changes state in place has a class with
that state here, and each of its methods is proved to do what a function on values says; the properties are lemmas
about those functions, over all inputs and all runs. `dafny verify dfyconfig.toml` checks everything.

## What the files hold

- `BridgeProtocol.dfy`: the bridge as interleaved atomic steps of any number of threads, one queue thread and a
  JavaScript oracle. `BridgeTheorems.dfy` and `BridgeBatches.dfy`: what holds in every run; `BridgeProgress.dfy`: what
  the bridge achieves where nobody destroys it and nothing throws. `Bridge.dfy`: the fields of
  Instance, NativeToJsBridge, JsToNativeBridge and the executor in one object, every method of which is a piece of a
  run, so that every theorem about runs holds of the object.
- `MethodCall.dfy`, `ModuleRegistry.dfy`, `RegistryTheorems.dfy`, `Dispatch.dfy`, `ProvidedModules.dfy`,
  `NativeModules.dfy`: batches of calls, the registry of modules with its lazy index and its names known to be unknown,
  and the path from what a module's provider makes, over the description JavaScript gets, to the function that runs.
- `Unicode.dfy`, `UnicodeTheorems.dfy`, `UnicodeWords.dfy`: the conversion from UTF-16 to UTF-8, against decoders by
  RFC 3629 (sections 3 and 4) and RFC 2781 (section 2.2), and its shifts and masks on 16-bit words.
- `Tracing.dfy`: trace messages in a fixed buffer, against the unbounded text.
- `MicroProfiler.dfy`, `ProfiledTime.dfy`, `Profiler.dfy`: nested profiled sections, against the tree of sections and
  against a ledger kept from the events alone.
- `StringHandles.dfy`, `ObjectHandles.dfy`, `NativeModuleCache.dfy`: ownership of strings and objects, and the cache that
  pins its entries.
- `IndexedBundle.dfy`, `BundleRegistry.dfy`, `DeltaBundle.dfy`: bundle files, the registry of bundles, delta patches.
- `Dynamic.dfy`, `Wrappers.dfy`: JSON-like values with their conversions, options and results.

Most lemmas carry `{:induction false}`: every induction in this project is written out.

## Where the code does not do what it says

- The pending-call counter is meant to reach zero when the bridge is idle. `loadApplicationSync` never counts itself but
  its flush counts down, so one synchronous load takes the counter to -1 (`BridgeTheorems.SyncLoadUnderflows`); the law that holds
  has a term for synchronous loads (`BridgeTheorems.CounterLaw`).
- The comment in `NativeToJsBridge.cpp:251-254` says the executor is valid for the duration of a task. On Android a
  `destroy` called from a task body runs the teardown inline
  (`android/ReactAndroid/src/main/jni/react/jni/JMessageQueueThread.cpp:60-83`) and leaves that body without an executor
  (`BridgeTheorems.DestroyInBodyEndsTheExecutor`); the claim holds exactly without that
  (`BridgeTheorems.ExecutorOutlivesBodies`). If that happens in a flush, the flush goes on after the queue has quit:
  calls are made, the batch is completed and the counter goes down (`BridgeTheorems.AtRestAfterQuitExactly`,
  `BridgeTheorems.CountsDownAfterQuit`).
- The parser of batches declares that it throws nothing but `invalid_argument` (`android/ReactCommon/cxxreact/MethodCall.h:30`);
  an id that does not convert throws something else and ends the process (`MethodCalls.EndsTheProcessExactly`,
  `MethodCalls.NullIdIsFatal`, `BridgeTheorems.EndsExactly`).
- A load that fails while its bundle registry is handed over does not set the failure latch
  (`BridgeBatches.RegistryFailureDoesNotLatch`, `BridgeBatches.LatchedExactly`).
- A callback that registers modules into an empty registry: the second lookup misses them and their names become unknown
  (`RegistryTheorems.FindInEmptyRegistryIsLost`). A registration that throws leaves its modules appended
  (`RegistryTheorems.RequiredTooEarly`).
- A report divides by zero calls if it reads a name's time and calls between the first two updates of `addTime` while no
  call of that name has been counted since the last clear, unless children left over from a cleared section make the
  overhead larger than the time; exactly then (`Profilers.ReportRacesExactly`, `Profilers.ReadsRaceExactly`). It cannot if
  the three updates are one (`Profilers.ReportNeverDividesByZero`).
- The delta client keeps the old code of an id that is patched again, until a null entry or a reset
  (`DeltaBundles.LastEntryIsServedExactly`, `DeltaBundles.SecondPatchIsNotServed`).
- From 2^32 octets on the measuring pass wraps and the buffer is too small (`Unicode.MeasureExactness`,
  `Unicode.MeasureCanWrap`, `Unicode.Utf16ToUtf8`).
- Reads of an indexed bundle after one that ran over the end of the file fail, although their module is there
  (`IndexedBundles.AnyOrderIsRandomAccess`, `IndexedBundles.GoodModuleIsLost`): the stream's failure is never cleared.
- A batch whose first call id is close to the largest int runs over it (`MethodCalls.CallIdsAreIntsExactly`).

## Model

| member | source | states |
|---|---|---|
| BridgeTheorems.CounterLaw | android/ReactCommon/cxxreact/Instance.cpp:59-86 | in every run and interleaving the pending-call counter equals the counted work being submitted, queued or running, plus what destroy dropped and what failed, minus completed synchronous loads |
| BridgeTheorems.NothingLost | android/ReactCommon/cxxreact/NativeToJsBridge.cpp:240-257 | every submitted task is in exactly one place - in submission, queued, running, done, failed or dropped - as often as it was submitted |
| BridgeTheorems.IdleExactlyAtZero | android/ReactCommon/cxxreact/Instance.cpp:153-164 | with nothing dropped, failed or loaded synchronously the counter is never negative and is zero exactly when the bridge is idle; in general an idle bridge shows zero exactly if as many tasks were dropped or failed as synchronous loads completed |
| BridgeTheorems.SyncLoadUnderflows | android/ReactCommon/cxxreact/Instance.cpp:69-79 | one synchronous load alone takes the counter to -1, because it is never counted but its flush counts down |
| BridgeTheorems.ExecutorOutlivesBodies | android/ReactCommon/cxxreact/NativeToJsBridge.cpp:228-257 | every task body has a live executor for its whole duration exactly in the runs where no body itself calls destroy, since on the queue thread the teardown runs inline |
| BridgeTheorems.DestroyInBodyEndsTheExecutor | android/ReactAndroid/src/main/jni/react/jni/JMessageQueueThread.cpp:60-83 | and such a body exists: for every task there is a run in which its body calls destroy and is left without an executor |
| BridgeTheorems.NothingStartsAfterDestroy | android/ReactCommon/cxxreact/NativeToJsBridge.cpp:247-249 | once the destroyed flag is up no queued body ever starts, however submissions interleave |
| BridgeTheorems.NothingBeginsAfterQuit | android/ReactCommon/cxxreact/NativeToJsBridge.cpp:228-257 | after the queue has quit nothing is begun any more - no task taken or started, no call to the executor, no flush, no synchronous load - and what is still dispatched is part of the one flush that a body was in when it destroyed the bridge itself |
| BridgeTheorems.AtRestAfterQuitExactly | android/ReactCommon/cxxreact/NativeToJsBridge.cpp:41-64 | once the queue has quit, no continuation of any length does anything exactly if no body is in the native part of a flush with something left to do |
| BridgeTheorems.RestCanBeDispatched | android/ReactCommon/cxxreact/NativeToJsBridge.cpp:51-53 | in that part all the remaining calls can still be made, with the executor gone or not |
| BridgeTheorems.CountsDownAfterQuit | android/ReactCommon/cxxreact/NativeToJsBridge.cpp:54-63 | a body whose last flush destroys the bridge at its end still ends the batch and counts down, after the queue has quit |
| BridgeTheorems.LastFlushIsReached | android/ReactCommon/cxxreact/NativeToJsBridge.cpp:228-238 | and such bodies exist, for every counted task |
| BridgeTheorems.EndsExactly | android/ReactCommon/cxxreact/MethodCall.h:30 | a run ends in the end of the process exactly if its last step hands over a batch with an id that does not convert |
| BridgeTheorems.FatalBatchEndsTheProcess | android/ReactCommon/cxxreact/MethodCall.h:30 | and any such batch does so in the body of any counted task |
| BridgeTheorems.TeardownSettles | android/ReactCommon/cxxreact/NativeToJsBridge.cpp:233-237 | when the queue has quit and no thread is submitting, each submitted task is done, failed, dropped, or the one whose body tore the executor down and still runs; the counter shows exactly the counted ones of the last three minus synchronous loads |
| BridgeTheorems.FirstInFirstOut | android/ReactCommon/cxxreact/NativeToJsBridge.cpp:246-256 | bodies start in the order of enqueueing, none overtaking another; before destroy what was enqueued is what started followed by what is queued |
| BridgeProgress.NothingDroppedBeforeDestroy | android/ReactCommon/cxxreact/NativeToJsBridge.cpp:240-257 | over every run: as long as nobody calls destroy nothing is dropped, and each submitted task is with its thread or was put on the queue |
| BridgeProgress.CalmRunsFailNothing | android/ReactCommon/cxxreact/NativeToJsBridge.cpp:102-196 | over every run in which nothing throws: nothing fails, and the bodies enter the executor in the order in which they are started |
| BridgeProgress.UncountedCallsAlwaysReach | android/ReactCommon/cxxreact/NativeToJsBridge.cpp:190-226 | over every run, failed loads or not, every uncounted call that is started gets through to the executor, in order |
| BridgeProgress.QueueCanBeDrained | android/ReactCommon/cxxreact/NativeToJsBridge.cpp:246-256 | from any state with a free queue thread, no destroy and no failed script, all that is queued can be done, in the order of the queue, and counts down its share |
| BridgeBatches.CallsKeepTheirOrder | android/ReactCommon/cxxreact/NativeToJsBridge.cpp:48-53 | the native calls dispatched so far followed by those still to come are exactly the calls JavaScript handed over, in order, over immediate and final flushes - if and only if no native call threw |
| BridgeBatches.CallsOfEachBatchKeepTheirOrder | android/ReactCommon/cxxreact/NativeToJsBridge.cpp:48-53 | whatever throws, each batch handed over is dispatched up to some point and in its own order |
| BridgeBatches.BatchCompleteFiresExactly | android/ReactCommon/cxxreact/NativeToJsBridge.cpp:46-63 | onBatchComplete fires at an end of batch exactly if a non-empty flush happened since the previous one |
| BridgeBatches.FailedLoadStopsCalls | android/ReactCommon/cxxreact/NativeToJsBridge.cpp:112-156 | once the script of any load has failed, queued or synchronous, no later JavaScript call or callback reaches the executor |
| BridgeBatches.LatchedExactly | android/ReactCommon/cxxreact/NativeToJsBridge.cpp:102-136 | over every run the failure latch is up exactly if more loads, queued or synchronous, have failed than failed over their bundle registry, before the script |
| BridgeBatches.RegistryFailureDoesNotLatch | android/ReactCommon/cxxreact/NativeToJsBridge.cpp:108-118 | a load that fails over its bundle registry leaves the latch down, since the registry is handed over before the try |
| Bridge.Bridge.SubmitTask | android/ReactCommon/cxxreact/Instance.cpp:59-67 | counts, then hands on to the queue: without destroy what was submitted is the new last of the queue, with it nothing is queued; the counter is up by one unless the call is an uncounted one |
| Bridge.Bridge.RunOnExecutorQueue | android/ReactCommon/cxxreact/NativeToJsBridge.cpp:240-257 | after the flag check what was submitted is the new last of the queue, unless destroy was called or the queue has quit |
| Bridge.Bridge.CallNativeModules | android/ReactCommon/cxxreact/NativeToJsBridge.cpp:41-64 | the native calls made are those of the queue up to the one that throws; at the end of a batch without an exception the counter goes down by one and the batch is signalled if it had calls; whichever call, or the callback, destroys the bridge |
| Bridge.Bridge.FlushImmediately | android/ReactCommon/cxxreact/JSCExecutor.cpp:701-704 | the calls of one queue after the other are made, none completing the batch; a flush that destroys the executor, or the process, is the last |
| Bridge.Bridge.CallExecutor | android/ReactCommon/cxxreact/JSCExecutor.cpp:599-643 | immediate flushes, then an exception or the final flush of the returned queue; says whether the call threw |
| Bridge.Bridge.RunBody | android/ReactCommon/cxxreact/NativeToJsBridge.cpp:102-196 | what the body comes to in counter, signals, batch flag and native calls: nothing for a call on a failed application or a load failing over its registry, else all its flushes; the failure latch is set by a script that throws |
| Bridge.Bridge.RunHead | android/ReactCommon/cxxreact/NativeToJsBridge.cpp:246-256 | the head of the queue is discarded after destroy and otherwise comes to what its body comes to; that the executor is alive then is proved, not asked for |
| Bridge.Bridge.RunTeardown | android/ReactCommon/cxxreact/NativeToJsBridge.cpp:233-237 | destroys the executor, then quits the queue: nothing is left on it |
| Bridge.Bridge.LoadApplicationSync | android/ReactCommon/cxxreact/NativeToJsBridge.cpp:122-136 | a synchronous load runs the executor without being counted or queued, also after destroy has raised the flag, as long as the executor is there |
| Bridge.Bridge.Destroy | android/ReactCommon/cxxreact/NativeToJsBridge.cpp:228-238 | off the queue thread: raises the flag before the teardown is queued |
| Bridge.Bridge.DestroyOnQueueThread | android/ReactCommon/cxxreact/NativeToJsBridge.cpp:228-238 | on the queue thread between two bodies: the teardown runs at once, ahead of everything queued |
| Bridge.Bridge.DestroyInBody | android/ReactCommon/cxxreact/NativeToJsBridge.cpp:228-238 | called by a native call or by the callback at the end of a batch: the executor and the queue are gone and the body is where it was; the methods that call it see the rest of the flush through |
| Bridge.Bridge.MakeCall | android/ReactCommon/cxxreact/NativeToJsBridge.cpp:51-53 | one native call, which may destroy the bridge on its way, and may throw |
| Bridge.Bridge.EndFlush | android/ReactCommon/cxxreact/NativeToJsBridge.cpp:54-63 | signals the completed batch and counts down, also if the callback destroys the bridge in between |
| Bridge.Bridge.ExecutorGoesLast | android/ReactCommon/cxxreact/NativeToJsBridge.cpp:228-238 | of the fields at any time: the executor is gone only after the flag is up, and the queue has quit only after that, with no work on it |
| Bridge.Bridge.PendingCallsAddUp | android/ReactCommon/cxxreact/Instance.cpp:59-86 | the counter law of the counter field: what is counted on the queue, in the running body, dropped or failed, minus completed synchronous loads |
| MethodCalls.ParseMethodCalls | android/ReactCommon/cxxreact/MethodCall.cpp:21-77 | the loop computes the specification Parse |
| MethodCalls.AcceptedExactlyWhenWellShaped | android/ReactCommon/cxxreact/MethodCall.cpp:26-64 | a batch is accepted exactly if its three columns are arrays of one length, all arguments are arrays, all ids convert and the call id is a number; nothing of any other batch is dispatched |
| MethodCalls.EndsTheProcessExactly | android/ReactCommon/cxxreact/MethodCall.cpp:21-74 | what is not accepted throws the one exception the parser declares, except exactly where the call id, or an id in the first row that is not in order, does not convert: that throws another out of it, which ends the process |
| MethodCalls.ParseInvertsEncode | android/ReactCommon/cxxreact/MethodCall.cpp:59-76 | parsing the columnar encoding of any list of calls gives the calls back in order, with running call ids that stay at or stop at -1 |
| Dynamic.ConvertsExactly | android/ReactCommon/cxxreact/MethodCall.cpp:52-68 | which JSON values convert to which integers, and which count as numbers |
| Dynamic.NarrowingKeepsLowBits | android/ReactCommon/cxxreact/MethodCall.cpp:56-68 | narrowing an id to a machine int changes it by a multiple of 2^32, and not at all if it fits |
| MethodCalls.CallIdsAreIntsExactly | android/ReactCommon/cxxreact/MethodCall.cpp:50-76 | the running call ids for n calls stay in the int that the code keeps them in exactly if the first is negative or leaves room for n more |
| RegistryTheorems.RegisterKeepsSound | android/ReactCommon/cxxreact/ModuleRegistry.cpp:43-68 | registerModules throws exactly if it brings a name that was required before, and keeps the name index and the unknown names right exactly if it does not throw |
| RegistryTheorems.LookupKeepsSound | android/ReactCommon/cxxreact/ModuleRegistry.cpp:81-102 | a lookup keeps the registry right exactly unless its callback throws or fills a registry that was empty |
| RegistryTheorems.LookupIsRight | android/ReactCommon/cxxreact/ModuleRegistry.cpp:84-102 | a lookup in a sound registry finds the last module bearing the normalized name, or answers "not there" with none bearing it, exactly unless its callback is asked and throws or loses its find |
| RegistryTheorems.StepIsSoundExactlyWhenSafe | android/ReactCommon/cxxreact/ModuleRegistry.cpp:36-102 | one operation of any kind keeps the registry right exactly if it is none of the two failing events |
| RegistryTheorems.SoundThroughoutExactly | android/ReactCommon/cxxreact/ModuleRegistry.cpp:36-102 | over every run: the index is empty or maps every normalized name to the last bearer, and unknown names are unregistered, throughout exactly if no registration throws and no find is lost |
| RegistryTheorems.SoundFromTheStartExactly | android/ReactCommon/cxxreact/ModuleRegistry.cpp:33-34 | the same for every run of a newly built registry |
| RegistryTheorems.FindInEmptyRegistryIsLost | android/ReactCommon/cxxreact/ModuleRegistry.cpp:85-99 | a callback that fills an empty registry: the module is there, yet the lookup misses it and brands its name unknown |
| RegistryTheorems.RequiredTooEarly | android/ReactCommon/cxxreact/ModuleRegistry.cpp:53-60 | a module required before it is registered, with no callback to bring it: its registration throws, and yet it stays |
| NativeModules.NativeModuleRegistry.UpdateModuleNamesFromIndex | android/ReactCommon/cxxreact/ModuleRegistry.cpp:36-41 | the loop enters every name from an index on, later modules overwriting earlier ones |
| NativeModules.NativeModuleRegistry.RegisterModules | android/ReactCommon/cxxreact/ModuleRegistry.cpp:43-68 | appends the modules also when it throws, and updates the index up to that point |
| NativeModules.NativeModuleRegistry.ModuleNames | android/ReactCommon/cxxreact/ModuleRegistry.cpp:70-79 | returns the normalized names in order and rebuilds the index |
| NativeModules.NativeModuleRegistry.FindModule | android/ReactCommon/cxxreact/ModuleRegistry.cpp:84-102 | the first half of getConfig, callback included, on the mutable registry |
| NativeModules.NativeModuleRegistry.GetConfig | android/ReactCommon/cxxreact/ModuleRegistry.cpp:81-150 | the whole of getConfig on the mutable registry and its modules |
| NativeModules.NativeModuleRegistry.PositionMethods | android/ReactCommon/cxxreact/ModuleRegistry.cpp:119-141 | the loop over the methods yields the optional name, promise and sync columns |
| NativeModules.NativeModuleRegistry.CallNativeMethod | android/ReactCommon/cxxreact/ModuleRegistry.cpp:152-158 | an accepted call is posted to its module and to no other; a refused one changes nothing |
| NativeModules.NativeModuleRegistry.CallSerializableNativeHook | android/ReactCommon/cxxreact/ModuleRegistry.cpp:160-166 | the function of the addressed method runs on all the arguments given, or the error says why not |
| NativeModules.CxxNativeModule.LazyInit | android/ReactCommon/cxxreact/CxxNativeModule.cpp:175-187 | asks a provider that was not asked yet, once, and takes over the methods of what it makes; changes nothing otherwise |
| NativeModules.CxxNativeModule.GetMethods | android/ReactCommon/cxxreact/CxxNativeModule.cpp:57-65 | lists every method in order, after initialising, with its name and whether it is synchronous or gives a promise |
| NativeModules.CxxNativeModule.GetConstants | android/ReactCommon/cxxreact/CxxNativeModule.cpp:67-79 | the constants of the module, or null without one |
| NativeModules.CxxNativeModule.Call | android/ReactCommon/cxxreact/CxxNativeModule.cpp:81-156 | takes a call exactly if the method is there and asynchronous, the parameters are an array with room for its callbacks, and these are numbers; posts the function with its own arguments and callback ids, or refuses with the first error that applies |
| NativeModules.CxxNativeModule.CallSerializableNativeHook | android/ReactCommon/cxxreact/CxxNativeModule.cpp:158-173 | runs the synchronous function of a method exactly if it is there and has one, on the arguments as they are |
| Dispatch.ConfigReadsBack | android/ReactCommon/cxxreact/ModuleRegistry.cpp:107-149 | the positional configuration loses nothing: name, constants, and every method's name and kind come back in order, for every module |
| Dispatch.RunExtends | android/ReactCommon/cxxreact/ModuleRegistry.cpp:43-68 | whatever is registered or thrown later, modules keep their index and initialised modules their methods |
| Dispatch.ConfigDescribesItsModule | android/ReactCommon/cxxreact/ModuleRegistry.cpp:102-149 | a returned configuration describes the initialised module at the returned index, which bears the asked name |
| Dispatch.CallsReachTheDescribedMethod | android/ReactCommon/cxxreact/ModuleRegistry.cpp:43-158 | end to end: if getConfig ever returned index i and listed a method at position j, then after any later operations a call parsed from a batch with these ids reaches that method of a module with that name, and is refused as synchronous exactly if j is among the sync ids |
| Dispatch.HooksReachTheDescribedMethod | android/ReactCommon/cxxreact/ModuleRegistry.cpp:160-166 | the synchronous hook reaches the same method with the arguments given, and takes it exactly if j is among the sync ids |
| Dispatch.AcceptedExactly | android/ReactCommon/cxxreact/CxxNativeModule.cpp:81-113 | which calls the asynchronous entry point takes, said of the method and the parameters alone; an accepted call keeps its own arguments in order and cuts its callback ids off the end |
| Dispatch.RefusedExactly | android/ReactCommon/cxxreact/CxxNativeModule.cpp:81-111 | which error each other call gets |
| Dispatch.HookedExactly | android/ReactCommon/cxxreact/CxxNativeModule.cpp:158-173 | which calls the synchronous entry point takes, and the error of each other |
| ProvidedModules.ModulesAreAsProvided | android/ReactCommon/cxxreact/CxxNativeModule.cpp:175-187 | whatever operations follow, a module is as it was given or has exactly the constants and methods that its provider makes |
| ProvidedModules.ConfigTellsTheDefinition | android/ReactCommon/cxxreact/ModuleRegistry.cpp:102-149 | after any operations a lookup that finds a module tells JavaScript the constants, method names and kinds that its provider makes, and gives no configuration exactly if it makes none of them |
| ProvidedModules.NothingMadeTellsNothing | android/ReactCommon/cxxreact/CxxNativeModule.cpp:67-72 | a provider that makes nothing leaves its module without configuration and methods |
| ProvidedModules.CallsReachTheProvidedMethod | android/ReactCommon/cxxreact/CxxNativeModule.cpp:81-156 | end to end: a call encoded from a configuration reaches the method of the provider's definition at that position, is taken exactly if that method accepts the arguments, and carries its function, these arguments and its callback ids |
| ProvidedModules.HooksReachTheProvidedMethod | android/ReactCommon/cxxreact/ModuleRegistry.cpp:160-166 | and a synchronous call runs that method's synchronous function, if it has one, on the arguments given |
| ProvidedModules.DescriptorsList | android/ReactCommon/cxxreact/CxxModule.h:74-77 | a method is synchronous without an asynchronous function, a promise with one and two callbacks, and asynchronous otherwise |
| ProvidedModules.PrefixesGo | android/ReactCommon/cxxreact/ModuleRegistry.cpp:18-29 | a name loses the prefix RCT, or else RK |
| ProvidedModules.OtherNamesStay | android/ReactCommon/cxxreact/ModuleRegistry.cpp:18-29 | and stays as it is exactly if it has neither |
| Dispatch.EntryPointsExclude | android/ReactCommon/cxxreact/CxxModule.h:74-77 | a method with exactly one function is taken by exactly one of the two entry points, the one its type names |
| Unicode.Measure | android/ReactCommon/jschelpers/Unicode.cpp:23-49 | the measuring loop returns the number of octets of the conversion, in a 32-bit word |
| Unicode.LengthBounds | android/ReactCommon/jschelpers/Unicode.cpp:23-49 | the length lies between n and 3n for n units and is the length of the conversion |
| Unicode.MeasureExactness | android/ReactCommon/jschelpers/Unicode.cpp:28-48 | the 32-bit accumulator is exact if and only if the text needs less than 2^32 octets, which 3n below 2^32 guarantees |
| Unicode.WriteSymbol | android/ReactCommon/jschelpers/Unicode.cpp:63-83 | one turn of the writing loop writes exactly the octets of the next symbol, in place |
| Unicode.WritingPass | android/ReactCommon/jschelpers/Unicode.cpp:59-84 | the writing loop fills a buffer of the right size exactly with the conversion, and would write past a buffer exactly if that is smaller than the conversion |
| Unicode.Utf16ToUtf8 | android/ReactCommon/jschelpers/Unicode.cpp:53-87 | measure, allocate and write together compute the conversion, and would overrun the buffer exactly from 2^32 octets on; null gives the empty text |
| Unicode.MeasureCanWrap | android/ReactCommon/jschelpers/Unicode.cpp:28-48 | there are such texts: 2^32 plain letters measure as zero |
| UnicodeWords.OneOctet | android/ReactCommon/jschelpers/Unicode.cpp:64-65 | a plain letter is its own octet, as a 16-bit word and as a number |
| UnicodeWords.TwoOctets | android/ReactCommon/jschelpers/Unicode.cpp:66-68 | the shift, mask and tags of the two-octet form have the values of the octets in the model, for every such word |
| UnicodeWords.ThreeOctets | android/ReactCommon/jschelpers/Unicode.cpp:79-82 | the same for the three-octet form |
| UnicodeWords.FourOctets | android/ReactCommon/jschelpers/Unicode.cpp:69-78 | the same for the four-octet form of any two words, surrogate pairs among them |
| UnicodeTheorems.ConversionIsLossless | android/ReactCommon/jschelpers/Unicode.cpp:53-87 | every sequence of 16-bit units, well-formed or not, is recovered exactly by a decoder of the output |
| UnicodeTheorems.ConversionIsInjective | android/ReactCommon/jschelpers/Unicode.cpp:53-87 | different texts have different conversions |
| UnicodeTheorems.ScalarValuesPreserved | android/ReactCommon/jschelpers/Unicode.cpp:62-84 | the output is well-formed UTF-8 (section 4 of RFC 3629) exactly if the input is well-formed UTF-16 (section 2.2 of RFC 2781), and then with the same scalar values |
| UnicodeTheorems.ConcatenationUnlessPairSplit | android/ReactCommon/jschelpers/Unicode.cpp:62-84 | converting a concatenation is concatenating the conversions, if and only if the cut does not split a surrogate pair |
| Tracing.CopyTruncatedAsciiChars | android/ReactCommon/cxxreact/JSCTracing.cpp:32-54 | writes the low octets of the first characters that fit both limits, and nothing else in the buffer |
| Tracing.CopyArgsToBuffer | android/ReactCommon/cxxreact/JSCTracing.cpp:56-84 | leaves in the buffer exactly the beginning, as long as fits, of the ideal text of key and value pairs, for any number and length of arguments |
| Tracing.BeginSection | android/ReactCommon/cxxreact/JSCTracing.cpp:107-123 | the message sent is the ideal header and arguments, cut one octet below the buffer size |
| Tracing.EndSection | android/ReactCommon/cxxreact/JSCTracing.cpp:149-163 | the same for the end of a section with further arguments |
| Tracing.BeginOrEndAsync | android/ReactCommon/cxxreact/JSCTracing.cpp:189-227 | the same for asynchronous sections and flows |
| Tracing.NativeTraceBeginSection | android/ReactCommon/cxxreact/JSCTracing.cpp:86-124 | too few arguments and a tag that is not traced send nothing; otherwise the ideal message of the name and the arguments after it, cut |
| Tracing.NativeTraceEndSection | android/ReactCommon/cxxreact/JSCTracing.cpp:126-166 | the same, and the tag alone ends the section without a message |
| Tracing.NativeTraceAsync | android/ReactCommon/cxxreact/JSCTracing.cpp:168-228 | the same for asynchronous sections and flows, from three arguments on |
| Tracing.ArgumentsReadBack | android/ReactCommon/cxxreact/JSCTracing.cpp:56-84 | keys without an equals sign and values without a semicolon are read back from the ideal text pair by pair |
| Tracing.BeginText | android/ReactCommon/cxxreact/JSCTracing.cpp:107-146 | the text of a begun and of an ended section, letter by letter: B or E, bars, process id, and the name cut to its limit |
| Tracing.AsyncText | android/ReactCommon/cxxreact/JSCTracing.cpp:189-220 | that of asynchronous sections and flows: S and F, s and f, and the mark that only the start of a section has |
| Tracing.ArgumentsText | android/ReactCommon/cxxreact/JSCTracing.cpp:56-84 | one more pair adds a bar or a semicolon, the key, an equals sign and the value; a key without a value adds nothing |
| MicroProfiler.TotalsMatchTheTree | android/ReactCommon/microprofiler/MicroProfiler.cpp:78-113 | under any switching and clearing, a name's calls, time and child count are those of its counted sections in the tree of sections |
| MicroProfiler.ClosingNeverUnderflows | android/ReactCommon/microprofiler/MicroProfiler.cpp:88-95 | the subtraction of counter values at a close never goes below zero, whatever happened while the section was open |
| MicroProfiler.ChildrenAreStrictDescendants | android/ReactCommon/microprofiler/MicroProfiler.cpp:78-113 | with profiling on throughout, a name's child count is the number of strict descendants of all its closed sections |
| MicroProfiler.TreeIsTheNesting | android/ReactCommon/microprofiler/MicroProfiler.cpp:78-95 | the tree has exactly the opening and closing order of the run |
| ProfiledTime.TotalsAreTold | android/ReactCommon/microprofiler/MicroProfiler.cpp:78-113 | however profiling is switched and cleared: a name's time is the sum, in a 64-bit word, of closing reading less opening reading over the sections that were opened and closed with profiling on, its calls their number, and its children the profiled sections opened inside them, all told from the events alone |
| ProfiledTime.DifferencesFit | android/ReactCommon/microprofiler/MicroProfiler.cpp:61-63 | the difference of two readings added to the first gives the second, also where the clock was set back |
| MicroProfiler.ClosingCharges | android/ReactCommon/microprofiler/MicroProfiler.cpp:88-95 | what one closing section adds to the totals, and that it changes no other |
| Profilers.ReportNeverDividesByZero | android/ReactCommon/microprofiler/MicroProfiler.cpp:122-134 | a name with time has calls, so the average is defined, after any run |
| Profilers.EntriesAccount | android/ReactCommon/microprofiler/MicroProfiler.cpp:122-134 | an entry is skipped exactly for a name without time; any other accounts for it with the overhead of its calls and of its children, in a 64-bit word |
| Profilers.ReportRacesExactly | android/ReactCommon/microprofiler/MicroProfiler.cpp:109-134 | with the three updates of addTime taken one by one, a report in between divides by zero exactly if the last update was the first one of a closing section with a nonzero time, no call was counted since the last clear, and the time covers the overhead of the children that a cleared section left behind |
| Profilers.ReadsRaceExactly | android/ReactCommon/microprofiler/MicroProfiler.cpp:109-134 | and with the four reads of the report one by one as well, under any interleaving: it divides by zero exactly if in addition no update came between its first read of the time and its read of the calls, with the children as read last |
| Profilers.ReportCanRace | android/ReactCommon/microprofiler/MicroProfiler.cpp:109-134 | and that happens, whatever the measured overheads: a first update of 5ns is enough |
| Profilers.RaceMayMisreportInstead | android/ReactCommon/microprofiler/MicroProfiler.cpp:109-134 | a section cut by a clear can leave children behind that turn the division into the error line |
| Profilers.Profiler.OpenSection | android/ReactCommon/microprofiler/MicroProfiler.cpp:78-87 | records the flag, the name and the counter before it moves |
| Profilers.Profiler.AddTime | android/ReactCommon/microprofiler/MicroProfiler.cpp:109-113 | adds to the three totals of one name and no other |
| Profilers.Profiler.CloseSection | android/ReactCommon/microprofiler/MicroProfiler.cpp:88-95 | charges the closing section what the tree says |
| Profilers.Profiler.ClearProfiling | android/ReactCommon/microprofiler/MicroProfiler.cpp:141-150 | refused while profiling; otherwise every total is zero |
| Profilers.Profiler.StartProfiling | android/ReactCommon/microprofiler/MicroProfiler.cpp:174-185 | refused while profiling; otherwise measures both overheads, clears what the measuring left, and profiling is on |
| Profilers.Profiler.CalculateProfileSectionOverhead | android/ReactCommon/microprofiler/MicroProfiler.cpp:162-172 | opens and closes a million sections of the first name, and charges each with its share of the time |
| Profilers.Profiler.StopProfiling | android/ReactCommon/microprofiler/MicroProfiler.cpp:187-198 | refused unless profiling; otherwise reports what was collected and then clears it |
| Profilers.Profiler.PrintReport | android/ReactCommon/microprofiler/MicroProfiler.cpp:122-138 | one line for each name with time, in order; corrected time and overhead, the latter in a 64-bit word, add up to the total and the average is rounded down |
| StringHandles.RetainsMatchOwners | android/ReactCommon/jschelpers/Value.h:37-67 | over any run of making, ref, adopt, copy, move, move-assignment (to itself too) and destruction, each string is retained once for each outside owner and live wrapper |
| StringHandles.NoDanglingNoLeak | android/ReactCommon/jschelpers/Value.h:51-67 | so no live wrapper holds a freed string, and with no holders only outside owners' retains are left |
| StringHandles.MakingHolds | android/ReactCommon/jschelpers/Value.h:129-146 | which string a new wrapper holds, and where its retain comes from |
| StringHandles.CopyingHolds | android/ReactCommon/jschelpers/Value.h:43-49 | a copy holds the same string with a retain of its own |
| StringHandles.MovingHolds | android/ReactCommon/jschelpers/Value.h:37-41 | a moved wrapper is empty and the new one holds its string; no count changes |
| StringHandles.AssigningHolds | android/ReactCommon/jschelpers/Value.h:57-67 | assignment releases the old string, once, and takes over the other's; a wrapper assigned to itself ends up empty |
| StringHandles.DestroyingHolds | android/ReactCommon/jschelpers/Value.h:51-55 | destruction releases the string held, once |
| StringHandles.String.Wrap | android/ReactCommon/jschelpers/Value.h:129-146 | holds the string given; ref adds a retain, adopt takes an outside owner's over |
| StringHandles.String.Copy | android/ReactCommon/jschelpers/Value.h:43-49 | one more holder, one more retain |
| StringHandles.String.Move | android/ReactCommon/jschelpers/Value.h:37-41 | the retain moves with the string |
| StringHandles.String.MoveAssign | android/ReactCommon/jschelpers/Value.h:57-67 | lets go of the old string and takes the other's; self-assignment ends empty and balanced |
| StringHandles.String.Destroy | android/ReactCommon/jschelpers/Value.h:51-55 | releases what is held |
| ObjectHandles.ProtectsMatchWrappers | android/ReactCommon/jschelpers/Value.h:155-187 | over any run of making, moving, swapping assignment, protecting and destruction, each object is protected once for each live protected wrapper of it |
| ObjectHandles.ProtectionIsThereAndThenGone | android/ReactCommon/jschelpers/Value.h:172-176 | a protected wrapper's object is protected as long as the wrapper lives, and after the last one nothing stays protected |
| ObjectHandles.ProtectingPins | android/ReactCommon/jschelpers/Value.h:211-216 | a protected wrapper is protecting, its object is pinned, one protection more unless it was protecting before; null changes nothing and no other wrapper or count does either |
| ObjectHandles.MovingMoves | android/ReactCommon/jschelpers/Value.h:164-170 | a moved object and its protection are where they were moved to, and only there |
| ObjectHandles.SwappingSwaps | android/ReactCommon/jschelpers/Value.h:178-183 | two wrappers exchange object and protection; no count changes |
| ObjectHandles.DestroyingReleases | android/ReactCommon/jschelpers/Value.h:172-176 | exactly the wrapper's own protection is taken back |
| ObjectHandles.Object.Move | android/ReactCommon/jschelpers/Value.h:164-170 | the protection moves with the object |
| ObjectHandles.Object.SwapAssign | android/ReactCommon/jschelpers/Value.h:178-183 | exchanges objects and protections, harmlessly with itself |
| ObjectHandles.Object.MakeProtected | android/ReactCommon/jschelpers/Value.h:211-216 | afterwards the object is pinned, with one protection more exactly if this wrapper was not protecting before; null changes nothing |
| ObjectHandles.Object.Destroy | android/ReactCommon/jschelpers/Value.h:172-176 | takes back its own protection only |
| NativeModuleCache.ProtectsMatchEntries | android/ReactCommon/cxxreact/JSCNativeModules.cpp:19-74 | the cache's protections are one for each entry and one for the generator function, at any time and however deep module creation re-enters the cache |
| NativeModuleCache.GetKeeps | android/ReactCommon/cxxreact/JSCNativeModules.cpp:19-42 | a lookup, with all it re-enters, changes and drops no entry, and an object it finds is the one the cache holds for the name |
| NativeModuleCache.AnsweredExactly | android/ReactCommon/cxxreact/JSCNativeModules.cpp:19-74 | a lookup finds an object exactly if it is cached, or generator, configuration and object come without an exception; it finds none exactly if there is no configuration |
| NativeModuleCache.LookupLeaves | android/ReactCommon/cxxreact/JSCNativeModules.cpp:19-74 | what the cache is left with: all that was looked up on the way, the generator, and the new object under its name unless the name got one on the way |
| NativeModuleCache.FoundAgain | android/ReactCommon/cxxreact/JSCNativeModules.cpp:26-42 | an object that was found is found again after any further lookups, until a reset, which forgets all |
| NativeModuleCache.JSCNativeModules.GetModule | android/ReactCommon/cxxreact/JSCNativeModules.cpp:19-42 | the method computes the specification of a lookup, losing against an entry made meanwhile |
| NativeModuleCache.JSCNativeModules.CreateModule | android/ReactCommon/cxxreact/JSCNativeModules.cpp:49-74 | fetches the generator at most when it is missing, and can find nothing or throw at each point |
| NativeModuleCache.JSCNativeModules.Reset | android/ReactCommon/cxxreact/JSCNativeModules.cpp:44-47 | lets go of everything: no protection is left |
| IndexedBundles.FileIsLaidOut | android/ReactCommon/cxxreact/JSIndexedRAMBundle.cpp:29-49 | a file written as header, table, startup code and NUL-terminated modules has each part where the reader looks for it |
| IndexedBundles.LaidOutFileReadsBack | android/ReactCommon/cxxreact/JSIndexedRAMBundle.cpp:63-76 | from any file laid out so the original startup code and every original module come back, and every other id is rejected |
| IndexedBundles.WrittenFileReadsBack | android/ReactCommon/cxxreact/JSIndexedRAMBundle.cpp:29-76 | the round trip of writing and reading, for all startup codes and modules that fit 32-bit offsets |
| IndexedBundles.AnyOrderIsRandomAccess | android/ReactCommon/cxxreact/JSIndexedRAMBundle.cpp:88-98 | a read in any order of reads answers as random access does exactly if no earlier one ran over the end of the file, or the id is one that is rejected without reading |
| IndexedBundles.GoodModuleIsLost | android/ReactCommon/cxxreact/JSIndexedRAMBundle.cpp:78-98 | one read over the end makes every module that is there unreadable |
| IndexedBundles.SuchFilesExist | android/ReactCommon/cxxreact/JSIndexedRAMBundle.cpp:63-76 | a complete file of two modules in which one is longer than the file and the other is there |
| IndexedBundles.JSIndexedRAMBundle.Open | android/ReactCommon/cxxreact/JSIndexedRAMBundle.cpp:19-49 | succeeds exactly on complete files, with the table and startup code of the file, and says what is wrong with any other |
| IndexedBundles.JSIndexedRAMBundle.ReadBundle | android/ReactCommon/cxxreact/JSIndexedRAMBundle.cpp:78-86 | reads on from the stream position, or fails the stream; a stream that has failed fails again |
| IndexedBundles.JSIndexedRAMBundle.GetModuleCode | android/ReactCommon/cxxreact/JSIndexedRAMBundle.cpp:63-76 | the moving stream gives what random access gives, or an error once it has failed |
| IndexedBundles.JSIndexedRAMBundle.GetModule | android/ReactCommon/cxxreact/JSIndexedRAMBundle.cpp:51-56 | the code under the name of its decimal id |
| IndexedBundles.JSIndexedRAMBundle.GetStartupCode | android/ReactCommon/cxxreact/JSIndexedRAMBundle.cpp:58-61 | hands the startup code out once; asking again fails the check |
| BundleRegistry.AnswersAsIfLoadedAfresh | android/ReactCommon/cxxreact/RAMBundleRegistry.cpp:37-74 | after any registrations and lookups, a lookup answers as if the first registered path were loaded afresh; each bundle is built at most once and the main bundle is never replaced |
| BundleRegistry.DirectExactly | android/ReactCommon/cxxreact/RAMBundleRegistry.cpp:42-74 | what a lookup answers or which error it ends in, for main and other bundles |
| BundleRegistry.FirstPathIsFirst | android/ReactCommon/cxxreact/RAMBundleRegistry.cpp:37-40 | the path that counts is the first one registered |
| BundleRegistry.BuiltOnceAndKept | android/ReactCommon/cxxreact/RAMBundleRegistry.cpp:42-60 | a lookup builds its bundle exactly if it is not there and can be loaded, and then keeps it |
| BundleRegistry.SourceNamesDiffer | android/ReactCommon/cxxreact/RAMBundleRegistry.cpp:62-69 | different modules, in the same bundle or in different ones, never get the same source name |
| BundleRegistry.LookupsWithOneNameAreOfOneModule | android/ReactCommon/cxxreact/RAMBundleRegistry.cpp:42-70 | two successful lookups, each after any history, that carry the same source name looked up the same module of the same bundle |
| BundleRegistry.LookupReadsTheFile | android/ReactCommon/cxxreact/RAMBundleRegistry.cpp:42-70 | end to end over indexed bundle files: after any history a lookup serves the code at the entry of the module in the file first registered for the bundle, under the names of both ids, or the error that applies |
| BundleRegistry.RAMBundleRegistry.RegisterBundle | android/ReactCommon/cxxreact/RAMBundleRegistry.cpp:37-40 | the first path of a bundle stays |
| BundleRegistry.RAMBundleRegistry.GetModule | android/ReactCommon/cxxreact/RAMBundleRegistry.cpp:42-70 | the caching method answers what direct loading answers after the same history |
| BundleRegistry.RAMBundleRegistry.constructor | android/ReactCommon/cxxreact/RAMBundleRegistry.cpp:30-35 | starts with the main bundle and an empty history |
| DeltaBundles.FirstEntrySinceWins | android/ReactCommon/cxxreact/JSDeltaBundleClient.cpp:37-50 | after any patches an id is there with a code exactly if that is the code of its first entry since its last removal or reset |
| DeltaBundles.PatchMeans | android/ReactCommon/cxxreact/JSDeltaBundleClient.cpp:26-51 | what one patch does, said of its entries: a reset forgets all, a null takes a module away, a code is taken only where none is left, and a section that is not empty makes the startup code |
| DeltaBundles.LinesText | android/ReactCommon/cxxreact/JSDeltaBundleClient.cpp:10-23 | each line of a section is there, in order, with a line end after it |
| DeltaBundles.LastEntryIsServedExactly | android/ReactCommon/cxxreact/JSDeltaBundleClient.cpp:39-50 | the code of the last entry for an id is served exactly if no code for it was left from before, or the same |
| DeltaBundles.SecondPatchIsNotServed | android/ReactCommon/cxxreact/JSDeltaBundleClient.cpp:39-50 | two patches with two codes for one module leave the first one |
| DeltaBundles.LastStartupWins | android/ReactCommon/cxxreact/JSDeltaBundleClient.cpp:26-35 | the startup code is that of the latest patch with a non-empty section since the last reset, else empty |
| DeltaBundles.JSDeltaBundleClient.Patch | android/ReactCommon/cxxreact/JSDeltaBundleClient.cpp:26-51 | the state is what the whole history of patches comes to |
| DeltaBundles.JSDeltaBundleClient.StartupCodeOf | android/ReactCommon/cxxreact/JSDeltaBundleClient.cpp:10-23 | the lines of both sections, pre before post |
| DeltaBundles.JSDeltaBundleClient.GetModule | android/ReactCommon/cxxreact/JSDeltaBundleClient.cpp:53-60 | of a client with any history of patches: what is found is the code of the first entry for the id since it was last removed or reset, under the name of its decimal id; nothing is found only if there is none |
| DeltaBundles.JSDeltaBundleClient.GetStartupCode | android/ReactCommon/cxxreact/JSDeltaBundleClient.cpp:62-64 | the startup code of the latest change to it since the last reset, or nothing |

## Left out

- Utf16ToUtf8: where the code would write past its buffer the model stops and says so; what is overwritten is not modelled.
- CopyArgsToBuffer: requires, as its callers arrange, a start inside the buffer and a cap on each piece no smaller than
  the buffer; the callers require that the header fits, the sizes of the trace library being parameters.
- JSIndexedRAMBundle.Open: a startup size of 0 makes the code ask for a buffer of size -1, whose effect is undefined; the
  model reports it as an error of its own, BufferUnderrun.
- AnswersAsIfLoadedAfresh: assumes that loading a path is a pure function of the path and that a loaded bundle answers
  the same every time, as an indexed bundle does while none of its reads runs over the end of its file; a factory that throws counts as not having built the bundle.
- TotalsMatchTheTree: counters are unbounded integers, so machine-word wrap-around of counts is not captured; that of
  times and of the report's overhead is. One thread's data: registering and dropping threads is not modelled.
- RetainsMatchOwners: one JavaScript context, and no failing allocation.
- ParseInvertsEncode: ids beyond the largest int, whose overflow is undefined in the code, are integers here.
- JavaScriptCore, JSON text, logging and trace back ends: JavaScript is an oracle that may flush, throw or return any
  value at each point; JSON values are a datatype, without NaN and infinities, and a string converts to an integer only
  if it is a plain decimal numeral.
- Memory ordering: each read or write of the destroyed flag is one atomic step. A synchronous load does not race with
  `destroy` and occupies the executor like a body, as no lock in the code ensures; the wait for `m_syncReady` is not modelled.
- DestroyInBody: what JavaScript or the executor does after a teardown inside the body is undefined, and the body stops
  there: in JavaScript after an immediate flush, or when `destroy` comes from JavaScript itself. A native call that throws
  after it, in the last flush, is an exception that leaves the body; the executor's own wording of the message, for which
  it would use the context that is gone, is not modelled. Freeing the bridge object itself in the middle of a body, as the
  destructor of Instance goes on to do (`android/ReactCommon/cxxreact/Instance.cpp:33-37`), is not modelled.
- LoadApplicationSync: asks for a live executor; the code has no check and would use the executor that is gone.
- In `Bridge` the executor's body runs without other threads in between; the protocol has all interleavings.
- `bindBridge` and its `call_once`, `setBundleRegistry`, `loadModule` and `nativeRequire`: what they add is whether a
  JavaScript function could be looked up, which the oracle covers.
- A module-not-found callback that calls `getConfig` again while it runs; re-entrant resets of the object cache.
- Exceptions in the middle of a delta patch with malformed entries: patches have the right shape here.
- `Value` in `Value.h`, which owns nothing, and the conversions of strings and objects, which change no ownership.
- The parts of a module call behind the message queue, callback conversion, and Java and Objective-C modules.
- Memory-mapped bundle files, platform hooks, inspector, sampling and memory hooks, and the Apple wrapper tables.

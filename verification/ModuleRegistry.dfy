/** Native modules written in C++, and the registry that finds and calls them. */
module ModuleRegistry {
  import opened Wrappers
  import opened Dynamic
  import opened MethodCalls

  // ---- methods and modules ----

  type FunctionId = nat

  /** A method descriptor: a function for asynchronous calls, or one for synchronous calls. */
  datatype MethodRecord = MethodRecord(name: string, callbacks: nat, func: Option<FunctionId>, syncFunc: Option<FunctionId>)

  /** Every constructor sets one of the two functions. */
  type Method = m: MethodRecord | m.func.Some? || m.syncFunc.Some? witness MethodRecord("", 0, Some(0), None)

  datatype MethodType = Async | Promise | Sync

  /** No list outgrows the machine's indices. */
  type MethodList = ms: seq<Method> | |ms| < 0x8000_0000_0000_0000 witness []

  function GetType(m: Method): MethodType {
    if m.func.Some? then if m.callbacks == 2 then Promise else Async else Sync
  }

  datatype MethodDescriptor = MethodDescriptor(name: string, kind: MethodType)

  /** What a provider makes: the constants and methods of a module. */
  datatype Definition = Definition(constants: map<string, Dyn>, methods: MethodList)

  /** A module as the registry sees it; the provider is asked at most once, and may make nothing. */
  datatype Module = Module(name: string, provider: Option<Option<Definition>>, made: Option<Definition>, methods: MethodList) {

    function LazyInit(): Module {
      if made.Some? || provider.None? then this
      else
        var this1 := this.(made := provider.value, provider := None);
        if provider.value.Some? then this1.(methods := provider.value.value.methods) else this1
    }

    function Constants(): Dyn {
      if made.None? then Null else Obj(made.value.constants)
    }

    function Descriptors(): seq<MethodDescriptor> {
      seq(|methods|, j requires 0 <= j < |methods| => MethodDescriptor(methods[j].name, GetType(methods[j])))
    }
  }

  /** Initialising a module asks a provider that was not asked yet, once, and takes over what it makes. */
  predicate Initialised(m: Module, m': Module) {
    && m'.name == m.name
    && (if m.made.None? && m.provider.Some? then
          && m'.provider == None && m'.made == m.provider.value
          && m'.methods == if m'.made.Some? then m'.made.value.methods else m.methods
        else m' == m)
  }

  /** A list of descriptors says of each method its name and whether it is synchronous or gives a promise. */
  ghost predicate Lists(ds: seq<MethodDescriptor>, methods: seq<Method>) {
    && |ds| == |methods|
    && forall j :: 0 <= j < |ds| ==>
         && ds[j].name == methods[j].name
         && (ds[j].kind.Sync? <==> methods[j].func.None?)
         && (ds[j].kind.Promise? <==> methods[j].func.Some? && methods[j].callbacks == 2)
  }

  datatype CallError =
    | ModuleOutOfRange
    | MethodOutOfRange
    | ParamsNotArray
    | OnlySynchronous
    | OnlyAsynchronous
    | TooFewParams
    | CallbackNotNumber

  /** A call put on the module's queue: the function, its own arguments, and the ids of its callbacks. */
  datatype Invocation = Invocation(func: FunctionId, arguments: seq<Dyn>, callbacks: seq<int>, callId: int)

  function CallbackId(d: Dyn): Result<int, CallError> {
    if !d.IsNumber() then Err(CallbackNotNumber)
    else match d.AsInt() case None => Err(CallbackNotNumber) case Some(id) => Ok(id)
  }

  /** The asynchronous entry point of a module. */
  function Invoke(m: Module, methodId: nat, params: Dyn, callId: int): Result<Invocation, CallError> {
    if methodId >= |m.methods| then Err(MethodOutOfRange)
    else if !params.Arr? then Err(ParamsNotArray)
    else
      var entry := m.methods[methodId];
      var n := |params.items|;
      if entry.func.None? then Err(OnlySynchronous)
      else if n < entry.callbacks then Err(TooFewParams)
      else
        var own := params.items[..n - entry.callbacks];
        if entry.callbacks == 1 then
          match CallbackId(params.items[n - 1])
          case Err(e) => Err(e)
          case Ok(first) => Ok(Invocation(entry.func.value, own, [first], callId))
        else if entry.callbacks == 2 then
          match (CallbackId(params.items[n - 2]), CallbackId(params.items[n - 1]))
          case (Ok(first), Ok(second)) => Ok(Invocation(entry.func.value, own, [first, second], callId))
          case _ => Err(CallbackNotNumber)
        else Ok(Invocation(entry.func.value, own, [], callId))
  }

  /** What an asynchronous call needs: its function, and numbers where the callback ids are taken from. */
  ghost predicate Accepts(m: Method, params: seq<Dyn>) {
    && m.func.Some? && |params| >= m.callbacks
    && (m.callbacks == 1 || m.callbacks == 2 ==>
          forall k :: |params| - m.callbacks <= k < |params| ==> params[k].IsNumber() && params[k].AsInt().Some?)
  }

  /** A call that is put on the queue: the method's function, its own parameters in order, and the callback ids after them. */
  ghost predicate Carries(call: Invocation, m: Method, params: seq<Dyn>, callId: int) {
    && Some(call.func) == m.func && call.callId == callId
    && |call.arguments| + m.callbacks == |params| && call.arguments == params[..|call.arguments|]
    && |call.callbacks| == (if m.callbacks <= 2 then m.callbacks else 0)
    && (forall k :: 0 <= k < |call.callbacks| ==> params[|call.arguments| + k].AsInt() == Some(call.callbacks[k]))
  }

  /** A synchronous function on its arguments; what it returns is what the caller gets. */
  datatype HookCall = HookCall(func: FunctionId, args: Dyn)

  /** The synchronous entry point of a module: the function that runs, on all the arguments given. */
  function Hook(m: Module, hookId: nat, args: Dyn): Result<HookCall, CallError> {
    if hookId >= |m.methods| then Err(MethodOutOfRange)
    else match m.methods[hookId].syncFunc
         case None => Err(OnlyAsynchronous)
         case Some(f) => Ok(HookCall(f, args))
  }

  // ---- the registry ----

  /** Strips the prefix of the native platforms. */
  function NormalizeName(name: string): string {
    if "RCT" <= name then name[3..]
    else if "RK" <= name then name[2..]
    else name
  }

  datatype Registry = Registry(modules: seq<Module>, byName: map<string, nat>, unknown: set<string>)

  predicate Bears(modules: seq<Module>, i: nat, name: string) {
    i < |modules| && NormalizeName(modules[i].name) == name
  }

  /** The names from an index on enter the name index, later ones over earlier ones. */
  function AddNames(byName: map<string, nat>, modules: seq<Module>, from: nat): map<string, nat>
    decreases |modules| - from
  {
    if from >= |modules| then byName
    else AddNames(byName[NormalizeName(modules[from].name) := from], modules, from + 1)
  }

  /** The name index after adding the names from an index on, up to the first one that was required before; and whether there was one. */
  function AddUnlessUnknown(byName: map<string, nat>, modules: seq<Module>, from: nat, unknown: set<string>, addToNames: bool): (map<string, nat>, bool)
    decreases |modules| - from
  {
    if from >= |modules| then (byName, false)
    else
      var name := NormalizeName(modules[from].name);
      if name in unknown then (byName, true)
      else AddUnlessUnknown(if addToNames then byName[name := from] else byName, modules, from + 1, unknown, addToNames)
  }

  /** registerModules; the second component tells whether it threw. */
  function Register(r: Registry, added: seq<Module>): (Registry, bool) {
    if r.modules == [] && r.unknown == {} then (r.(modules := added), false)
    else
      var all := r.modules + added;
      var addToNames := r.byName != map[];
      if r.unknown != {} then
        var (names, threw) := AddUnlessUnknown(r.byName, all, |r.modules|, r.unknown, addToNames);
        (r.(modules := all, byName := names), threw)
      else (r.(modules := all, byName := if addToNames then AddNames(r.byName, all, |r.modules|) else r.byName), false)
  }

  /** moduleNames: the list of names, and the index over all modules. */
  function IndexAll(r: Registry): Registry {
    r.(byName := AddNames(r.byName, r.modules, 0))
  }

  function Names(modules: seq<Module>): seq<string> {
    seq(|modules|, i requires 0 <= i < |modules| => NormalizeName(modules[i].name))
  }

  /** What the callback for missing modules does when asked: registrations, then an answer. */
  datatype Finder = Finder(registers: seq<seq<Module>>, answer: bool)

  function RegisterEach(r: Registry, batches: seq<seq<Module>>): (Registry, bool)
    decreases |batches|
  {
    if batches == [] then (r, false)
    else
      var (r1, threw) := Register(r, batches[0]);
      if threw then (r1, true) else RegisterEach(r1, batches[1..])
  }

  datatype Lookup = Found(index: nat) | NotThere | Thrown

  /** The index is built when it is first needed. */
  function Indexed(r: Registry): Registry {
    if r.byName == map[] && r.modules != [] then IndexAll(r) else r
  }

  /** The first half of getConfig: find the index of a name, asking the callback if need be. */
  function Find(r: Registry, name: string, finder: Option<Finder>): (Registry, Lookup) {
    var r0 := Indexed(r);
    if name in r0.byName then (r0, Found(r0.byName[name]))
    else if name in r0.unknown then (r0, NotThere)
    else if finder.None? then (r0.(unknown := r0.unknown + {name}), NotThere)
    else
      var (r1, threw) := RegisterEach(r0, finder.value.registers);
      if threw then (r1, Thrown)
      else if finder.value.answer && name in r1.byName then (r1, Found(r1.byName[name]))
      else (r1.(unknown := r1.unknown + {name}), NotThere)
  }

  // ---- the positional configuration ----

  function IdsOf(descriptors: seq<MethodDescriptor>, kind: MethodType, from: nat): seq<Dyn>
    requires |descriptors| < 0x8000_0000_0000_0000
    decreases |descriptors| - from
  {
    if from >= |descriptors| then []
    else if descriptors[from].kind == kind then [Int(from)] + IdsOf(descriptors, kind, from + 1)
    else IdsOf(descriptors, kind, from + 1)
  }

  function NamesOf(descriptors: seq<MethodDescriptor>): seq<Dyn> {
    seq(|descriptors|, j requires 0 <= j < |descriptors| => Str(descriptors[j].name))
  }

  function MethodPart(descriptors: seq<MethodDescriptor>): seq<Dyn>
    requires |descriptors| < 0x8000_0000_0000_0000
  {
    var promises, syncs := IdsOf(descriptors, Promise, 0), IdsOf(descriptors, Sync, 0);
    if descriptors == [] then []
    else [Arr(NamesOf(descriptors))]
         + if promises == [] && syncs == [] then []
           else [Arr(promises)] + if syncs == [] then [] else [Arr(syncs)]
  }

  /** The configuration of an initialised module; None when it has neither constants nor methods. */
  function Config(name: string, m: Module): Option<seq<Dyn>> {
    var config := [Str(name), m.Constants()] + MethodPart(m.Descriptors());
    if |config| == 2 && m.Constants().IsEmpty() then None else Some(config)
  }

  datatype ConfigResult = NoConfig | ModuleConfig(index: nat, config: seq<Dyn>) | LookupThrew

  /** Every name in the index leads to a module that bears it. */
  ghost predicate IndexPoints(r: Registry) {
    forall name :: name in r.byName ==> Bears(r.modules, r.byName[name], name)
  }

  /** getConfig: find the module, initialise it, describe it. */
  function GetConfig(r: Registry, name: string, finder: Option<Finder>): (Registry, ConfigResult) {
    var (r1, lookup) := Find(r, name, finder);
    match lookup
    case Thrown => (r1, LookupThrew)
    case NotThere => (r1, NoConfig)
    case Found(i) =>
      if i >= |r1.modules| then (r1, LookupThrew)   // a failed CHECK; IndexPoints excludes it
      else
        var m := r1.modules[i].LazyInit();
        (r1.(modules := r1.modules[i := m]),
         match Config(name, m) case None => NoConfig case Some(config) => ModuleConfig(i, config))
  }

  /** callNativeMethod with the ids of a parsed call, which arrive as signed ints. */
  function CallNativeMethod(r: Registry, call: MethodCall): Result<Invocation, CallError> {
    var i := ToUint32(call.moduleId);
    if i >= |r.modules| then Err(ModuleOutOfRange)
    else Invoke(r.modules[i], ToUint32(call.methodId), call.arguments, call.callId)
  }

  function CallHook(r: Registry, moduleId: nat, methodId: nat, args: Dyn): Result<HookCall, CallError> {
    if moduleId >= |r.modules| then Err(ModuleOutOfRange) else Hook(r.modules[moduleId], methodId, args)
  }

  // ---- runs ----

  datatype Op = RegisterModules(added: seq<Module>) | ModuleNames | Configure(name: string, finder: Option<Finder>)

  function Apply(r: Registry, op: Op): Registry {
    match op
    case RegisterModules(added) => Register(r, added).0
    case ModuleNames => IndexAll(r)
    case Configure(name, finder) => GetConfig(r, name, finder).0
  }

  function ApplyAll(r: Registry, ops: seq<Op>): Registry
    decreases |ops|
  {
    if ops == [] then r else ApplyAll(Apply(r, ops[0]), ops[1..])
  }
}

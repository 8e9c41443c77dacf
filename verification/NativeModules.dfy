/** Native modules and their registry as they are written, with state updated in place. */
module NativeModules {
  import opened Wrappers
  import opened Dynamic
  import opened MethodCalls
  import opened ModuleRegistry
  import Dispatch

  class CxxNativeModule {
    const name: string
    var provider: Option<Option<Definition>>
    var made: Option<Definition>
    var methods: MethodList
    var posted: seq<Invocation>   // what was put on the module's message queue

    ghost function Abs(): Module
      reads this
    {
      Module(name, provider, made, methods)
    }

    constructor (name: string, provider: Option<Definition>)
      ensures this.name == name && Abs() == Module(name, Some(provider), None, []) && posted == []
    {
      this.name, this.provider, made, methods, posted := name, Some(provider), None, [], [];
    }

    method LazyInit()
      modifies this`provider, this`made, this`methods
      ensures Abs() == old(Abs()).LazyInit() && Initialised(old(Abs()), Abs())
    {
      if made.Some? || provider.None? {
        return;
      }
      made := provider.value;
      provider := None;
      if made.Some? {
        methods := made.value.methods;
      }
    }

    method GetMethods() returns (descs: seq<MethodDescriptor>)
      modifies this`provider, this`made, this`methods
      ensures Abs() == old(Abs()).LazyInit() && Initialised(old(Abs()), Abs())
      ensures descs == Abs().Descriptors() && Lists(descs, methods)
    {
      LazyInit();
      descs := [];
      for i := 0 to |methods|
        invariant descs == Abs().Descriptors()[..i]
      {
        descs := descs + [MethodDescriptor(methods[i].name, GetType(methods[i]))];
      }
    }

    method GetConstants() returns (constants: Dyn)
      modifies this`provider, this`made, this`methods
      ensures Abs() == old(Abs()).LazyInit() && Initialised(old(Abs()), Abs())
      ensures constants == Abs().Constants() == if made.None? then Null else Obj(made.value.constants)
    {
      LazyInit();
      constants := if made.None? then Null else Obj(made.value.constants);
    }

    /** An accepted call is put on the queue; a refused one leaves no trace. */
    method Call(methodId: nat, params: Dyn, callId: int) returns (error: Option<CallError>)
      modifies this`posted
      ensures error == None <==> methodId < |methods| && params.Arr? && Accepts(methods[methodId], params.items)
      ensures if error == None then
                && |posted| == |old(posted)| + 1 && posted[..|old(posted)|] == old(posted)
                && Carries(posted[|old(posted)|], methods[methodId], params.items, callId)
              else posted == old(posted)
      ensures match Invoke(Abs(), methodId, params, callId)
              case Ok(invocation) => error == None && posted == old(posted) + [invocation]
              case Err(e) => error == Some(e) && posted == old(posted)
    {
      if methodId >= |methods| {
        return Some(MethodOutOfRange);
      }
      if !params.Arr? {
        return Some(ParamsNotArray);
      }
      var entry := methods[methodId];
      var n := |params.items|;
      if entry.func.None? {
        return Some(OnlySynchronous);
      }
      if n < entry.callbacks {
        return Some(TooFewParams);
      }
      var callbacks: seq<int> := [];
      if entry.callbacks == 1 {
        var first := CallbackId(params.items[n - 1]);
        if first.Err? {
          return Some(first.error);
        }
        callbacks := [first.value];
      } else if entry.callbacks == 2 {
        var first, second := CallbackId(params.items[n - 2]), CallbackId(params.items[n - 1]);
        if first.Err? || second.Err? {
          return Some(CallbackNotNumber);
        }
        callbacks := [first.value, second.value];
      }
      posted := posted + [Invocation(entry.func.value, params.items[..n - entry.callbacks], callbacks, callId)];
      return None;
    }

    /** callSerializableNativeHook: the call that is made, whose result is the hook's. */
    method CallSerializableNativeHook(hookId: nat, args: Dyn) returns (r: Result<HookCall, CallError>)
      ensures r == Hook(Abs(), hookId, args)
      ensures r.Ok? <==> hookId < |methods| && methods[hookId].syncFunc.Some?
      ensures r.Ok? ==> r.value.func == methods[hookId].syncFunc.value && r.value.args == args
    {
      if hookId >= |methods| {
        return Err(MethodOutOfRange);
      }
      var syncFunc := methods[hookId].syncFunc;
      if syncFunc.None? {
        return Err(OnlyAsynchronous);
      }
      return Ok(HookCall(syncFunc.value, args));
    }
  }

  ghost function AbsAll(ms: seq<CxxNativeModule>): (r: seq<Module>)
    reads set m | m in ms
    ensures |r| == |ms| && forall i :: 0 <= i < |ms| ==> r[i] == ms[i].Abs()
  {
    if ms == [] then [] else [ms[0].Abs()] + AbsAll(ms[1..])
  }

  lemma AbsAllAppends(a: seq<CxxNativeModule>, b: seq<CxxNativeModule>)
    ensures AbsAll(a + b) == AbsAll(a) + AbsAll(b)
  {
  }

  /** The name of a module, as the object has it and as its value has it. */
  lemma NameAt(ms: seq<CxxNativeModule>, values: seq<Module>, i: nat)
    requires values == AbsAll(ms) && i < |ms|
    ensures |values| == |ms| && values[i].name == ms[i].name && Names(values)[i] == NormalizeName(ms[i].name)
  {
  }

  lemma OneMore(names: seq<string>, i: nat)
    requires i < |names|
    ensures names[..i + 1] == names[..i] + [names[i]]
  {
  }

  lemma NextName(byName: map<string, nat>, ms: seq<Module>, i: nat)
    requires i < |ms|
    ensures AddNames(byName, ms, i) == AddNames(byName[NormalizeName(ms[i].name) := i], ms, i + 1)
  {
  }

  lemma NextUnlessUnknown(byName: map<string, nat>, ms: seq<Module>, i: nat, unknown: set<string>, addToNames: bool)
    requires i < |ms|
    ensures var name := NormalizeName(ms[i].name);
            AddUnlessUnknown(byName, ms, i, unknown, addToNames)
            == if name in unknown then (byName, true)
               else AddUnlessUnknown(if addToNames then byName[name := i] else byName, ms, i + 1, unknown, addToNames)
  {
  }

  ghost predicate Distinct(ms: seq<CxxNativeModule>) {
    forall i, j :: 0 <= i < j < |ms| ==> ms[i] != ms[j]
  }

  /** The callback for missing modules, with the modules it brings. */
  datatype ModuleFinder = ModuleFinder(registers: seq<seq<CxxNativeModule>>, answer: bool)

  function Flat(batches: seq<seq<CxxNativeModule>>): seq<CxxNativeModule> {
    if batches == [] then [] else batches[0] + Flat(batches[1..])
  }

  ghost function AbsBatches(batches: seq<seq<CxxNativeModule>>): (r: seq<seq<Module>>)
    reads set b, m | b in batches && m in b :: m
    ensures |r| == |batches| && forall i :: 0 <= i < |batches| ==> r[i] == AbsAll(batches[i])
  {
    if batches == [] then []
    else
      assert batches[0] in batches;
      [AbsAll(batches[0])] + AbsBatches(batches[1..])
  }

  lemma Regrouped(a: seq<CxxNativeModule>, b: seq<CxxNativeModule>, c: seq<CxxNativeModule>)
    ensures a + b + c == a + (b + c) && a + b <= a + (b + c)
  {
  }

  lemma {:induction false} RegisterFirst(r: Registry, now: seq<Module>, later: seq<seq<Module>>)
    ensures var (r1, threw) := Register(r, now);
            RegisterEach(r, [now] + later) == if threw then (r1, true) else RegisterEach(r1, later)
  {
    assert ([now] + later)[1..] == later;
  }

  function Brought(finder: Option<ModuleFinder>): seq<CxxNativeModule> {
    if finder.None? then [] else Flat(finder.value.registers)
  }

  ghost function AbsFinder(finder: Option<ModuleFinder>): Option<Finder>
    reads if finder.None? then {} else set b, m | b in finder.value.registers && m in b :: m
  {
    if finder.None? then None else Some(Finder(AbsBatches(finder.value.registers), finder.value.answer))
  }

  lemma {:induction false} RegisteringKeepsPoints(r: Registry, added: seq<Module>)
    ensures IndexPoints(r) ==> IndexPoints(Register(r, added).0)
  {
    if IndexPoints(r) {
      Dispatch.RegisterExtends(r, added);
    }
  }

  lemma {:induction false} IndexingKeepsPoints(r: Registry)
    ensures IndexPoints(r) ==> IndexPoints(IndexAll(r))
  {
    if IndexPoints(r) {
      Dispatch.AddNamesPoints(r.byName, r.modules, 0);
    }
  }

  lemma {:induction false} InitialisingKeepsBearers(r: Registry, index: nat)
    requires index < |r.modules| && IndexPoints(r)
    ensures IndexPoints(r.(modules := r.modules[index := r.modules[index].LazyInit()]))
  {
    var modules := r.modules[index := r.modules[index].LazyInit()];
    assert forall k: nat, n :: Bears(modules, k, n) == Bears(r.modules, k, n);
  }

  class NativeModuleRegistry {
    var modules: seq<CxxNativeModule>
    var modulesByName: map<string, nat>
    var unknownModules: set<string>

    ghost predicate Valid()
      reads this, modules
    {
      Distinct(modules) && Points()
    }

    ghost predicate Points()
      reads this, modules
    {
      IndexPoints(Abs())
    }

    ghost function Abs(): Registry
      reads this, modules
    {
      Registry(AbsAll(modules), modulesByName, unknownModules)
    }

    constructor (modules: seq<CxxNativeModule>)
      requires Distinct(modules)
      ensures Valid() && this.modules == modules && Abs() == Registry(AbsAll(modules), map[], {})
    {
      this.modules, modulesByName, unknownModules := modules, map[], {};
    }

    method UpdateModuleNamesFromIndex(from: nat)
      modifies this`modulesByName
      ensures modulesByName == AddNames(old(modulesByName), AbsAll(modules), from)
    {
      ghost var ms := AbsAll(modules);
      var index := from;
      while index < |modules|
        invariant AddNames(modulesByName, ms, index) == AddNames(old(modulesByName), ms, from)
      {
        NameAt(modules, ms, index);
        NextName(modulesByName, ms, index);
        modulesByName := modulesByName[NormalizeName(modules[index].name) := index];
        index := index + 1;
      }
    }

    /** registerModules: on an exception the modules stay, and so do the names entered so far. */
    method RegisterModules(added: seq<CxxNativeModule>) returns (threw: bool)
      modifies this
      ensures modules == old(modules) + added
      ensures (Abs(), threw) == Register(old(Abs()), old(AbsAll(added)))
      ensures old(Valid()) && Distinct(old(modules) + added) ==> Valid()
    {
      ghost var r := Abs();
      AbsAllAppends(modules, added);
      RegisteringKeepsPoints(r, AbsAll(added));
      if modules == [] && unknownModules == {} {
        modules := added;
        threw := false;
      } else {
        var first := |modules|;
        var addToNames := modulesByName != map[];
        modules := modules + added;
        threw := EnterAdded(first, addToNames);
      }
    }

    method EnterAdded(first: nat, addToNames: bool) returns (threw: bool)
      modifies this`modulesByName
      ensures (modulesByName, threw)
           == if unknownModules != {} then AddUnlessUnknown(old(modulesByName), AbsAll(modules), first, unknownModules, addToNames)
              else (if addToNames then AddNames(old(modulesByName), AbsAll(modules), first) else old(modulesByName), false)
    {
      if unknownModules != {} {
        threw := EnterNames(first, addToNames);
      } else {
        if addToNames {
          UpdateModuleNamesFromIndex(first);
        }
        threw := false;
      }
    }

    method EnterNames(first: nat, addToNames: bool) returns (threw: bool)
      modifies this`modulesByName
      ensures (modulesByName, threw) == AddUnlessUnknown(old(modulesByName), AbsAll(modules), first, unknownModules, addToNames)
    {
      ghost var ms := AbsAll(modules);
      var index := first;
      while index < |modules|
        invariant AddUnlessUnknown(modulesByName, ms, index, unknownModules, addToNames)
               == AddUnlessUnknown(old(modulesByName), ms, first, unknownModules, addToNames)
      {
        NameAt(modules, ms, index);
        NextUnlessUnknown(modulesByName, ms, index, unknownModules, addToNames);
        var name := NormalizeName(modules[index].name);
        if name in unknownModules {
          return true;
        } else if addToNames {
          modulesByName := modulesByName[name := index];
        }
        index := index + 1;
      }
      return false;
    }

    method ModuleNames() returns (names: seq<string>)
      modifies this`modulesByName
      ensures Abs() == IndexAll(old(Abs())) && names == Names(AbsAll(modules))
      ensures |names| == |modules| && forall i :: 0 <= i < |names| ==> names[i] == NormalizeName(modules[i].name)
      ensures old(Valid()) ==> Valid()
    {
      IndexingKeepsPoints(Abs());
      names := [];
      ghost var ms := AbsAll(modules);
      ghost var all := Names(ms);
      var i := 0;
      while i < |modules|
        invariant 0 <= i <= |modules| == |ms| == |all|
        invariant names == all[..i]
        invariant AddNames(modulesByName, ms, i) == AddNames(old(modulesByName), ms, 0)
      {
        NameAt(modules, ms, i);
        NextName(modulesByName, ms, i);
        var name := NormalizeName(modules[i].name);
        OneMore(all, i);
        modulesByName := modulesByName[name := i];
        names := names + [name];
        i := i + 1;
      }
      assert all[..i] == all;
    }

    /** callNativeMethod, with the ids of a parsed call. */
    method CallNativeMethod(call: MethodCall) returns (error: Option<CallError>)
      modifies modules
      ensures Abs() == old(Abs()) && (old(Valid()) ==> Valid())
      ensures match ModuleRegistry.CallNativeMethod(Abs(), call)
              case Ok(invocation) =>
                var m := modules[ToUint32(call.moduleId)];
                error == None && m.posted == old(m.posted) + [invocation]
              case Err(e) => error == Some(e)
      ensures forall k :: 0 <= k < |modules| && (error.Some? || modules[k] != modules[ToUint32(call.moduleId)]) ==>
                modules[k].posted == old(modules[k].posted)
    {
      var i := ToUint32(call.moduleId);
      if i >= |modules| {
        return Some(ModuleOutOfRange);
      }
      error := modules[i].Call(ToUint32(call.methodId), call.arguments, call.callId);
      assert AbsAll(modules) == old(AbsAll(modules));
    }

    method CallSerializableNativeHook(moduleId: nat, methodId: nat, args: Dyn) returns (r: Result<HookCall, CallError>)
      ensures r == CallHook(Abs(), moduleId, methodId, args)
    {
      if moduleId >= |modules| {
        return Err(ModuleOutOfRange);
      }
      r := modules[moduleId].CallSerializableNativeHook(methodId, args);
    }

    /** The second half of getConfig: initialise the module and describe it. */
    method Describe(name: string, index: nat) returns (config: Option<seq<Dyn>>)
      requires Valid() && index < |modules|
      modifies modules
      ensures Valid()
      ensures var m := old(modules[index].Abs()).LazyInit();
              Abs() == old(Abs()).(modules := old(AbsAll(modules))[index := m]) && config == Config(name, m)
    {
      ghost var r := Abs();
      config := DescribeModule(name, modules[index]);
      forall k | 0 <= k < |modules|
        ensures AbsAll(modules)[k] == r.modules[index := modules[index].Abs()][k]
      {
      }
      ghost var m := r.modules[index].LazyInit();
      assert Abs() == r.(modules := r.modules[index := m]);
      InitialisingKeepsBearers(r, index);
    }

    /** Position by position: name, constants, and the columns of the methods. */
    static method DescribeModule(name: string, m: CxxNativeModule) returns (config: Option<seq<Dyn>>)
      modifies m`provider, m`made, m`methods
      ensures m.Abs() == old(m.Abs()).LazyInit() && config == Config(name, m.Abs())
    {
      var constants := m.GetConstants();
      Dispatch.InitialisedOnce(old(m.Abs()));
      var methods := m.GetMethods();
      var methodPart := PositionMethods(methods);
      var all := [Str(name), constants] + methodPart;
      if |all| == 2 && constants.IsEmpty() {
        config := None;
      } else {
        config := Some(all);
      }
    }

    /** The callback runs: it registers batch after batch, until one throws. */
    method AskFinder(batches: seq<seq<CxxNativeModule>>) returns (threw: bool)
      modifies this
      ensures modules <= old(modules) + Flat(batches)
      ensures (Abs(), threw) == RegisterEach(old(Abs()), old(AbsBatches(batches)))
      decreases |batches|
    {
      if batches == [] {
        return false;
      }
      ghost var now, later := AbsAll(batches[0]), AbsBatches(batches[1..]);
      assert AbsBatches(batches) == [now] + later;
      RegisterFirst(Abs(), now, later);
      ghost var was := modules;
      threw := RegisterModules(batches[0]);
      if !threw {
        threw := AskFinder(batches[1..]);
      }
      Regrouped(was, batches[0], Flat(batches[1..]));
    }

    method EnsureIndex()
      modifies this`modulesByName
      ensures Abs() == Indexed(old(Abs()))
    {
      if modulesByName == map[] && modules != [] {
        var _ := ModuleNames();
      }
    }

    /** The first half of getConfig: the index of the wanted module, if the lookup neither fails nor throws. */
    method FindModule(name: string, finder: Option<ModuleFinder>) returns (lookup: Lookup)
      modifies this
      ensures modules <= old(modules) + Brought(finder)
      ensures (Abs(), lookup) == Find(old(Abs()), name, old(AbsFinder(finder)))
    {
      ghost var f := AbsFinder(finder);
      EnsureIndex();
      if name in modulesByName {
        lookup := Found(modulesByName[name]);
      } else if name in unknownModules {
        lookup := NotThere;
      } else if finder.Some? {
        assert AbsFinder(finder) == f;
        lookup := AskAndLook(name, finder.value);
      } else {
        unknownModules := unknownModules + {name};
        lookup := NotThere;
      }
    }

    /** The callback runs, and the index is looked at once more. */
    method AskAndLook(name: string, finder: ModuleFinder) returns (lookup: Lookup)
      modifies this
      ensures modules <= old(modules) + Flat(finder.registers)
      ensures var (r, threw) := RegisterEach(old(Abs()), old(AbsBatches(finder.registers)));
              (Abs(), lookup) == if threw then (r, Thrown)
                                 else if finder.answer && name in r.byName then (r, Found(r.byName[name]))
                                 else (r.(unknown := r.unknown + {name}), NotThere)
    {
      var threw := AskFinder(finder.registers);
      if threw {
        return Thrown;
      }
      if finder.answer && name in modulesByName {
        return Found(modulesByName[name]);
      }
      unknownModules := unknownModules + {name};
      return NotThere;
    }

    /** getConfig. */
    method GetConfig(name: string, finder: Option<ModuleFinder>) returns (r: ConfigResult)
      requires Valid() && Distinct(modules + Brought(finder))
      modifies this, modules, Brought(finder)
      ensures Valid() && modules <= old(modules) + Brought(finder)
      ensures (Abs(), r) == ModuleRegistry.GetConfig(old(Abs()), name, old(AbsFinder(finder)))
    {
      ghost var r0, f := Abs(), AbsFinder(finder);
      Dispatch.FindExtends(r0, name, f);
      var lookup := FindModule(name, finder);
      assert (Abs(), lookup) == Find(r0, name, f);
      if lookup.Thrown? {
        return LookupThrew;
      }
      if lookup.NotThere? {
        return NoConfig;
      }
      var config := Describe(name, lookup.index);
      return if config.None? then NoConfig else ModuleConfig(lookup.index, config.value);
    }

    static method PositionMethods(methods: seq<MethodDescriptor>) returns (part: seq<Dyn>)
      requires |methods| < 0x8000_0000_0000_0000
      ensures part == MethodPart(methods)
    {
      var names: seq<Dyn>, promises: seq<Dyn>, syncs: seq<Dyn> := [], [], [];
      var j := 0;
      while j < |methods|
        invariant 0 <= j <= |methods|
        invariant names == NamesOf(methods)[..j]
        invariant promises + IdsOf(methods, Promise, j) == IdsOf(methods, Promise, 0)
        invariant syncs + IdsOf(methods, Sync, j) == IdsOf(methods, Sync, 0)
      {
        names := names + [Str(methods[j].name)];
        if methods[j].kind == Promise {
          promises := promises + [Int(|names| - 1)];
        } else if methods[j].kind == Sync {
          syncs := syncs + [Int(|names| - 1)];
        }
        j := j + 1;
      }
      assert promises + [] == promises && syncs + [] == syncs && names == NamesOf(methods);
      part := [];
      if names != [] {
        part := part + [Arr(names)];
        if promises != [] || syncs != [] {
          part := part + [Arr(promises)];
          if syncs != [] {
            part := part + [Arr(syncs)];
          }
        }
      }
    }
  }
}

/** From the description of a module that JavaScript receives, back to the methods of that module. */
module Dispatch {
  import opened Wrappers
  import opened Dynamic
  import opened MethodCalls
  import opened ModuleRegistry

  // ---- reading a configuration ----

  /** A configuration as JavaScript reads it. */
  datatype Described = Described(name: string, constants: Dyn, methods: seq<MethodDescriptor>)

  function Column(config: seq<Dyn>, k: nat): seq<Dyn> {
    if k < |config| && config[k].Arr? then config[k].items else []
  }

  function KindOf(j: int64, promises: seq<Dyn>, syncs: seq<Dyn>): MethodType {
    if Int(j) in promises then Promise else if Int(j) in syncs then Sync else Async
  }

  function Text(d: Dyn): string {
    if d.Str? then d.s else ""
  }

  /** name, constants, optional method names, optional promise ids, optional sync ids. */
  function Read(config: seq<Dyn>): Described
    requires |config| >= 2 && |Column(config, 2)| < 0x8000_0000_0000_0000
  {
    var names := Column(config, 2);
    Described(Text(config[0]), config[1],
              seq(|names|, j requires 0 <= j < |names| => MethodDescriptor(Text(names[j]), KindOf(j, Column(config, 3), Column(config, 4)))))
  }

  lemma {:induction false} IdsAreExact(ds: seq<MethodDescriptor>, kind: MethodType, from: nat)
    requires |ds| < 0x8000_0000_0000_0000
    ensures forall j: int64 :: Int(j) in IdsOf(ds, kind, from) <==> from <= j < |ds| && ds[j].kind == kind
    decreases |ds| - from
  {
    if from >= |ds| {
    } else {
      IdsAreExact(ds, kind, from + 1);
    }
  }

  /** The configuration loses nothing: name, constants, and every method's name and kind in order. */
  lemma {:induction false} ConfigReadsBack(name: string, m: Module)
    ensures Config(name, m).None? ==> m.methods == [] && (m.made.None? || m.made.value.constants == map[])
    ensures Config(name, m).Some? ==>
              && |Config(name, m).value| >= 2 && |Column(Config(name, m).value, 2)| == |m.methods|
              && Read(Config(name, m).value) == Described(name, m.Constants(), m.Descriptors())
  {
    var ds := m.Descriptors();
    IdsAreExact(ds, Promise, 0);
    IdsAreExact(ds, Sync, 0);
    if Config(name, m).Some? {
      var config := Config(name, m).value;
      assert Column(config, 2) == NamesOf(ds);
      ColumnsOfIds(name, m);
      var read := Read(config);
      forall j | 0 <= j < |ds|
        ensures read.methods[j] == ds[j]
      {
        assert Text(NamesOf(ds)[j]) == ds[j].name;
        assert KindOf(j, Column(config, 3), Column(config, 4)) == ds[j].kind;
      }
    }
  }

  lemma {:induction false} ColumnsOfIds(name: string, m: Module)
    requires Config(name, m).Some?
    ensures Column(Config(name, m).value, 3) == IdsOf(m.Descriptors(), Promise, 0)
    ensures Column(Config(name, m).value, 4) == IdsOf(m.Descriptors(), Sync, 0)
  {
    var ds := m.Descriptors();
    if ds == [] {
      assert IdsOf(ds, Promise, 0) == [] && IdsOf(ds, Sync, 0) == [];
    }
  }

  // ---- what later operations leave in place ----

  /** Modules stay where they are; all that can happen to one is to be initialised. */
  ghost predicate Extends(r: Registry, r': Registry) {
    && |r.modules| <= |r'.modules|
    && forall i :: 0 <= i < |r.modules| ==> r'.modules[i] == r.modules[i] || r'.modules[i] == r.modules[i].LazyInit()
  }

  lemma InitialisedOnce(m: Module)
    ensures m.LazyInit().LazyInit() == m.LazyInit()
  {
  }

  lemma {:induction false} ExtendsTransitively(r: Registry, r1: Registry, r2: Registry)
    requires Extends(r, r1) && Extends(r1, r2)
    ensures Extends(r, r2)
  {
    forall i | 0 <= i < |r.modules|
      ensures r2.modules[i] == r.modules[i] || r2.modules[i] == r.modules[i].LazyInit()
    {
      InitialisedOnce(r.modules[i]);
    }
  }

  lemma {:induction false} RegisterEachExtends(r: Registry, batches: seq<seq<Module>>)
    requires IndexPoints(r)
    ensures Extends(r, RegisterEach(r, batches).0) && IndexPoints(RegisterEach(r, batches).0)
    decreases |batches|
  {
    if batches == [] {
    } else {
      RegisterExtends(r, batches[0]);
      var (r1, threw) := Register(r, batches[0]);
      if !threw {
        RegisterEachExtends(r1, batches[1..]);
        ExtendsTransitively(r, r1, RegisterEach(r1, batches[1..]).0);
      }
    }
  }

  lemma {:induction false} RegisterExtends(r: Registry, added: seq<Module>)
    requires IndexPoints(r)
    ensures Extends(r, Register(r, added).0) && IndexPoints(Register(r, added).0)
  {
    var all := r.modules + added;
    assert forall name :: name in r.byName ==> Bears(all, r.byName[name], name);
    AddNamesPoints(r.byName, all, |r.modules|);
    AddUnlessUnknownPoints(r.byName, all, |r.modules|, r.unknown, r.byName != map[]);
  }

  ghost predicate Points(byName: map<string, nat>, modules: seq<Module>) {
    forall name :: name in byName ==> Bears(modules, byName[name], name)
  }

  lemma {:induction false} AddNamesPoints(byName: map<string, nat>, modules: seq<Module>, from: nat)
    requires Points(byName, modules)
    ensures Points(AddNames(byName, modules, from), modules)
    decreases |modules| - from
  {
    if from >= |modules| {
    } else {
      AddNamesPoints(byName[NormalizeName(modules[from].name) := from], modules, from + 1);
    }
  }

  lemma {:induction false} AddUnlessUnknownPoints(byName: map<string, nat>, modules: seq<Module>, from: nat, unknown: set<string>, addToNames: bool)
    requires Points(byName, modules)
    ensures Points(AddUnlessUnknown(byName, modules, from, unknown, addToNames).0, modules)
    decreases |modules| - from
  {
    if from >= |modules| {
    } else {
      var name := NormalizeName(modules[from].name);
      AddUnlessUnknownPoints(if addToNames then byName[name := from] else byName, modules, from + 1, unknown, addToNames);
    }
  }

  lemma {:induction false} IndexedExtends(r: Registry)
    requires IndexPoints(r)
    ensures Extends(r, Indexed(r)) && IndexPoints(Indexed(r))
  {
    AddNamesPoints(r.byName, r.modules, 0);
  }

  lemma {:induction false} FindExtends(r: Registry, name: string, finder: Option<Finder>)
    requires IndexPoints(r)
    ensures var (r', lookup) := Find(r, name, finder);
            && Extends(r, r') && IndexPoints(r')
            && (lookup.Found? ==> Bears(r'.modules, lookup.index, name))
  {
    IndexedExtends(r);
    var r0 := Indexed(r);
    if finder.Some? {
      RegisterEachExtends(r0, finder.value.registers);
      ExtendsTransitively(r, r0, RegisterEach(r0, finder.value.registers).0);
    }
  }

  lemma {:induction false} ApplyExtends(r: Registry, op: Op)
    requires IndexPoints(r)
    ensures Extends(r, Apply(r, op)) && IndexPoints(Apply(r, op))
  {
    match op
    case RegisterModules(added) => RegisterExtends(r, added);
    case ModuleNames => AddNamesPoints(r.byName, r.modules, 0);
    case Configure(name, finder) =>
      FindExtends(r, name, finder);
      var (r1, lookup) := Find(r, name, finder);
      if lookup.Found? {
        var r2 := GetConfig(r, name, finder).0;
        assert forall k: nat, n :: Bears(r2.modules, k, n) == Bears(r1.modules, k, n);
        assert Extends(r1, r2);
        ExtendsTransitively(r, r1, r2);
      }
  }

  /** Whatever happens later, thrown registrations included, modules keep their place and the index keeps leading to bearers. */
  lemma {:induction false} RunExtends(r: Registry, ops: seq<Op>)
    requires IndexPoints(r)
    ensures Extends(r, ApplyAll(r, ops)) && IndexPoints(ApplyAll(r, ops))
    decreases |ops|
  {
    if ops == [] {
    } else {
      ApplyExtends(r, ops[0]);
      RunExtends(Apply(r, ops[0]), ops[1..]);
      ExtendsTransitively(r, Apply(r, ops[0]), ApplyAll(r, ops));
    }
  }

  // ---- end to end ----

  /** What getConfig returned describes a module that bears the name and has been initialised. */
  lemma {:induction false} ConfigDescribesItsModule(r: Registry, name: string, finder: Option<Finder>)
    requires IndexPoints(r) && GetConfig(r, name, finder).1.ModuleConfig?
    ensures var (r', c) := GetConfig(r, name, finder);
            && IndexPoints(r') && Bears(r'.modules, c.index, name)
            && r'.modules[c.index].LazyInit() == r'.modules[c.index]
            && |c.config| >= 2 && |Column(c.config, 2)| == |r'.modules[c.index].methods|
            && Read(c.config) == Described(name, r'.modules[c.index].Constants(), r'.modules[c.index].Descriptors())
  {
    ApplyExtends(r, Configure(name, finder));
    FindExtends(r, name, finder);
    var (r1, lookup) := Find(r, name, finder);
    InitialisedOnce(r1.modules[lookup.index]);
    ConfigReadsBack(name, r1.modules[lookup.index].LazyInit());
  }

  /**
   A call that JavaScript encodes from a description reaches the described method of a module with that name,
   whatever was registered since, and the asynchronous entry point takes it exactly if the description does
   not list it as synchronous.
   */
  lemma {:induction false} CallsReachTheDescribedMethod(
    before: seq<Op>, modules: seq<Module>, name: string, finder: Option<Finder>, after: seq<Op>,
    j: nat, calls: seq<QueuedCall>, callId: Option<int64>, k: nat
  )
    requires var r := ApplyAll(Registry(modules, map[], {}), before);
             var (r', c) := GetConfig(r, name, finder);
             && c.ModuleConfig?
             && j < |Column(c.config, 2)| && c.index < 0x1_0000_0000 && j < 0x1_0000_0000
             && k < |calls| && calls[k].moduleId == c.index && calls[k].methodId == j
    ensures var r := ApplyAll(Registry(modules, map[], {}), before);
            var (r', c) := GetConfig(r, name, finder);
            var r'' := ApplyAll(r', after);
            var batch := Parse(EncodeBatch(calls, callId));
            && |c.config| >= 2 && |Column(c.config, 2)| < 0x8000_0000_0000_0000
            && batch.Ok? && k < |batch.value|
            && Bears(r''.modules, c.index, name)
            && j < |r''.modules[c.index].methods|
            && r''.modules[c.index].methods[j].name == Read(c.config).methods[j].name
            && CallNativeMethod(r'', batch.value[k]) == Invoke(r''.modules[c.index], j, Arr(calls[k].arguments), batch.value[k].callId)
            && (CallNativeMethod(r'', batch.value[k]) == Err(OnlySynchronous) <==> Int(j) in Column(c.config, 4))
            && (CallNativeMethod(r'', batch.value[k]).Ok? <==> Accepts(r''.modules[c.index].methods[j], calls[k].arguments))
            && CallNativeMethod(r'', batch.value[k]) !in {Err(ModuleOutOfRange), Err(MethodOutOfRange), Err(ParamsNotArray)}
  {
    var r0 := Registry(modules, map[], {});
    RunExtends(r0, before);
    var r := ApplyAll(r0, before);
    ConfigDescribesItsModule(r, name, finder);
    var (r', c) := GetConfig(r, name, finder);
    RunExtends(r', after);
    var r'' := ApplyAll(r', after);
    var m := r'.modules[c.index];
    assert r''.modules[c.index] == m;
    QueuedCallArrives(calls, callId, k);
    assert Read(c.config).methods[j] == m.Descriptors()[j];
    SyncIdsTellTheKind(r, name, finder, j);
    RoutedCall(r'', m, j, Parse(EncodeBatch(calls, callId)).value[k]);
    AcceptedExactly(m, j, Arr(calls[k].arguments), Parse(EncodeBatch(calls, callId)).value[k].callId);
  }

  /**
   The synchronous hook reaches the same method. If each method has exactly one function, as the constructors of
   methods see to, then the hook takes exactly the methods that the description lists as synchronous.
   */
  lemma {:induction false} HooksReachTheDescribedMethod(
    before: seq<Op>, modules: seq<Module>, name: string, finder: Option<Finder>, after: seq<Op>, j: nat, args: Dyn
  )
    requires var r := ApplyAll(Registry(modules, map[], {}), before);
             var (r', c) := GetConfig(r, name, finder);
             c.ModuleConfig? && j < |Column(c.config, 2)|
    ensures var r := ApplyAll(Registry(modules, map[], {}), before);
            var (r', c) := GetConfig(r, name, finder);
            var r'' := ApplyAll(r', after);
            && |c.config| >= 2 && |Column(c.config, 2)| < 0x8000_0000_0000_0000
            && Bears(r''.modules, c.index, name)
            && j < |r''.modules[c.index].methods|
            && r''.modules[c.index].methods[j].name == Read(c.config).methods[j].name
            && CallHook(r'', c.index, j, args) == Hook(r''.modules[c.index], j, args)
            && (CallHook(r'', c.index, j, args).Ok? ==> CallHook(r'', c.index, j, args).value.args == args)
            && (r''.modules[c.index].methods[j].func.Some? != r''.modules[c.index].methods[j].syncFunc.Some? ==>
                  (CallHook(r'', c.index, j, args).Ok? <==> Int(j) in Column(c.config, 4)))
  {
    var r0 := Registry(modules, map[], {});
    RunExtends(r0, before);
    var r := ApplyAll(r0, before);
    ConfigDescribesItsModule(r, name, finder);
    var (r', c) := GetConfig(r, name, finder);
    RunExtends(r', after);
    var r'' := ApplyAll(r', after);
    var m := r'.modules[c.index];
    assert r''.modules[c.index] == m;
    assert Read(c.config).methods[j] == m.Descriptors()[j];
    SyncIdsTellTheKind(r, name, finder, j);
  }

  /** Of a call whose ids are in range, only a method without an asynchronous function is refused as such. */
  lemma RoutedCall(r: Registry, m: Module, j: nat, call: MethodCall)
    requires ToUint32(call.moduleId) < |r.modules| && r.modules[ToUint32(call.moduleId)] == m
    requires j < |m.methods| && ToUint32(call.methodId) == j && call.arguments.Arr?
    ensures CallNativeMethod(r, call) == Invoke(m, j, call.arguments, call.callId)
    ensures CallNativeMethod(r, call) == Err(OnlySynchronous) <==> m.methods[j].func.None?
    ensures CallNativeMethod(r, call) !in {Err(ModuleOutOfRange), Err(MethodOutOfRange), Err(ParamsNotArray)}
  {
  }

  /** A queued call comes out of the batch with the ids and arguments it was queued with. */
  lemma {:induction false} QueuedCallArrives(calls: seq<QueuedCall>, callId: Option<int64>, k: nat)
    requires k < |calls| && 0 <= calls[k].moduleId < 0x1_0000_0000 && 0 <= calls[k].methodId < 0x1_0000_0000
    ensures var batch := Parse(EncodeBatch(calls, callId));
            && batch.Ok? && k < |batch.value|
            && ToUint32(batch.value[k].moduleId) == calls[k].moduleId
            && ToUint32(batch.value[k].methodId) == calls[k].methodId
            && batch.value[k].arguments == Arr(calls[k].arguments)
  {
    ParseInvertsEncode(calls, callId);
    UnsignedThroughSigned(calls[k].moduleId);
    UnsignedThroughSigned(calls[k].methodId);
  }

  lemma {:induction false} SyncIdsTellTheKind(r: Registry, name: string, finder: Option<Finder>, j: nat)
    requires IndexPoints(r) && GetConfig(r, name, finder).1.ModuleConfig?
    requires j < |Column(GetConfig(r, name, finder).1.config, 2)| < 0x8000_0000_0000_0000
    ensures var (r', c) := GetConfig(r, name, finder);
            && c.index < |r'.modules| && j < |r'.modules[c.index].methods|
            && (Int(j) in Column(c.config, 4) <==> r'.modules[c.index].methods[j].func.None?)
  {
    ConfigDescribesItsModule(r, name, finder);
    var (r1, lookup) := Find(r, name, finder);
    var m := r1.modules[lookup.index].LazyInit();
    ColumnsOfIds(name, m);
    IdsAreExact(m.Descriptors(), Sync, 0);
  }

  /** Of a method with exactly one function, each entry point takes exactly the calls meant for it. */
  lemma EntryPointsExclude(m: Module, j: nat, params: Dyn, callId: int)
    requires j < |m.methods| && params.Arr? && m.methods[j].func.Some? != m.methods[j].syncFunc.Some?
    ensures Hook(m, j, params).Ok? <==> Invoke(m, j, params, callId) == Err(OnlySynchronous)
    ensures Hook(m, j, params).Ok? <==> m.Descriptors()[j].kind == Sync
  {
  }

  /** Which calls the asynchronous entry point takes, and what it then puts on the queue. */
  lemma {:induction false} AcceptedExactly(m: Module, j: nat, params: Dyn, callId: int)
    ensures Invoke(m, j, params, callId).Ok? <==> j < |m.methods| && params.Arr? && Accepts(m.methods[j], params.items)
    ensures Invoke(m, j, params, callId).Ok? ==> Carries(Invoke(m, j, params, callId).value, m.methods[j], params.items, callId)
  {
    if j < |m.methods| && params.Arr? && |params.items| >= m.methods[j].callbacks {
      var n := |params.items|;
      assert m.methods[j].callbacks == 2 ==> n >= 2 && params.items[n - 2] in params.items && params.items[n - 1] in params.items;
    }
  }

  /** Which error each refused call gets. */
  lemma {:induction false} RefusedExactly(m: Module, j: nat, params: Dyn, callId: int)
    ensures var r := Invoke(m, j, params, callId);
            && (r == Err(MethodOutOfRange) <==> j >= |m.methods|)
            && (r == Err(ParamsNotArray) <==> j < |m.methods| && !params.Arr?)
            && (r == Err(OnlySynchronous) <==> j < |m.methods| && params.Arr? && m.methods[j].func.None?)
            && (r == Err(TooFewParams) <==>
                  j < |m.methods| && params.Arr? && m.methods[j].func.Some? && |params.items| < m.methods[j].callbacks)
            && (r == Err(CallbackNotNumber) <==>
                  && j < |m.methods| && params.Arr? && m.methods[j].func.Some? && |params.items| >= m.methods[j].callbacks
                  && !Accepts(m.methods[j], params.items))
  {
    AcceptedExactly(m, j, params, callId);
  }

  /** Which calls the synchronous entry point takes, and the error of each other. */
  lemma HookedExactly(m: Module, j: nat, args: Dyn)
    ensures Hook(m, j, args).Ok? <==> j < |m.methods| && m.methods[j].syncFunc.Some?
    ensures Hook(m, j, args).Ok? ==> Hook(m, j, args).value == HookCall(m.methods[j].syncFunc.value, args)
    ensures Hook(m, j, args) == Err(MethodOutOfRange) <==> j >= |m.methods|
    ensures Hook(m, j, args) == Err(OnlyAsynchronous) <==> j < |m.methods| && m.methods[j].syncFunc.None?
  {
  }

  /** Ids that are out of range are all that the registry itself refuses. */
  lemma RoutedExactly(r: Registry, call: MethodCall, moduleId: nat, methodId: nat, args: Dyn)
    ensures CallNativeMethod(r, call) == Err(ModuleOutOfRange) <==> ToUint32(call.moduleId) >= |r.modules|
    ensures CallHook(r, moduleId, methodId, args) == Err(ModuleOutOfRange) <==> moduleId >= |r.modules|
  {
  }
}

/** From what a module's provider makes, to what JavaScript is told of the module and what its calls reach. */
module ProvidedModules {
  import opened Wrappers
  import opened Dynamic
  import opened MethodCalls
  import opened ModuleRegistry
  import opened Dispatch

  /** A module whose provider makes this definition and was not asked yet. */
  predicate Given(m: Module, d: Definition) {
    m == Module(m.name, Some(Some(d)), None, [])
  }

  /** The same module with what its provider made. */
  function Filled(m: Module, d: Definition): Module {
    Module(m.name, None, Some(d), d.methods)
  }

  lemma LazyInitInitialises(m: Module)
    ensures Initialised(m, m.LazyInit())
  {
  }

  lemma DescriptorsList(m: Module)
    ensures Lists(m.Descriptors(), m.methods)
  {
  }

  /** Whatever operations follow, a module is as it was given or has just what its provider makes. */
  lemma {:induction false} ModulesAreAsProvided(r: Registry, i: nat, d: Definition, ops: seq<Op>)
    requires IndexPoints(r) && i < |r.modules| && Given(r.modules[i], d)
    ensures var r' := ApplyAll(r, ops);
            i < |r'.modules| && r'.modules[i] in {r.modules[i], Filled(r.modules[i], d)}
  {
    RunExtends(r, ops);
    LazyInitInitialises(r.modules[i]);
  }

  /** Registration puts modules after those that are there, as they are. */
  lemma {:induction false} RegisteredAsGiven(r: Registry, added: seq<Module>)
    ensures Register(r, added).0.modules == r.modules + added
  {
    if r.modules == [] {
      assert r.modules + added == added;
    }
  }

  /** What a configuration says, read back: the name asked for, the provider's constants, and each of its methods. */
  ghost predicate Tells(config: seq<Dyn>, name: string, d: Definition) {
    && |config| >= 2 && |Column(config, 2)| == |d.methods|
    && Read(config).name == name && Read(config).constants == Obj(d.constants) && Lists(Read(config).methods, d.methods)
  }

  /**
   After any operations, a lookup that finds the module tells JavaScript all that its provider made, and nothing only
   if the provider made neither constants nor methods.
   */
  lemma {:induction false} ConfigTellsTheDefinition(
    r: Registry, i: nat, d: Definition, ops: seq<Op>, name: string, finder: Option<Finder>
  )
    requires IndexPoints(r) && i < |r.modules| && Given(r.modules[i], d)
    requires Find(ApplyAll(r, ops), name, finder).1 == ModuleRegistry.Found(i)
    ensures var (r', c) := GetConfig(ApplyAll(r, ops), name, finder);
            && NormalizeName(r.modules[i].name) == name
            && i < |r'.modules| && r'.modules[i] == Filled(r.modules[i], d)
            && (if d.methods == [] && d.constants == map[] then c == NoConfig
                else c.ModuleConfig? && c.index == i && Tells(c.config, name, d))
  {
    var r1 := ApplyAll(r, ops);
    ModulesAreAsProvided(r, i, d, ops);
    RunExtends(r, ops);
    FindExtends(r1, name, finder);
    var r2 := Find(r1, name, finder).0;
    LazyInitInitialises(r1.modules[i]);
    LazyInitInitialises(r2.modules[i]);
    var m := r2.modules[i].LazyInit();
    assert m == Filled(r.modules[i], d);
    ConfigReadsBack(name, m);
    DescriptorsList(m);
    ConfigIsMissingExactly(name, m);
  }

  lemma ConfigIsMissingExactly(name: string, m: Module)
    ensures Config(name, m).None? <==> m.methods == [] && (m.made.None? || m.made.value.constants == map[])
  {
  }

  /** A provider that makes nothing leaves a module without a configuration and without methods. */
  lemma {:induction false} NothingMadeTellsNothing(
    r: Registry, i: nat, ops: seq<Op>, name: string, finder: Option<Finder>
  )
    requires IndexPoints(r) && i < |r.modules| && r.modules[i] == Module(r.modules[i].name, Some(None), None, [])
    requires Find(ApplyAll(r, ops), name, finder).1 == ModuleRegistry.Found(i)
    ensures var (r', c) := GetConfig(ApplyAll(r, ops), name, finder);
            c == NoConfig && i < |r'.modules| && r'.modules[i].methods == [] && r'.modules[i].made == None
  {
    var r1 := ApplyAll(r, ops);
    RunExtends(r, ops);
    FindExtends(r1, name, finder);
    var r2 := Find(r1, name, finder).0;
    LazyInitInitialises(r.modules[i]);
    LazyInitInitialises(r1.modules[i]);
    LazyInitInitialises(r2.modules[i]);
    ConfigIsMissingExactly(name, r2.modules[i].LazyInit());
  }

  /** A configuration with an index was found there. */
  lemma {:induction false} ConfiguredIsFound(r: Registry, name: string, finder: Option<Finder>)
    requires GetConfig(r, name, finder).1.ModuleConfig?
    ensures Find(r, name, finder).1 == ModuleRegistry.Found(GetConfig(r, name, finder).1.index)
  {
  }

  /**
   End to end: of a module whose provider makes d, a call that JavaScript encodes from a configuration of it reaches method
   j of d, whatever happened before, in between and since, and is taken exactly if that method accepts the arguments; what
   is put on the queue is that method's function with these arguments and callback ids.
   */
  lemma {:induction false} CallsReachTheProvidedMethod(
    r: Registry, i: nat, d: Definition, before: seq<Op>, name: string, finder: Option<Finder>, after: seq<Op>,
    j: nat, calls: seq<QueuedCall>, callId: Option<int64>, k: nat
  )
    requires IndexPoints(r) && i < |r.modules| && Given(r.modules[i], d)
    requires var c := GetConfig(ApplyAll(r, before), name, finder).1; c.ModuleConfig? && c.index == i
    requires j < |d.methods| && i < 0x1_0000_0000 && j < 0x1_0000_0000
    requires k < |calls| && calls[k].moduleId == i && calls[k].methodId == j
    ensures var r'' := ApplyAll(GetConfig(ApplyAll(r, before), name, finder).0, after);
            var batch := Parse(EncodeBatch(calls, callId));
            && batch.Ok? && k < |batch.value|
            && var answer := CallNativeMethod(r'', batch.value[k]);
               && (answer.Ok? <==> Accepts(d.methods[j], calls[k].arguments))
               && (answer.Ok? ==> Carries(answer.value, d.methods[j], calls[k].arguments, batch.value[k].callId))
  {
    var r1 := ApplyAll(r, before);
    ConfiguredIsFound(r1, name, finder);
    ConfigTellsTheDefinition(r, i, d, before, name, finder);
    var r2 := GetConfig(r1, name, finder).0;
    RunExtends(r, before);
    ApplyExtends(r1, Configure(name, finder));
    RunExtends(r2, after);
    var r'' := ApplyAll(r2, after);
    var m := r''.modules[i];
    LazyInitInitialises(r2.modules[i]);
    assert m == Filled(r.modules[i], d);
    QueuedCallArrives(calls, callId, k);
    var call := Parse(EncodeBatch(calls, callId)).value[k];
    RoutedCall(r'', m, j, call);
    AcceptedExactly(m, j, call.arguments, call.callId);
  }

  /** And a synchronous call of method j runs its synchronous function on the arguments given, if it has one. */
  lemma {:induction false} HooksReachTheProvidedMethod(
    r: Registry, i: nat, d: Definition, before: seq<Op>, name: string, finder: Option<Finder>, after: seq<Op>, j: nat, args: Dyn
  )
    requires IndexPoints(r) && i < |r.modules| && Given(r.modules[i], d) && j < |d.methods|
    requires var c := GetConfig(ApplyAll(r, before), name, finder).1; c.ModuleConfig? && c.index == i
    ensures var r'' := ApplyAll(GetConfig(ApplyAll(r, before), name, finder).0, after);
            var answer := CallHook(r'', i, j, args);
            && (answer.Ok? <==> d.methods[j].syncFunc.Some?)
            && (answer.Ok? ==> answer.value == HookCall(d.methods[j].syncFunc.value, args))
  {
    var r1 := ApplyAll(r, before);
    ConfiguredIsFound(r1, name, finder);
    ConfigTellsTheDefinition(r, i, d, before, name, finder);
    var r2 := GetConfig(r1, name, finder).0;
    RunExtends(r, before);
    ApplyExtends(r1, Configure(name, finder));
    RunExtends(r2, after);
    var m := ApplyAll(r2, after).modules[i];
    LazyInitInitialises(r2.modules[i]);
    assert m == Filled(r.modules[i], d);
    HookedExactly(m, j, args);
  }

  // ---- names ----

  /** Exactly one prefix of the native platforms goes, if there is one. */
  lemma {:induction false} PrefixesGo(rest: string)
    ensures NormalizeName("RCT" + rest) == rest && NormalizeName("RK" + rest) == rest
  {
    assert ("RK" + rest)[1] == 'K';
  }

  lemma {:induction false} OtherNamesStay(name: string)
    ensures NormalizeName(name) == name <==> !("RCT" <= name) && !("RK" <= name)
  {
  }
}

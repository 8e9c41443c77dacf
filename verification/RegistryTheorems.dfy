/** The name index of the registry and its names known to be unknown, over whole runs. */
module RegistryTheorems {
  import opened Wrappers
  import opened ModuleRegistry

  // ---- the index is exact ----

  /** Over the first n modules, every name that occurs is mapped to the last index that bears it, and nothing else is mapped. */
  ghost predicate ExactUpTo(byName: map<string, nat>, modules: seq<Module>, n: nat) {
    && (forall i :: 0 <= i < n && i < |modules| ==> NormalizeName(modules[i].name) in byName)
    && (forall name :: name in byName ==> byName[name] < n && LastBearer(modules, byName[name], name, n))
  }

  ghost predicate LastBearer(modules: seq<Module>, i: nat, name: string, n: nat) {
    Bears(modules, i, name) && forall k :: i < k < n ==> !Bears(modules, k, name)
  }

  ghost predicate IndexRight(r: Registry) {
    r.byName == map[] || ExactUpTo(r.byName, r.modules, |r.modules|)
  }

  ghost predicate Registered(modules: seq<Module>, name: string) {
    exists i: nat :: Bears(modules, i, name)
  }

  ghost predicate UnknownApart(r: Registry) {
    forall name :: name in r.unknown ==> !Registered(r.modules, name)
  }

  ghost predicate Sound(r: Registry) {
    IndexRight(r) && UnknownApart(r)
  }

  lemma OneMoreName(byName: map<string, nat>, modules: seq<Module>, n: nat)
    requires n < |modules| && ExactUpTo(byName, modules, n)
    ensures ExactUpTo(byName[NormalizeName(modules[n].name) := n], modules, n + 1)
  {
  }

  lemma {:induction false} AddNamesIsExact(byName: map<string, nat>, modules: seq<Module>, from: nat)
    requires from <= |modules| && ExactUpTo(byName, modules, from)
    ensures ExactUpTo(AddNames(byName, modules, from), modules, |modules|)
    decreases |modules| - from
  {
    if from >= |modules| {
    } else {
      OneMoreName(byName, modules, from);
      AddNamesIsExact(byName[NormalizeName(modules[from].name) := from], modules, from + 1);
    }
  }

  lemma {:induction false} AddUnlessUnknownThrows(byName: map<string, nat>, modules: seq<Module>, from: nat, unknown: set<string>, addToNames: bool)
    requires from <= |modules|
    ensures var (names, threw) := AddUnlessUnknown(byName, modules, from, unknown, addToNames);
            && (threw <==> exists i :: from <= i < |modules| && NormalizeName(modules[i].name) in unknown)
            && (!threw ==> names == if addToNames then AddNames(byName, modules, from) else byName)
    decreases |modules| - from
  {
    if from >= |modules| {
    } else {
      var name := NormalizeName(modules[from].name);
      AddUnlessUnknownThrows(if addToNames then byName[name := from] else byName, modules, from + 1, unknown, addToNames);
    }
  }

  lemma {:induction false} ExactOnPrefix(byName: map<string, nat>, modules: seq<Module>, more: seq<Module>)
    requires ExactUpTo(byName, modules, |modules|)
    ensures ExactUpTo(byName, modules + more, |modules|)
  {
    forall name | name in byName
      ensures LastBearer(modules + more, byName[name], name, |modules|)
    {
      assert LastBearer(modules, byName[name], name, |modules|);
      assert forall k :: 0 <= k < |modules| ==> Bears(modules + more, k, name) == Bears(modules, k, name);
    }
  }

  /** registerModules throws exactly if it is given a name required before, and keeps the registry sound exactly if it does not throw. */
  lemma {:induction false} RegisterKeepsSound(r: Registry, added: seq<Module>)
    requires Sound(r)
    ensures var (r', threw) := Register(r, added);
            && (threw <==> exists name :: name in r.unknown && Registered(added, name))
            && (Sound(r') <==> !threw)
            && r'.modules == r.modules + added && r'.unknown == r.unknown
            && (!threw ==> (r'.byName == map[] <==> r.byName == map[] || |r.modules + added| == 0))
  {
    var (r', threw) := Register(r, added);
    var all := r.modules + added;
    if r.modules == [] && r.unknown == {} {
      assert r.modules + added == added;
    } else {
      AddUnlessUnknownThrows(r.byName, all, |r.modules|, r.unknown, r.byName != map[]);
      if r.byName != map[] {
        ExactOnPrefix(r.byName, r.modules, added);
        AddNamesIsExact(r.byName, all, |r.modules|);
        var name :| name in r.byName;
        assert LastBearer(r.modules, r.byName[name], name, |r.modules|);
        var kept := NormalizeName(all[r.byName[name]].name);
        assert kept in AddNames(r.byName, all, |r.modules|);
      }
      NewNamesAgainstUnknown(r, added);
    }
  }

  lemma {:induction false} NewNamesAgainstUnknown(r: Registry, added: seq<Module>)
    requires UnknownApart(r)
    ensures (exists i :: |r.modules| <= i < |r.modules + added| && NormalizeName((r.modules + added)[i].name) in r.unknown)
       <==> (exists name :: name in r.unknown && Registered(added, name))
    ensures (exists name :: name in r.unknown && Registered(added, name))
       <==> (exists name :: name in r.unknown && Registered(r.modules + added, name))
  {
    var all := r.modules + added;
    forall name | name in r.unknown && Registered(added, name)
      ensures exists i :: |r.modules| <= i < |all| && NormalizeName(all[i].name) in r.unknown
      ensures Registered(all, name)
    {
      var i: nat :| Bears(added, i, name);
      assert all[|r.modules| + i] == added[i];
      assert Bears(all, |r.modules| + i, name);
    }
    forall name | name in r.unknown && Registered(all, name)
      ensures Registered(added, name)
    {
      var i: nat :| Bears(all, i, name);
      assert i < |r.modules| ==> Bears(r.modules, i, name);
      assert i >= |r.modules| ==> Bears(added, i - |r.modules|, name);
    }
    forall i | |r.modules| <= i < |all| && NormalizeName(all[i].name) in r.unknown
      ensures Registered(added, NormalizeName(all[i].name))
    {
      assert Bears(added, i - |r.modules|, NormalizeName(all[i].name));
    }
  }

  // ---- lookups ----

  function AllOf(batches: seq<seq<Module>>): seq<Module> {
    if batches == [] then [] else batches[0] + AllOf(batches[1..])
  }

  lemma {:induction false} RegisterEachKeepsSound(r: Registry, batches: seq<seq<Module>>)
    requires Sound(r)
    ensures var (r', threw) := RegisterEach(r, batches);
            && (threw <==> exists name :: name in r.unknown && Registered(AllOf(batches), name))
            && (!threw ==>
                  && Sound(r') && r'.unknown == r.unknown && r'.modules == r.modules + AllOf(batches)
                  && (r'.byName == map[] <==> r.byName == map[] || r'.modules == []))
    decreases |batches|
  {
    if batches == [] {
      assert r.modules + [] == r.modules;
      if r.modules == [] {
        IndexEmptyWithoutModules(r);
      }
    } else {
      var (r1, threw) := Register(r, batches[0]);
      RegisterKeepsSound(r, batches[0]);
      RegisteredInEither(batches[0], AllOf(batches[1..]));
      if !threw {
        RegisterEachKeepsSound(r1, batches[1..]);
        assert r.modules + batches[0] + AllOf(batches[1..]) == r.modules + AllOf(batches);
      }
    }
  }

  lemma IndexEmptyWithoutModules(r: Registry)
    requires IndexRight(r) && r.modules == []
    ensures r.byName == map[]
  {
  }

  lemma {:induction false} RegisteredInEither(a: seq<Module>, b: seq<Module>)
    ensures forall name :: Registered(a + b, name) <==> Registered(a, name) || Registered(b, name)
  {
    forall name
      ensures Registered(a + b, name) <==> Registered(a, name) || Registered(b, name)
    {
      if Registered(a + b, name) {
        var i: nat :| Bears(a + b, i, name);
        assert if i < |a| then Bears(a, i, name) else Bears(b, i - |a|, name);
      }
      if Registered(a, name) {
        var i: nat :| Bears(a, i, name);
        assert Bears(a + b, i, name);
      }
      if Registered(b, name) {
        var i: nat :| Bears(b, i, name);
        assert Bears(a + b, |a| + i, name);
      }
    }
  }

  /** The callback is asked, for a name that is neither registered nor known to be unknown. */
  ghost predicate Asked(r: Registry, name: string, finder: Option<Finder>) {
    !Registered(r.modules, name) && name !in r.unknown && finder.Some?
  }

  /** The callback registers a module whose name was required before, so that its registration throws. */
  ghost predicate FinderThrows(r: Registry, finder: Finder) {
    exists name :: name in r.unknown && Registered(AllOf(finder.registers), name)
  }

  /** The callback registers the wanted module, but into an empty registry or without saying so. */
  ghost predicate FindIsLost(r: Registry, name: string, finder: Finder) {
    Registered(AllOf(finder.registers), name) && (r.modules == [] || !finder.answer)
  }

  lemma {:induction false} InitialisedIndex(r: Registry)
    requires Sound(r)
    ensures var r0 := Indexed(r);
            && Sound(r0) && r0.modules == r.modules && r0.unknown == r.unknown
            && (r0.byName == map[] <==> r.modules == [])
            && (forall name :: name in r0.byName <==> Registered(r.modules, name))
  {
    var r0 := Indexed(r);
    if r.byName == map[] && r.modules != [] {
      AddNamesIsExact(map[], r.modules, 0);
      assert NormalizeName(r.modules[0].name) in r0.byName;
    } else if r.modules == [] {
      IndexEmptyWithoutModules(r);
    }
    ExactMeansRegistered(r0);
  }

  lemma {:induction false} ExactMeansRegistered(r: Registry)
    requires ExactUpTo(r.byName, r.modules, |r.modules|)
    ensures forall name :: name in r.byName <==> Registered(r.modules, name)
  {
    forall name
      ensures name in r.byName <==> Registered(r.modules, name)
    {
      if name in r.byName {
        assert LastBearer(r.modules, r.byName[name], name, |r.modules|);
      }
      if Registered(r.modules, name) {
        var i: nat :| Bears(r.modules, i, name);
        assert NormalizeName(r.modules[i].name) in r.byName;
      }
    }
  }

  /** A lookup keeps the registry sound, exactly unless the callback is asked and throws or its find is lost. */
  lemma {:induction false} LookupKeepsSound(r: Registry, name: string, finder: Option<Finder>)
    requires Sound(r)
    ensures Sound(Find(r, name, finder).0)
            <==> !(Asked(r, name, finder) && (FinderThrows(r, finder.value) || FindIsLost(r, name, finder.value)))
  {
    InitialisedIndex(r);
    var r0 := Indexed(r);
    if Asked(r, name, finder) {
      RegisterEachKeepsSound(r0, finder.value.registers);
      var (r1, threw) := RegisterEach(r0, finder.value.registers);
      RegisteredInEither(r0.modules, AllOf(finder.value.registers));
      if threw {
        ThrowingRegistrationIsUnsound(r0, finder.value.registers);
      } else {
        if r1.byName != map[] {
          ExactMeansRegistered(r1);
        }
        if r1.modules == [] {
          IndexEmptyWithoutModules(r1);
        }
      }
    }
  }

  lemma {:induction false} ThrowingRegistrationIsUnsound(r: Registry, batches: seq<seq<Module>>)
    requires Sound(r) && RegisterEach(r, batches).1
    ensures !Sound(RegisterEach(r, batches).0)
    decreases |batches|
  {
    RegisterKeepsSound(r, batches[0]);
    var (r1, threw) := Register(r, batches[0]);
    if threw {
    } else {
      ThrowingRegistrationIsUnsound(r1, batches[1..]);
    }
  }

  /** The module found is the last that bears the name; a name is reported missing, and noted, only if none bears it. */
  ghost predicate AnswersRightly(r: Registry, name: string, lookup: Lookup) {
    match lookup
    case Found(i) => LastBearer(r.modules, i, name, |r.modules|)
    case NotThere => !Registered(r.modules, name) && name in r.unknown
    case Thrown => false
  }

  /** A lookup in a sound registry answers rightly, exactly unless its callback is asked and throws or loses its find. */
  lemma {:induction false} LookupIsRight(r: Registry, name: string, finder: Option<Finder>)
    requires Sound(r)
    ensures AnswersRightly(Find(r, name, finder).0, name, Find(r, name, finder).1)
       <==> !(Asked(r, name, finder) && (FinderThrows(r, finder.value) || FindIsLost(r, name, finder.value)))
  {
    LookupKeepsSound(r, name, finder);
    InitialisedIndex(r);
    var r0 := Indexed(r);
    if Asked(r, name, finder) {
      RegisterEachKeepsSound(r0, finder.value.registers);
      RegisteredInEither(r0.modules, AllOf(finder.value.registers));
    }
  }

  // ---- whole runs ----

  lemma {:induction false} SoundnessIsAboutNames(r: Registry, i: nat, m: Module)
    requires i < |r.modules| && m.name == r.modules[i].name
    ensures Sound(r.(modules := r.modules[i := m])) <==> Sound(r)
  {
    var r' := r.(modules := r.modules[i := m]);
    assert forall k: nat, name :: Bears(r'.modules, k, name) == Bears(r.modules, k, name);
    SameNamesSameSoundness(r, r');
    SameNamesSameSoundness(r', r);
  }

  lemma {:induction false} SameNamesSameSoundness(r: Registry, r': Registry)
    requires |r.modules| == |r'.modules| && r.byName == r'.byName && r.unknown == r'.unknown
    requires forall k :: 0 <= k < |r.modules| ==> r.modules[k].name == r'.modules[k].name
    ensures Sound(r) ==> Sound(r')
  {
    assert forall k: nat, name :: Bears(r'.modules, k, name) == Bears(r.modules, k, name);
    if Sound(r) {
      forall name | name in r'.byName
        ensures LastBearer(r'.modules, r'.byName[name], name, |r'.modules|)
      {
        assert LastBearer(r.modules, r.byName[name], name, |r.modules|);
      }
      forall name | name in r'.unknown
        ensures !Registered(r'.modules, name)
      {
        assert !Registered(r.modules, name);
        forall k: nat
          ensures !Bears(r'.modules, k, name)
        {
          assert !Bears(r.modules, k, name);
        }
      }
    }
  }

  /** Neither a registration that throws, nor a callback whose find is lost. */
  ghost predicate Safe(r: Registry, op: Op) {
    match op
    case RegisterModules(added) => !exists name :: name in r.unknown && Registered(added, name)
    case ModuleNames => true
    case Configure(name, finder) =>
      !(Asked(r, name, finder) && (FinderThrows(r, finder.value) || FindIsLost(r, name, finder.value)))
  }

  lemma {:induction false} StepIsSoundExactlyWhenSafe(r: Registry, op: Op)
    requires Sound(r)
    ensures Sound(Apply(r, op)) <==> Safe(r, op)
  {
    match op
    case RegisterModules(added) => RegisterKeepsSound(r, added);
    case ModuleNames => AddNamesFromScratch(r);
    case Configure(name, finder) =>
      LookupKeepsSound(r, name, finder);
      var (r1, lookup) := Find(r, name, finder);
      if lookup.Found? && lookup.index < |r1.modules| {
        SoundnessIsAboutNames(r1, lookup.index, r1.modules[lookup.index].LazyInit());
      }
  }

  /** Rebuilding the index over what it held before changes nothing it says. */
  lemma {:induction false} AddNamesFromScratch(r: Registry)
    requires Sound(r)
    ensures Sound(IndexAll(r))
  {
    OldEntriesAreOverwritten(r.byName, r.modules, 0);
  }

  ghost predicate Overwritable(byName: map<string, nat>, modules: seq<Module>, n: nat) {
    && n <= |modules|
    && (forall i :: 0 <= i < n ==> NormalizeName(modules[i].name) in byName)
    && (forall name :: name in byName ==> Bears(modules, byName[name], name))
    && (forall name :: name in byName ==> byName[name] >= n || LastBearer(modules, byName[name], name, n))
  }

  lemma {:induction false} OverwritingGoesOn(byName: map<string, nat>, modules: seq<Module>, n: nat)
    requires n < |modules| && Overwritable(byName, modules, n)
    ensures Overwritable(byName[NormalizeName(modules[n].name) := n], modules, n + 1)
  {
    var name := NormalizeName(modules[n].name);
    var next := byName[name := n];
    forall other | other in next
      ensures next[other] >= n + 1 || LastBearer(modules, next[other], other, n + 1)
    {
      if other != name && byName[other] <= n {
        assert Bears(modules, byName[other], other);
      }
    }
  }

  lemma {:induction false} OldEntriesAreOverwritten(byName: map<string, nat>, modules: seq<Module>, n: nat)
    requires Overwritable(byName, modules, n)
    requires forall name :: name in byName && byName[name] >= n ==> LastBearer(modules, byName[name], name, |modules|)
    ensures ExactUpTo(AddNames(byName, modules, n), modules, |modules|)
    decreases |modules| - n
  {
    if n >= |modules| {
    } else {
      var name := NormalizeName(modules[n].name);
      var next := byName[name := n];
      forall other | other in next && next[other] >= n + 1
        ensures LastBearer(modules, next[other], other, |modules|)
      {
        assert other != name;
      }
      OverwritingGoesOn(byName, modules, n);
      OldEntriesAreOverwritten(next, modules, n + 1);
    }
  }

  ghost predicate SafeThroughout(r: Registry, ops: seq<Op>)
    decreases |ops|
  {
    ops == [] || (Safe(r, ops[0]) && SafeThroughout(Apply(r, ops[0]), ops[1..]))
  }

  ghost predicate SoundThroughout(r: Registry, ops: seq<Op>)
    decreases |ops|
  {
    Sound(r) && (ops == [] || SoundThroughout(Apply(r, ops[0]), ops[1..]))
  }

  /** A registry is sound throughout a run exactly if no operation of it throws on registration or loses a find. */
  lemma {:induction false} SoundThroughoutExactly(r: Registry, ops: seq<Op>)
    requires Sound(r)
    ensures SoundThroughout(r, ops) <==> SafeThroughout(r, ops)
    decreases |ops|
  {
    if ops == [] {
    } else {
      StepIsSoundExactlyWhenSafe(r, ops[0]);
      if Safe(r, ops[0]) {
        SoundThroughoutExactly(Apply(r, ops[0]), ops[1..]);
      }
    }
  }

  lemma FreshRegistryIsSound(modules: seq<Module>)
    ensures Sound(Registry(modules, map[], {}))
  {
  }

  /** So is every registry from its construction on. */
  lemma {:induction false} SoundFromTheStartExactly(modules: seq<Module>, ops: seq<Op>)
    ensures SoundThroughout(Registry(modules, map[], {}), ops) <==> SafeThroughout(Registry(modules, map[], {}), ops)
  {
    FreshRegistryIsSound(modules);
    SoundThroughoutExactly(Registry(modules, map[], {}), ops);
  }

  /** A module whose name was required before, with no callback to bring it, cannot be registered any more; yet it stays. */
  lemma {:induction false} RequiredTooEarly(m: Module)
    ensures var name := NormalizeName(m.name);
            var r := Find(Registry([], map[], {}), name, None).0;
            var (r', threw) := Register(r, [m]);
            Sound(r) && threw && r'.modules == [m] && name in r'.unknown && !Sound(r')
  {
    var name := NormalizeName(m.name);
    var r := Find(Registry([], map[], {}), name, None).0;
    assert r == Registry([], map[], {name});
    var (r', threw) := Register(r, [m]);
    assert r'.modules == [m] && Bears(r'.modules, 0, name);
  }

  /** A callback that fills an empty registry: the module is there, yet the lookup reports it missing and brands its name unknown. */
  lemma {:induction false} FindInEmptyRegistryIsLost(m: Module)
    ensures var name := NormalizeName(m.name);
            var (r', lookup) := Find(Registry([], map[], {}), name, Some(Finder([[m]], true)));
            lookup.NotThere? && Registered(r'.modules, name) && name in r'.unknown && !Sound(r')
  {
    var name := NormalizeName(m.name);
    var (r', lookup) := Find(Registry([], map[], {}), name, Some(Finder([[m]], true)));
    assert RegisterEach(Registry([m], map[], {}), []) == (Registry([m], map[], {}), false);
    assert [[m]][1..] == [] && [[m]][0] == [m];
    assert r'.modules == [m] && Bears(r'.modules, 0, name);
  }
}

/** The cache of generated JavaScript module objects, which keeps every object it holds from being collected. */
module NativeModuleCache {
  import opened Wrappers

  type JsObject = nat

  /** How generating a module's object ends: JavaScript returns the object, or throws. */
  datatype Outcome = Made(obj: JsObject) | Failed

  /**
   One lookup, together with what JavaScript does if the code calls into it: looking up the generator function may run
   further lookups and yields the function or throws; so may the generator, if the registry knows the module's config.
   */
  datatype Lookup = Lookup(
    name: string,
    beforeGenerator: seq<Lookup>, generator: Outcome,
    configured: Option<bool>,
    beforeObject: seq<Lookup>, result: Outcome)

  /** A lookup finds an object, finds none, or throws. */
  datatype Answer = Found(obj: JsObject) | Missing | Thrown

  datatype Cache = Cache(protects: multiset<JsObject>, generator: Option<JsObject>, objects: map<string, JsObject>)

  // ---- what every cache keeps ----

  ghost function NamesOf(objects: map<string, JsObject>, o: JsObject): set<string> {
    set name | name in objects && objects[name] == o
  }

  ghost predicate BalancedAt(c: Cache, o: JsObject) {
    c.protects[o] == |NamesOf(c.objects, o)| + if c.generator == Some(o) then 1 else 0
  }

  /** Every protection is one entry's or the generator's. */
  ghost predicate Balanced(c: Cache) {
    forall o: JsObject :: BalancedAt(c, o)
  }

  /** Entries stay, with the same objects. */
  ghost predicate Grown(before: Cache, after: Cache) {
    forall name :: name in before.objects ==> name in after.objects && after.objects[name] == before.objects[name]
  }

  lemma {:induction false} Inserted(objects: map<string, JsObject>, name: string, obj: JsObject, o: JsObject)
    requires name !in objects
    ensures |NamesOf(objects[name := obj], o)| == |NamesOf(objects, o)| + if obj == o then 1 else 0
  {
    if obj == o {
      assert NamesOf(objects[name := obj], o) == NamesOf(objects, o) + {name};
    } else {
      assert NamesOf(objects[name := obj], o) == NamesOf(objects, o);
    }
  }

  /** The generator is replaced: the old one is let go of and the new one protected. */
  function SetGenerator(c: Cache, g: JsObject): Cache {
    var protects := if c.generator.Some? then c.protects - multiset{c.generator.value} else c.protects;
    c.(protects := protects + multiset{g}, generator := Some(g))
  }

  /** A new object is protected and kept, unless the name has got one meanwhile: then it is let go of again. */
  function Keep(c: Cache, name: string, obj: JsObject): Cache {
    if name in c.objects then c.(protects := c.protects + multiset{obj} - multiset{obj})
    else c.(protects := c.protects + multiset{obj}, objects := c.objects[name := obj])
  }

  lemma {:induction false} SetGeneratorKeeps(c: Cache, g: JsObject)
    requires Balanced(c)
    ensures Balanced(SetGenerator(c, g))
  {
    forall o: JsObject
      ensures BalancedAt(SetGenerator(c, g), o)
    {
      assert BalancedAt(c, o);
    }
  }

  lemma {:induction false} KeepKeeps(c: Cache, name: string, obj: JsObject)
    requires Balanced(c)
    ensures Balanced(Keep(c, name, obj)) && Grown(c, Keep(c, name, obj))
  {
    forall o: JsObject
      ensures BalancedAt(Keep(c, name, obj), o)
    {
      assert BalancedAt(c, o);
      if name !in c.objects {
        Inserted(c.objects, name, obj, o);
      }
    }
  }

  // ---- lookups as steps on the cache ----

  /** Makes sure of the generator function; false if looking it up threw. */
  function Prepare(c: Cache, l: Lookup): (Cache, bool)
    decreases l, 0
  {
    if c.generator.Some? then (c, true)
    else
      var c' := GetAll(c, l.beforeGenerator);
      if l.generator.Made? then (SetGenerator(c', l.generator.obj), true) else (c', false)
  }

  /** Without a config there is no object; a config that cannot be read, or a failing generator, throws. */
  function Create(c: Cache, l: Lookup): (Cache, Answer)
    decreases l, 1
  {
    var (c', ready) := Prepare(c, l);
    if !ready || l.configured.None? then (c', Thrown)
    else if !l.configured.value then (c', Missing)
    else (GetAll(c', l.beforeObject), if l.result.Made? then Found(l.result.obj) else Thrown)
  }

  function Get(c: Cache, l: Lookup): (Cache, Answer)
    decreases l, 2
  {
    if l.name in c.objects then (c, Found(c.objects[l.name]))
    else
      var (c', made) := Create(c, l);
      if made.Found? then
        var kept := Keep(c', l.name, made.obj);
        (kept, Found(kept.objects[l.name]))
      else (c', made)
  }

  function GetAll(c: Cache, ls: seq<Lookup>): Cache
    decreases ls, 3
  {
    if ls == [] then c else GetAll(Get(c, ls[0]).0, ls[1..])
  }

  /**
   However deep lookups re-enter the cache: protections match, no entry changes or goes, and a found object is the one
   the cache holds for the name.
   */
  lemma {:induction false} GetKeeps(c: Cache, l: Lookup)
    requires Balanced(c)
    ensures Balanced(Get(c, l).0) && Grown(c, Get(c, l).0)
    ensures var (c', a) := Get(c, l); a.Found? ==> l.name in c'.objects && c'.objects[l.name] == a.obj
    decreases l, 2
  {
    if l.name !in c.objects {
      CreateKeeps(c, l);
      var (c', made) := Create(c, l);
      if made.Found? {
        KeepKeeps(c', l.name, made.obj);
      }
    }
  }

  lemma {:induction false} CreateKeeps(c: Cache, l: Lookup)
    requires Balanced(c)
    ensures Balanced(Create(c, l).0) && Grown(c, Create(c, l).0)
    decreases l, 1
  {
    if c.generator.None? {
      GetAllKeeps(c, l.beforeGenerator);
      if l.generator.Made? {
        SetGeneratorKeeps(GetAll(c, l.beforeGenerator), l.generator.obj);
      }
    }
    var c' := Prepare(c, l).0;
    assert Balanced(c') && Grown(c, c');
    GetAllKeeps(c', l.beforeObject);
  }

  lemma {:induction false} GetAllKeeps(c: Cache, ls: seq<Lookup>)
    requires Balanced(c)
    ensures Balanced(GetAll(c, ls)) && Grown(c, GetAll(c, ls))
    decreases ls, 3
  {
    if ls == [] {
    } else {
      GetKeeps(c, ls[0]);
      GetAllKeeps(Get(c, ls[0]).0, ls[1..]);
    }
  }

  /** The generator function is there already, or the lookup gets it. */
  predicate HasGenerator(c: Cache, l: Lookup) {
    c.generator.Some? || l.generator.Made?
  }

  /** How a lookup ends: only with a config that is there, and a generator and an object made without throwing, is there one. */
  lemma AnsweredExactly(c: Cache, l: Lookup)
    ensures Get(c, l).1.Found? <==> l.name in c.objects || (HasGenerator(c, l) && l.configured == Some(true) && l.result.Made?)
    ensures Get(c, l).1 == Missing <==> l.name !in c.objects && HasGenerator(c, l) && l.configured == Some(false)
    ensures Get(c, l).1 == Thrown <==>
      l.name !in c.objects && (!HasGenerator(c, l) || l.configured == None || (l.configured == Some(true) && l.result.Failed?))
  {
    assert Prepare(c, l).1 == HasGenerator(c, l);
    var made := Create(c, l).1;
    assert made.Found? <==> HasGenerator(c, l) && l.configured == Some(true) && l.result.Made?;
  }

  /** A cached object is found without anything being done. */
  lemma CachedIsFound(c: Cache, l: Lookup)
    requires l.name in c.objects
    ensures Get(c, l) == (c, Found(c.objects[l.name]))
  {
  }

  /**
   The cache after a lookup that is not answered from it: what JavaScript looked up on the way, the generator in place
   once there is one, and the new object under its name, unless the name has got one on the way.
   */
  lemma {:induction false} LookupLeaves(c: Cache, l: Lookup)
    requires l.name !in c.objects && HasGenerator(c, l) && l.configured == Some(true) && l.result.Made?
    ensures var before := if c.generator.Some? then c else GetAll(c, l.beforeGenerator);
            var ready := if c.generator.Some? then c else SetGenerator(before, l.generator.obj);
            var made, after := GetAll(ready, l.beforeObject), Get(c, l).0;
      && ready.generator == (if c.generator.Some? then c.generator else Some(l.generator.obj)) && ready.objects == before.objects
      && after.generator == made.generator
      && after.objects == if l.name in made.objects then made.objects else made.objects[l.name := l.result.obj]
  {
    var ready := Prepare(c, l).0;
    assert Prepare(c, l).1;
    assert Create(c, l) == (GetAll(ready, l.beforeObject), Found(l.result.obj));
  }

  /** What JavaScript looks up on the way is looked up one after the other. */
  lemma {:induction false} OneLookupMore(c: Cache, ls: seq<Lookup>, l: Lookup)
    ensures GetAll(c, ls + [l]) == Get(GetAll(c, ls), l).0 && GetAll(c, []) == c
    decreases |ls|
  {
    if ls == [] {
      assert [] + [l] == [l] && [l][1..] == [];
    } else {
      OneLookupMore(Get(c, ls[0]).0, ls[1..], l);
      assert (ls + [l])[1..] == ls[1..] + [l];
    }
  }

  // ---- runs with resets ----

  datatype Event = LookUp(lookup: Lookup) | Reset

  const EMPTY := Cache(multiset{}, None, map[])

  function Run(es: seq<Event>): Cache {
    if es == [] then EMPTY
    else
      var c := Run(es[..|es| - 1]);
      match es[|es| - 1]
      case LookUp(l) => Get(c, l).0
      case Reset => EMPTY
  }

  /** Until the next reset an object that was found is found again. */
  lemma {:induction false} FoundAgain(es: seq<Event>, l: Lookup, again: seq<Lookup>, l': Lookup)
    requires Get(Run(es), l).1.Found? && l'.name == l.name
    ensures Get(Run(es + [LookUp(l)] + Events(again)), l').1 == Get(Run(es), l).1
    ensures l'.name !in Run(es + [Reset]).objects
  {
    ProtectsMatchEntries(es);
    GetKeeps(Run(es), l);
    assert (es + [LookUp(l)])[..|es|] == es && (es + [Reset])[..|es|] == es;
    RunGrows(es + [LookUp(l)], again);
  }

  function Events(ls: seq<Lookup>): (es: seq<Event>)
    ensures |es| == |ls|
  {
    seq(|ls|, i requires 0 <= i < |ls| => LookUp(ls[i]))
  }

  lemma {:induction false} RunGrows(es: seq<Event>, ls: seq<Lookup>)
    ensures Grown(Run(es), Run(es + Events(ls)))
    decreases |ls|
  {
    var n := |ls| - 1;
    if ls == [] {
      assert es + Events(ls) == es;
    } else {
      RunGrows(es, ls[..n]);
      ProtectsMatchEntries(es + Events(ls[..n]));
      GetKeeps(Run(es + Events(ls[..n])), ls[n]);
      assert (es + Events(ls))[..|es| + n] == es + Events(ls[..n]);
    }
  }

  lemma {:induction false} EmptyIsBalanced()
    ensures Balanced(EMPTY)
  {
    forall o: JsObject
      ensures BalancedAt(EMPTY, o)
    {
      assert NamesOf(EMPTY.objects, o) == {};
    }
  }

  /** At any time the cache's protections are one for each entry and one for the generator. */
  lemma {:induction false} ProtectsMatchEntries(es: seq<Event>)
    ensures Balanced(Run(es))
  {
    EmptyIsBalanced();
    if es == [] {
    } else {
      ProtectsMatchEntries(es[..|es| - 1]);
      if es[|es| - 1].LookUp? {
        GetKeeps(Run(es[..|es| - 1]), es[|es| - 1].lookup);
      }
    }
  }

  // ---- the code ----

  class JSCNativeModules {
    const hasRegistry: bool
    var generator: Option<JsObject>
    var objects: map<string, JsObject>
    /** The engine's protections made through this cache. */
    var protects: multiset<JsObject>

    ghost function State(): Cache
      reads this
    {
      Cache(protects, generator, objects)
    }

    constructor (hasRegistry: bool)
      ensures State() == EMPTY && Balanced(State()) && this.hasRegistry == hasRegistry
    {
      this.hasRegistry := hasRegistry;
      generator, objects, protects := None, map[], multiset{};
      new;
      EmptyIsBalanced();
    }

    method GetModule(l: Lookup) returns (answer: Answer)
      modifies this
      ensures (State(), answer) == if hasRegistry then Get(old(State()), l) else (old(State()), Missing)
      decreases l, 2
    {
      if !hasRegistry {
        return Missing;
      }
      if l.name in objects {
        return Found(objects[l.name]);
      }
      answer := CreateModule(l);
      if !answer.Found? {
        return;
      }
      protects := protects + multiset{answer.obj};
      if l.name in objects {
        protects := protects - multiset{answer.obj};
      } else {
        objects := objects[l.name := answer.obj];
      }
      answer := Found(objects[l.name]);
    }

    method CreateModule(l: Lookup) returns (answer: Answer)
      requires hasRegistry
      modifies this
      ensures (State(), answer) == Create(old(State()), l)
      decreases l, 1
    {
      if generator.None? {
        Reenter(l.beforeGenerator);
        if l.generator.Failed? {
          return Thrown;
        }
        if generator.Some? {
          protects := protects - multiset{generator.value};
        }
        generator := Some(l.generator.obj);
        protects := protects + multiset{l.generator.obj};
      }
      if l.configured.None? {
        return Thrown;
      }
      if !l.configured.value {
        return Missing;
      }
      Reenter(l.beforeObject);
      answer := if l.result.Made? then Found(l.result.obj) else Thrown;
    }

    /** What JavaScript looks up while the code has called into it. */
    method Reenter(ls: seq<Lookup>)
      requires hasRegistry
      modifies this
      ensures State() == GetAll(old(State()), ls)
      decreases ls, 3
    {
      if ls != [] {
        var answer := GetModule(ls[0]);
        Reenter(ls[1..]);
      }
    }

    /** Letting go of the generator and of every entry leaves no protection behind. */
    method Reset()
      requires Balanced(State())
      modifies this
      ensures State() == EMPTY
    {
      if generator.Some? {
        assert BalancedAt(State(), generator.value);
        forall o: JsObject
          ensures BalancedAt(Cache(protects - multiset{generator.value}, None, objects), o)
        {
          assert BalancedAt(State(), o);
        }
        protects := protects - multiset{generator.value};
        generator := None;
      }
      while objects != map[]
        invariant generator == None && Balanced(State())
        decreases |objects|
      {
        var name :| name in objects;
        var rest := objects - {name};
        EntryRemoved(State(), name);
        assert |rest| < |objects|;
        protects := protects - multiset{objects[name]};
        objects := rest;
      }
      forall o: JsObject
        ensures protects[o] == 0
      {
        assert BalancedAt(State(), o) && NamesOf(map[], o) == {};
      }
    }
  }

  lemma {:induction false} EntryRemoved(c: Cache, name: string)
    requires Balanced(c) && name in c.objects
    ensures Balanced(c.(protects := c.protects - multiset{c.objects[name]}, objects := c.objects - {name}))
  {
    var c' := c.(protects := c.protects - multiset{c.objects[name]}, objects := c.objects - {name});
    forall o: JsObject
      ensures BalancedAt(c', o)
    {
      assert BalancedAt(c, o);
      assert c'.objects[name := c.objects[name]] == c.objects;
      Inserted(c'.objects, name, c.objects[name], o);
    }
  }
}

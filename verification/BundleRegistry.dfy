/** The registry of bundles: bundles are loaded from their registered paths at first use and then kept. */
module BundleRegistry {
  import opened Wrappers
  import opened Dynamic
  import IndexedBundles

  type BundleId = x: int | 0 <= x < 0x1_0000_0000
  type ModuleId = x: int | 0 <= x < 0x1_0000_0000

  datatype Module = Module(name: string, code: string)

  /** A loaded bundle, as the modules it answers with; looking up any other id throws. */
  type Bundle = map<ModuleId, Module>

  datatype Error = NoFactory | NotRegistered | CannotLoad | NoModule

  const MAIN_BUNDLE_ID: BundleId := 0

  /** Loading a path gives a bundle or throws. Without a factory nothing can be loaded. */
  type Factory = Option<string -> Option<Bundle>>

  datatype Event = Register(id: BundleId, path: string) | Fetch(id: BundleId, moduleId: ModuleId)

  // ---- the reference: load afresh every time ----

  function FirstPath(es: seq<Event>, id: BundleId): Option<string> {
    if es == [] then None
    else
      var before := FirstPath(es[..|es| - 1], id);
      if before.None? && es[|es| - 1].Register? && es[|es| - 1].id == id then Some(es[|es| - 1].path) else before
  }

  function Load(main: Bundle, factory: Factory, es: seq<Event>, id: BundleId): Result<Bundle, Error> {
    if id == MAIN_BUNDLE_ID then Ok(main)
    else if factory.None? then Err(NoFactory)
    else if FirstPath(es, id).None? then Err(NotRegistered)
    else
      var b := factory.value(FirstPath(es, id).value);
      if b.None? then Err(CannotLoad) else Ok(b.value)
  }

  function SourceName(id: BundleId, name: string): string {
    if id == MAIN_BUNDLE_ID then name else "seg-" + Decimal(id) + "_" + name
  }

  function ModuleOf(id: BundleId, bundle: Bundle, moduleId: ModuleId): Result<Module, Error> {
    if moduleId !in bundle then Err(NoModule)
    else Ok(Module(SourceName(id, bundle[moduleId].name), bundle[moduleId].code))
  }

  /** The answer after a history, from scratch. */
  function Direct(main: Bundle, factory: Factory, es: seq<Event>, id: BundleId, moduleId: ModuleId): Result<Module, Error> {
    var bundle := Load(main, factory, es, id);
    if bundle.Err? then Err(bundle.error) else ModuleOf(id, bundle.value, moduleId)
  }

  // ---- the registry's state ----

  /** built lists the bundles loaded so far, in order. */
  datatype State = State(paths: map<BundleId, string>, bundles: map<BundleId, Bundle>, built: seq<BundleId>)

  function Initial(main: Bundle): State {
    State(map[], map[MAIN_BUNDLE_ID := main], [])
  }

  function Registered(s: State, id: BundleId, path: string): State {
    if id in s.paths then s else s.(paths := s.paths[id := path])
  }

  function Ensured(s: State, factory: Factory, id: BundleId): (State, Result<Bundle, Error>) {
    if id in s.bundles then (s, Ok(s.bundles[id]))
    else if factory.None? then (s, Err(NoFactory))
    else if id !in s.paths then (s, Err(NotRegistered))
    else
      var b := factory.value(s.paths[id]);
      if b.None? then (s, Err(CannotLoad))
      else (s.(bundles := s.bundles[id := b.value], built := s.built + [id]), Ok(b.value))
  }

  function Fetched(s: State, factory: Factory, id: BundleId, moduleId: ModuleId): (State, Result<Module, Error>) {
    var (s', b) := Ensured(s, factory, id);
    (s', if b.Err? then Err(b.error) else ModuleOf(id, b.value, moduleId))
  }

  function Step(s: State, factory: Factory, e: Event): State {
    match e
    case Register(id, path) => Registered(s, id, path)
    case Fetch(id, moduleId) => Fetched(s, factory, id, moduleId).0
  }

  function Run(main: Bundle, factory: Factory, es: seq<Event>): State {
    if es == [] then Initial(main) else Step(Run(main, factory, es[..|es| - 1]), factory, es[|es| - 1])
  }

  /** A kept bundle is what loading its first path would give; the main bundle is kept from the start, never built. */
  ghost predicate Caches(s: State, main: Bundle, factory: Factory, es: seq<Event>) {
    && (forall id: BundleId :: id in s.paths <==> FirstPath(es, id).Some?)
    && (forall id: BundleId :: id in s.paths ==> FirstPath(es, id) == Some(s.paths[id]))
    && MAIN_BUNDLE_ID in s.bundles
    && (forall id: BundleId :: id in s.bundles ==> Load(main, factory, es, id) == Ok(s.bundles[id]))
    && (forall id: BundleId :: id in s.built <==> id in s.bundles && id != MAIN_BUNDLE_ID)
    && (forall i, j :: 0 <= i < j < |s.built| ==> s.built[i] != s.built[j])
  }

  lemma {:induction false} LoadLasts(main: Bundle, factory: Factory, es: seq<Event>, e: Event, id: BundleId)
    requires Load(main, factory, es, id).Ok?
    ensures Load(main, factory, es + [e], id) == Load(main, factory, es, id)
  {
    assert (es + [e])[..|es|] == es;
  }

  lemma {:induction false} StepCaches(s: State, main: Bundle, factory: Factory, es: seq<Event>, e: Event)
    requires Caches(s, main, factory, es)
    ensures Caches(Step(s, factory, e), main, factory, es + [e])
  {
    assert (es + [e])[..|es|] == es;
    var s' := Step(s, factory, e);
    forall id: BundleId | id in s'.bundles
      ensures Load(main, factory, es + [e], id) == Ok(s'.bundles[id])
    {
      LoadLasts(main, factory, es, e, id);
    }
  }

  lemma {:induction false} RunExtends(main: Bundle, factory: Factory, es: seq<Event>, e: Event)
    ensures Run(main, factory, es + [e]) == Step(Run(main, factory, es), factory, e)
  {
    assert (es + [e])[..|es|] == es;
  }

  lemma {:induction false} RunCaches(main: Bundle, factory: Factory, es: seq<Event>)
    ensures Caches(Run(main, factory, es), main, factory, es)
  {
    if es == [] {
    } else {
      RunCaches(main, factory, es[..|es| - 1]);
      StepCaches(Run(main, factory, es[..|es| - 1]), main, factory, es[..|es| - 1], es[|es| - 1]);
      assert es[..|es| - 1] + [es[|es| - 1]] == es;
    }
  }

  /**
   After any registrations and lookups, a lookup answers as if the first path registered for its bundle were loaded
   afresh; each bundle has been built at most once, and the main bundle is the one given at the start.
   */
  lemma {:induction false} AnswersAsIfLoadedAfresh(main: Bundle, factory: Factory, es: seq<Event>, id: BundleId, moduleId: ModuleId)
    ensures var s := Run(main, factory, es);
      && Fetched(s, factory, id, moduleId).1 == Direct(main, factory, es, id, moduleId)
      && (forall i, j :: 0 <= i < j < |s.built| ==> s.built[i] != s.built[j])
      && MAIN_BUNDLE_ID !in s.built
      && MAIN_BUNDLE_ID in s.bundles && s.bundles[MAIN_BUNDLE_ID] == main
  {
    RunCaches(main, factory, es);
    var s := Run(main, factory, es);
    assert Load(main, factory, es, MAIN_BUNDLE_ID) == Ok(s.bundles[MAIN_BUNDLE_ID]);
  }

  /** A lookup builds its bundle if that can be loaded and is not there yet, and then keeps it: no later lookup builds it again. */
  lemma {:induction false} BuiltOnceAndKept(main: Bundle, factory: Factory, es: seq<Event>, id: BundleId, m: ModuleId)
    ensures var s, s' := Run(main, factory, es), Run(main, factory, es + [Fetch(id, m)]);
            var builds := id !in s.bundles && Load(main, factory, es, id).Ok?;
      && s'.built == (if builds then s.built + [id] else s.built)
      && (id in s'.bundles <==> Load(main, factory, es, id).Ok?)
      && s'.paths == s.paths
  {
    RunCaches(main, factory, es);
    RunExtends(main, factory, es, Fetch(id, m));
  }

  /** The first path wins: later registrations of the same bundle change nothing. */
  lemma {:induction false} FirstPathIsFirst(es: seq<Event>, id: BundleId, i: nat)
    requires i < |es| && es[i].Register? && es[i].id == id && forall j :: 0 <= j < i && es[j].Register? ==> es[j].id != id
    ensures FirstPath(es, id) == Some(es[i].path)
  {
    var n := |es| - 1;
    if i < n {
      FirstPathIsFirst(es[..n], id, i);
    } else {
      NoPathYet(es[..n], id);
    }
  }

  lemma {:induction false} NoPathYet(es: seq<Event>, id: BundleId)
    requires forall j :: 0 <= j < |es| && es[j].Register? ==> es[j].id != id
    ensures FirstPath(es, id) == None
  {
    if es == [] {
    } else {
      NoPathYet(es[..|es| - 1], id);
    }
  }

  /** Which error a lookup ends in, and what it answers with otherwise; the main bundle needs neither factory nor path. */
  lemma DirectExactly(main: Bundle, factory: Factory, es: seq<Event>, id: BundleId, m: ModuleId)
    ensures var r, path := Direct(main, factory, es, id, m), FirstPath(es, id);
            if id == MAIN_BUNDLE_ID then
              r == if m in main then Ok(main[m]) else Err(NoModule)
            else if factory.None? then r == Err(NoFactory)
            else if path.None? then r == Err(NotRegistered)
            else
              match factory.value(path.value)
              case None => r == Err(CannotLoad)
              case Some(b) =>
                if m in b then r == Ok(Module("seg-" + Decimal(id) + "_" + b[m].name, b[m].code)) else r == Err(NoModule)
    ensures MAIN_BUNDLE_ID == 0
  {
  }

  // ---- source names ----

  /** A run of digits before a mark that is no digit can be read back. */
  lemma {:induction false} DigitsEndAtMark(a: string, b: string, mark: char, restA: string, restB: string)
    requires AllDigits(a) && AllDigits(b) && !('0' <= mark <= '9')
    requires a + [mark] + restA == b + [mark] + restB
    ensures a == b && restA == restB
  {
    var s := a + [mark] + restA;
    assert s[|a|] == mark && s[|b|] == mark;
    assert forall k :: 0 <= k < |a| ==> s[k] == a[k];
    assert forall k :: 0 <= k < |b| ==> s[k] == b[k];
    assert |a| == |b|;
    assert s[..|a|] == a && s[..|b|] == b;
    assert s[|a| + 1..] == restA && s[|b| + 1..] == restB;
  }

  lemma {:induction false} FileNamesDiffer(a: ModuleId, b: ModuleId)
    requires FileName(a) == FileName(b)
    ensures a == b
  {
    DecimalReadsBack(a);
    DecimalReadsBack(b);
    assert FileName(a) == Decimal(a) + ['.'] + "js";
    assert FileName(b) == Decimal(b) + ['.'] + "js";
    DigitsEndAtMark(Decimal(a), Decimal(b), '.', "js", "js");
  }

  lemma {:induction false} Segment(digits: string, name: string)
    ensures var s := "seg-" + digits + "_" + name; s[0] == 's' && s[4..] == digits + ['_'] + name
  {
    var s := "seg-" + digits + "_" + name;
    assert |s[4..]| == |digits| + 1 + |name|;
    assert forall k :: 0 <= k < |digits| ==> s[4..][k] == digits[k];
    assert s[4..][|digits|] == '_';
    assert forall k :: 0 <= k < |name| ==> s[4..][|digits| + 1 + k] == name[k];
  }

  /** Names of the main bundle start with a digit, all others with the letter s. */
  lemma {:induction false} SourceNameParts(id: BundleId, m: ModuleId)
    ensures var name := SourceName(id, FileName(m));
      && |name| >= 4
      && (id == MAIN_BUNDLE_ID ==> '0' <= name[0] <= '9')
      && (id != MAIN_BUNDLE_ID ==> name[0] == 's' && name[4..] == Decimal(id) + ['_'] + FileName(m))
      && AllDigits(Decimal(id))
  {
    DecimalReadsBack(m);
    DecimalReadsBack(id);
    if id == MAIN_BUNDLE_ID {
      assert FileName(m)[0] == Decimal(m)[0];
    } else {
      Segment(Decimal(id), FileName(m));
    }
  }

  lemma {:induction false} SourceNamesDiffer(a: BundleId, m: ModuleId, b: BundleId, n: ModuleId)
    requires SourceName(a, FileName(m)) == SourceName(b, FileName(n))
    ensures a == b && m == n
  {
    SourceNameParts(a, m);
    SourceNameParts(b, n);
    if a != MAIN_BUNDLE_ID && b != MAIN_BUNDLE_ID {
      DigitsEndAtMark(Decimal(a), Decimal(b), '_', FileName(m), FileName(n));
      DecimalReadsBack(a);
      DecimalReadsBack(b);
    }
    FileNamesDiffer(m, n);
  }

  /** A bundle calls each module by its id, as every kind of bundle in the code does. */
  ghost predicate NamesByIds(b: Bundle) {
    forall m: ModuleId :: m in b ==> b[m].name == FileName(m)
  }

  ghost predicate AllNameByIds(main: Bundle, factory: Factory) {
    && NamesByIds(main)
    && (factory.Some? ==> forall path: string :: factory.value(path).Some? ==> NamesByIds(factory.value(path).value))
  }

  lemma {:induction false} LookupIsNamed(main: Bundle, factory: Factory, es: seq<Event>, id: BundleId, m: ModuleId)
    requires AllNameByIds(main, factory) && Fetched(Run(main, factory, es), factory, id, m).1.Ok?
    ensures Fetched(Run(main, factory, es), factory, id, m).1.value.name == SourceName(id, FileName(m))
  {
    AnswersAsIfLoadedAfresh(main, factory, es, id, m);
  }

  /** Two lookups, each after any history of the registry, that give the same source name looked up the same module. */
  lemma {:induction false} LookupsWithOneNameAreOfOneModule(
    main: Bundle, factory: Factory, es: seq<Event>, a: BundleId, m: ModuleId, fs: seq<Event>, b: BundleId, n: ModuleId
  )
    requires AllNameByIds(main, factory)
    requires var first, second :=
               Fetched(Run(main, factory, es), factory, a, m).1, Fetched(Run(main, factory, fs), factory, b, n).1;
             first.Ok? && second.Ok? && first.value.name == second.value.name
    ensures a == b && m == n
  {
    LookupIsNamed(main, factory, es, a, m);
    LookupIsNamed(main, factory, fs, b, n);
    SourceNamesDiffer(a, m, b, n);
  }

  /** An indexed bundle file as such a bundle. */
  function BundleOf(file: seq<IndexedBundles.byte>): Bundle
    requires IndexedBundles.IsComplete(file)
  {
    map m: ModuleId | 0 <= m < IndexedBundles.NumEntries(file) && IndexedBundles.CodeOf(file, m).Ok? ::
      Module(FileName(m), Text(IndexedBundles.CodeOf(file, m).value))
  }

  function Text(code: seq<IndexedBundles.byte>): string {
    seq(|code|, i requires 0 <= i < |code| => code[i] as char)
  }

  /** It answers every id as the file's reader does, and names its modules by their ids. */
  lemma {:induction false} IndexedBundleAnswers(file: seq<IndexedBundles.byte>, m: ModuleId)
    requires IndexedBundles.IsComplete(file)
    ensures NamesByIds(BundleOf(file))
    ensures m in BundleOf(file) <==> IndexedBundles.CodeOf(file, m).Ok?
    ensures m in BundleOf(file) ==> BundleOf(file)[m].code == Text(IndexedBundles.CodeOf(file, m).value)
  {
    if IndexedBundles.CodeOf(file, m).Ok? {
      assert m < IndexedBundles.NumEntries(file);
    }
  }

  /** Bundle files on a disk as a factory; a path without a complete file cannot be loaded. */
  function FactoryOf(files: map<string, seq<IndexedBundles.byte>>): Factory {
    Some(path => if path in files && IndexedBundles.IsComplete(files[path]) then Some(BundleOf(files[path])) else None)
  }

  /** What the code in a file is served as. */
  function FromFile(id: BundleId, file: seq<IndexedBundles.byte>, m: ModuleId): Result<Module, Error>
    requires IndexedBundles.IsComplete(file)
  {
    match IndexedBundles.CodeOf(file, m)
    case Ok(code) => Ok(Module(SourceName(id, FileName(m)), Text(code)))
    case Err(_) => Err(NoModule)
  }

  /**
   End to end: after any history, a lookup in a registry of bundle files serves the code at the module's entry in the
   file first registered for the bundle, under the bundle's and the module's ids.
   */
  lemma {:induction false} LookupReadsTheFile(
    main: seq<IndexedBundles.byte>, files: map<string, seq<IndexedBundles.byte>>, es: seq<Event>, id: BundleId, m: ModuleId
  )
    requires IndexedBundles.IsComplete(main)
    ensures var answer := Fetched(Run(BundleOf(main), FactoryOf(files), es), FactoryOf(files), id, m).1;
            if id == MAIN_BUNDLE_ID then answer == FromFile(id, main, m)
            else match FirstPath(es, id)
              case None => answer == Err(NotRegistered)
              case Some(path) =>
                if path in files && IndexedBundles.IsComplete(files[path]) then answer == FromFile(id, files[path], m)
                else answer == Err(CannotLoad)
  {
    AnswersAsIfLoadedAfresh(BundleOf(main), FactoryOf(files), es, id, m);
    IndexedBundleAnswers(main, m);
    var path := FirstPath(es, id);
    if path.Some? && path.value in files && IndexedBundles.IsComplete(files[path.value]) {
      IndexedBundleAnswers(files[path.value], m);
    }
  }

  // ---- the registry ----

  class RAMBundleRegistry {
    const factory: Factory
    ghost const main: Bundle
    var bundlePaths: map<BundleId, string>
    var bundles: map<BundleId, Bundle>
    ghost var built: seq<BundleId>
    ghost var history: seq<Event>

    ghost function View(): State
      reads this
    {
      State(bundlePaths, bundles, built)
    }

    ghost predicate Valid()
      reads this
    {
      View() == Run(main, factory, history)
    }

    constructor (mainBundle: Bundle, factory: Factory)
      ensures Valid() && history == [] && main == mainBundle && this.factory == factory
    {
      this.factory := factory;
      main := mainBundle;
      bundlePaths, bundles, built, history := map[], map[MAIN_BUNDLE_ID := mainBundle], [], [];
    }

    method RegisterBundle(id: BundleId, path: string)
      requires Valid()
      modifies this
      ensures Valid() && history == old(history) + [Register(id, path)]
    {
      if id !in bundlePaths {
        bundlePaths := bundlePaths[id := path];
      }
      RunExtends(main, factory, history, Register(id, path));
      history := history + [Register(id, path)];
    }

    method GetModule(id: BundleId, moduleId: ModuleId) returns (r: Result<Module, Error>)
      requires Valid()
      modifies this
      ensures Valid() && history == old(history) + [Fetch(id, moduleId)]
      ensures r == Direct(main, factory, old(history), id, moduleId)
    {
      AnswersAsIfLoadedAfresh(main, factory, history, id, moduleId);
      RunExtends(main, factory, history, Fetch(id, moduleId));
      history := history + [Fetch(id, moduleId)];
      if id !in bundles {
        if factory.None? {
          return Err(NoFactory);
        }
        if id !in bundlePaths {
          return Err(NotRegistered);
        }
        var loaded := factory.value(bundlePaths[id]);
        if loaded.None? {
          return Err(CannotLoad);
        }
        bundles := bundles[id := loaded.value];
        built := built + [id];
      }
      var bundle := bundles[id];
      if moduleId !in bundle {
        return Err(NoModule);
      }
      var found := bundle[moduleId];
      if id == MAIN_BUNDLE_ID {
        return Ok(found);
      }
      r := Ok(Module("seg-" + Decimal(id) + "_" + found.name, found.code));
    }
  }
}

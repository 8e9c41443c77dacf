/**
 Nested profiled sections on one thread. The code keeps one counter that only grows and charges each closing section
 the difference of two of its values; the reference is the tree of sections itself.
 */
module MicroProfiler {

  const LENGTH: nat := 2

  type Name = n: int | 0 <= n < LENGTH

  /** Nanoseconds in an unsigned 64-bit word; the clock may be set back, so differences wrap. */
  type Nanos = t: int | 0 <= t < 0x1_0000_0000_0000_0000

  function Wrapped(t: int): Nanos {
    t % 0x1_0000_0000_0000_0000
  }

  function DiffNs(start: Nanos, end: Nanos): Nanos {
    Wrapped(end - start)
  }

  lemma WrappedSum(a: int, b: int)
    ensures Wrapped(Wrapped(a) + b) == Wrapped(a + b)
  {
  }

  // ---- the code's state and steps ----

  datatype Section = Section(isProfiling: bool, name: Name, startTime: Nanos, startSections: int)

  /** The totals are indexed by name; the child counts are unbounded ints, so an underflow would show as negative. */
  datatype Thread = Thread(
    isProfiling: bool, profileSections: int, open: seq<Section>,
    times: seq<Nanos>, calls: seq<int>, children: seq<int>)
  {
    predicate WellFormed() {
      |times| == LENGTH && |calls| == LENGTH && |children| == LENGTH
    }
  }

  /** Open and Close are the section's constructor and destructor; Switch and Clear come from any thread. */
  datatype Event = Open(name: Name, now: Nanos) | Close(now: Nanos) | Switch(on: bool) | Clear

  /** A section closes only after it opened, the newest first, and clearing is refused while profiling. */
  predicate Allowed(t: Thread, e: Event) {
    match e
    case Close(_) => t.open != []
    case Clear => !t.isProfiling
    case _ => true
  }

  function AddTime(t: Thread, n: Name, time: Nanos, children: int): Thread
    requires t.WellFormed()
  {
    t.(times := t.times[n := Wrapped(t.times[n] + time)],
       calls := t.calls[n := t.calls[n] + 1],
       children := t.children[n := t.children[n] + children])
  }

  function Zeros(): seq<int> {
    seq(LENGTH, _ => 0)
  }

  function NoTime(): seq<Nanos> {
    seq(LENGTH, _ => 0)
  }

  function Step(t: Thread, e: Event): Thread
    requires Allowed(t, e) && t.WellFormed()
  {
    match e
    case Open(n, now) =>
      t.(profileSections := t.profileSections + (if t.isProfiling then 1 else 0),
         open := t.open + [Section(t.isProfiling, n, now, t.profileSections)])
    case Close(now) =>
      var s := t.open[|t.open| - 1];
      var rest := t.(open := t.open[..|t.open| - 1]);
      if !s.isProfiling || !t.isProfiling then rest
      else AddTime(rest, s.name, DiffNs(s.startTime, now), t.profileSections - s.startSections - 1)
    case Switch(on) => t.(isProfiling := on)
    case Clear => t.(times := NoTime(), calls := Zeros(), children := Zeros())
  }

  /**
   What closing a section adds to the totals: nothing unless it was opened and is closed with profiling on; then to its
   name, and no other, the time between the two readings, one call, and the sections counted in between.
   */
  ghost predicate Charges(t: Thread, t': Thread, now: Nanos)
    requires t.WellFormed() && t'.WellFormed() && t.open != []
  {
    var s := t.open[|t.open| - 1];
    if s.isProfiling && t.isProfiling then
      && t'.times[s.name] == (t.times[s.name] + (now - s.startTime)) % 0x1_0000_0000_0000_0000
      && t'.calls[s.name] == t.calls[s.name] + 1
      && t'.children[s.name] == t.children[s.name] + (t.profileSections - s.startSections - 1)
      && forall n: Name :: n != s.name ==>
           t'.times[n] == t.times[n] && t'.calls[n] == t.calls[n] && t'.children[n] == t.children[n]
    else t'.times == t.times && t'.calls == t.calls && t'.children == t.children
  }

  lemma {:induction false} ClosingCharges(t: Thread, now: Nanos)
    requires t.WellFormed() && t.open != []
    ensures Charges(t, Step(t, Close(now)), now)
  {
    var s := t.open[|t.open| - 1];
    if s.isProfiling && t.isProfiling {
      var total: int, elapsed: int := t.times[s.name], DiffNs(s.startTime, now);
      ChargeFits(t.times[s.name], s.startTime, now);
      assert Step(t, Close(now)).times[s.name] == Wrapped(total + elapsed);
    }
  }

  lemma ChargeFits(total: Nanos, start: Nanos, end: Nanos)
    ensures Wrapped(total + DiffNs(start, end)) == (total + (end - start)) % 0x1_0000_0000_0000_0000
  {
    WrappedSum(end - start, total);
  }

  function Fresh(): (t: Thread) {
    Thread(false, 0, [], NoTime(), Zeros(), Zeros())
  }

  // ---- the reference: the sections as a tree ----

  datatype Outcome = Uncounted | Counted(elapsed: Nanos)

  /** Closed sections, oldest first, each with the ones closed inside it. */
  datatype Forest = Empty | Then(before: Forest, name: Name, profiled: bool, outcome: Outcome, inside: Forest)

  /** The sections still open around the closed ones, outermost first. */
  datatype Nest = Outside(done: Forest) | Inside(outer: Nest, name: Name, profiled: bool, begun: Nanos, done: Forest)

  function Forgotten(f: Forest): Forest {
    match f
    case Empty => Empty
    case Then(before, n, p, _, inside) => Then(Forgotten(before), n, p, Uncounted, Forgotten(inside))
  }

  function ForgottenNest(z: Nest): Nest {
    match z
    case Outside(done) => Outside(Forgotten(done))
    case Inside(outer, n, p, b, done) => Inside(ForgottenNest(outer), n, p, b, Forgotten(done))
  }

  /** What an event does to the tree, knowing only whether profiling is on. */
  function Grow(z: Nest, isProfiling: bool, e: Event): Nest
    requires e.Close? ==> z.Inside?
  {
    match e
    case Open(n, now) => Inside(z, n, isProfiling, now, Empty)
    case Close(now) =>
      var outcome := if z.profiled && isProfiling then Counted(DiffNs(z.begun, now)) else Uncounted;
      z.outer.(done := Then(z.outer.done, z.name, z.profiled, outcome, z.done))
    case Switch(_) => z
    case Clear => ForgottenNest(z)
  }

  /** All sections of a forest, at any depth, and those of them that were profiled. */
  function Size(f: Forest): nat {
    match f
    case Empty => 0
    case Then(before, _, _, _, inside) => Size(before) + 1 + Size(inside)
  }

  function Profiled(f: Forest): nat {
    match f
    case Empty => 0
    case Then(before, _, p, _, inside) => Profiled(before) + (if p then 1 else 0) + Profiled(inside)
  }

  /** Over the counted sections of a name: how many, how long in all, and how many profiled sections inside them. */
  function Calls(f: Forest, n: Name): nat {
    match f
    case Empty => 0
    case Then(before, m, _, o, inside) =>
      Calls(before, n) + (if m == n && o.Counted? then 1 else 0) + Calls(inside, n)
  }

  function Time(f: Forest, n: Name): nat {
    match f
    case Empty => 0
    case Then(before, m, _, o, inside) =>
      Time(before, n) + (if m == n && o.Counted? then o.elapsed else 0) + Time(inside, n)
  }

  function Children(f: Forest, n: Name): nat {
    match f
    case Empty => 0
    case Then(before, m, _, o, inside) =>
      Children(before, n) + (if m == n && o.Counted? then Profiled(inside) else 0) + Children(inside, n)
  }

  function NestCalls(z: Nest, n: Name): nat {
    Calls(z.done, n) + if z.Inside? then NestCalls(z.outer, n) else 0
  }

  function NestTime(z: Nest, n: Name): nat {
    Time(z.done, n) + if z.Inside? then NestTime(z.outer, n) else 0
  }

  function NestChildren(z: Nest, n: Name): nat {
    Children(z.done, n) + if z.Inside? then NestChildren(z.outer, n) else 0
  }

  /** Over all closed sections of a name: how many, and how many sections strictly inside them. */
  function Closings(f: Forest, n: Name): nat {
    match f
    case Empty => 0
    case Then(before, m, _, _, inside) => Closings(before, n) + (if m == n then 1 else 0) + Closings(inside, n)
  }

  function StrictDescendants(f: Forest, n: Name): nat {
    match f
    case Empty => 0
    case Then(before, m, _, _, inside) =>
      StrictDescendants(before, n) + (if m == n then Size(inside) else 0) + StrictDescendants(inside, n)
  }

  function NestClosings(z: Nest, n: Name): nat {
    Closings(z.done, n) + if z.Inside? then NestClosings(z.outer, n) else 0
  }

  function NestDescendants(z: Nest, n: Name): nat {
    StrictDescendants(z.done, n) + if z.Inside? then NestDescendants(z.outer, n) else 0
  }

  // ---- the link between the two ----

  /** Each open section wrote down the counter as it stood when it opened; since then only profiled ones moved it. */
  ghost predicate Linked(z: Nest, open: seq<Section>, counter: int) {
    match z
    case Outside(_) => open == []
    case Inside(outer, n, p, b, done) =>
      && open != []
      && var s := open[|open| - 1];
      && s.name == n && s.isProfiling == p && s.startTime == b
      && counter == s.startSections + (if p then 1 else 0) + Profiled(done)
      && Linked(outer, open[..|open| - 1], s.startSections)
  }

  /** The three totals of one name agree with the tree. */
  ghost predicate TotalsAgree(t: Thread, z: Nest, n: Name)
    requires t.WellFormed()
  {
    t.times[n] == Wrapped(NestTime(z, n)) && t.calls[n] == NestCalls(z, n) && t.children[n] == NestChildren(z, n)
  }

  ghost predicate Tracks(t: Thread, z: Nest) {
    && t.WellFormed()
    && Linked(z, t.open, t.profileSections)
    && (forall n: Name :: t.times[n] == Wrapped(NestTime(z, n)))
    && (forall n: Name :: t.calls[n] == NestCalls(z, n))
    && (forall n: Name :: t.children[n] == NestChildren(z, n))
  }

  lemma {:induction false} ForgottenForest(f: Forest, n: Name)
    ensures Profiled(Forgotten(f)) == Profiled(f)
    ensures Calls(Forgotten(f), n) == Time(Forgotten(f), n) == Children(Forgotten(f), n) == 0
  {
    if f.Empty? {
    } else {
      ForgottenForest(f.before, n);
      ForgottenForest(f.inside, n);
    }
  }

  lemma {:induction false} ForgottenTotals(z: Nest, n: Name)
    ensures NestCalls(ForgottenNest(z), n) == NestTime(ForgottenNest(z), n) == NestChildren(ForgottenNest(z), n) == 0
  {
    ForgottenForest(z.done, n);
    if z.Outside? {
    } else {
      ForgottenTotals(z.outer, n);
    }
  }

  lemma {:induction false} ForgettingKeepsTheLink(z: Nest, open: seq<Section>, counter: int)
    requires Linked(z, open, counter)
    ensures Linked(ForgottenNest(z), open, counter)
  {
    if z.Outside? {
    } else {
      ForgottenForest(z.done, 0);
      ForgettingKeepsTheLink(z.outer, open[..|open| - 1], open[|open| - 1].startSections);
    }
  }

  lemma {:induction false} OpenTracks(t: Thread, z: Nest, e: Event)
    requires Tracks(t, z) && e.Open?
    ensures Tracks(Step(t, e), Grow(z, t.isProfiling, e))
  {
    var t', z' := Step(t, e), Grow(z, t.isProfiling, e);
    assert t'.open[..|t'.open| - 1] == t.open;
    forall n: Name
      ensures NestTime(z', n) == NestTime(z, n) && NestCalls(z', n) == NestCalls(z, n) && NestChildren(z', n) == NestChildren(z, n)
    {
    }
  }

  /** A closed section joins those closed at the level around it. */
  lemma {:induction false} ClosedJoins(z: Nest, outcome: Outcome, open: seq<Section>, counter: int)
    requires z.Inside? && Linked(z, open, counter)
    ensures Linked(z.outer.(done := Then(z.outer.done, z.name, z.profiled, outcome, z.done)), open[..|open| - 1], counter)
  {
    var outer := z.outer;
    var joined := outer.(done := Then(outer.done, z.name, z.profiled, outcome, z.done));
    assert Linked(outer, open[..|open| - 1], open[|open| - 1].startSections);
    if outer.Inside? {
      assert joined.outer == outer.outer;
    }
  }

  lemma {:induction false} CloseAddsToTotals(z: Nest, isProfiling: bool, e: Event, n: Name)
    requires z.Inside? && e.Close?
    ensures var z' := Grow(z, isProfiling, e);
      var mine := z.profiled && isProfiling && n == z.name;
      && NestTime(z', n) == NestTime(z, n) + (if mine then DiffNs(z.begun, e.now) else 0)
      && NestCalls(z', n) == NestCalls(z, n) + (if mine then 1 else 0)
      && NestChildren(z', n) == NestChildren(z, n) + (if mine then Profiled(z.done) else 0)
  {
  }

  lemma {:induction false} CloseLinks(t: Thread, z: Nest, e: Event)
    requires t.WellFormed() && Linked(z, t.open, t.profileSections) && e.Close? && Allowed(t, e)
    ensures z.Inside? && t.open[|t.open| - 1].isProfiling == z.profiled
    ensures t.open[|t.open| - 1].name == z.name && t.open[|t.open| - 1].startTime == z.begun
    ensures z.profiled ==> t.profileSections - t.open[|t.open| - 1].startSections - 1 == Profiled(z.done)
    ensures Linked(Grow(z, t.isProfiling, e), t.open[..|t.open| - 1], t.profileSections)
  {
    var counted := z.profiled && t.isProfiling;
    ClosedJoins(z, if counted then Counted(DiffNs(z.begun, e.now)) else Uncounted, t.open, t.profileSections);
  }

  /** The difference of the two counter values is one more than the profiled sections in between. */
  lemma {:induction false} CloseKeepsTotals(t: Thread, z: Nest, e: Event, n: Name)
    requires t.WellFormed() && Linked(z, t.open, t.profileSections) && e.Close? && Allowed(t, e)
    requires TotalsAgree(t, z, n)
    ensures z.Inside? && TotalsAgree(Step(t, e), Grow(z, t.isProfiling, e), n)
  {
    CloseLinks(t, z, e);
    CloseAddsToTotals(z, t.isProfiling, e, n);
    WrappedSum(NestTime(z, n), DiffNs(z.begun, e.now));
  }

  lemma {:induction false} CloseTracks(t: Thread, z: Nest, e: Event)
    requires Tracks(t, z) && e.Close? && Allowed(t, e)
    ensures z.Inside? && Tracks(Step(t, e), Grow(z, t.isProfiling, e))
  {
    CloseLinks(t, z, e);
    var t', z' := Step(t, e), Grow(z, t.isProfiling, e);
    forall n: Name
      ensures t'.times[n] == Wrapped(NestTime(z', n))
      ensures t'.calls[n] == NestCalls(z', n)
      ensures t'.children[n] == NestChildren(z', n)
    {
      CloseKeepsTotals(t, z, e, n);
    }
  }

  lemma {:induction false} StepTracks(t: Thread, z: Nest, e: Event)
    requires Tracks(t, z) && Allowed(t, e)
    ensures e.Close? ==> z.Inside?
    ensures Tracks(Step(t, e), Grow(z, t.isProfiling, e))
  {
    match e
    case Open(_, _) => OpenTracks(t, z, e);
    case Close(_) => CloseTracks(t, z, e);
    case Switch(_) =>
    case Clear =>
      ForgettingKeepsTheLink(z, t.open, t.profileSections);
      forall n: Name
        ensures NestCalls(ForgottenNest(z), n) == NestTime(ForgottenNest(z), n) == NestChildren(ForgottenNest(z), n) == 0
      {
        ForgottenTotals(z, n);
      }
  }

  // ---- whole runs ----

  ghost predicate CanRun(t: Thread, es: seq<Event>)
    requires t.WellFormed()
    decreases |es|
  {
    es == [] || (Allowed(t, es[0]) && CanRun(Step(t, es[0]), es[1..]))
  }

  ghost function Run(t: Thread, es: seq<Event>): Thread
    requires t.WellFormed() && CanRun(t, es)
    decreases |es|
  {
    if es == [] then t else Run(Step(t, es[0]), es[1..])
  }

  /** The tree that the same events grow. */
  ghost function Grown(t: Thread, z: Nest, es: seq<Event>): Nest
    requires Tracks(t, z) && CanRun(t, es)
    decreases |es|
  {
    if es == [] then z
    else
      StepTracks(t, z, es[0]);
      Grown(Step(t, es[0]), Grow(z, t.isProfiling, es[0]), es[1..])
  }

  lemma FreshTracks()
    ensures Tracks(Fresh(), Outside(Empty))
  {
  }

  lemma {:induction false} RunTracks(t: Thread, z: Nest, es: seq<Event>)
    requires Tracks(t, z) && CanRun(t, es)
    ensures Tracks(Run(t, es), Grown(t, z, es))
    decreases |es|
  {
    if es == [] {
    } else {
      StepTracks(t, z, es[0]);
      RunTracks(Step(t, es[0]), Grow(z, t.isProfiling, es[0]), es[1..]);
    }
  }

  /**
   However profiling is switched and cleared, each name's totals are those of its counted sections in the tree: their
   number, their time, and the profiled sections inside them. In particular no child count ever underflows.
   */
  lemma {:induction false} TotalsMatchTheTree(es: seq<Event>, n: Name)
    requires CanRun(Fresh(), es)
    ensures Tracks(Fresh(), Outside(Empty))
    ensures var t, z := Run(Fresh(), es), Grown(Fresh(), Outside(Empty), es);
      && t.WellFormed() && t.times[n] == Wrapped(NestTime(z, n))
      && t.calls[n] == NestCalls(z, n) && t.children[n] == NestChildren(z, n)
  {
    FreshTracks();
    RunTracks(Fresh(), Outside(Empty), es);
  }

  /** What each closing section is charged is not negative, whatever happened while it was open. */
  lemma {:induction false} ClosingNeverUnderflows(es: seq<Event>)
    requires CanRun(Fresh(), es)
    ensures var t := Run(Fresh(), es);
      t.open != [] && t.open[|t.open| - 1].isProfiling ==> t.profileSections - t.open[|t.open| - 1].startSections - 1 >= 0
  {
    FreshTracks();
    RunTracks(Fresh(), Outside(Empty), es);
  }

  // ---- profiling on throughout ----

  predicate OnlySections(es: seq<Event>) {
    forall i :: 0 <= i < |es| ==> es[i].Open? || es[i].Close?
  }

  /** Every section was profiled and every closed one counted. */
  predicate AllCounted(f: Forest) {
    f.Then? ==> f.profiled && f.outcome.Counted? && AllCounted(f.before) && AllCounted(f.inside)
  }

  predicate AllCountedNest(z: Nest) {
    AllCounted(z.done) && (z.Inside? ==> z.profiled && AllCountedNest(z.outer))
  }

  lemma {:induction false} CountedForest(f: Forest, n: Name)
    requires AllCounted(f)
    ensures Profiled(f) == Size(f) && Calls(f, n) == Closings(f, n) && Children(f, n) == StrictDescendants(f, n)
  {
    if f.Empty? {
    } else {
      CountedForest(f.before, n);
      CountedForest(f.inside, n);
    }
  }

  lemma {:induction false} CountedNest(z: Nest, n: Name)
    requires AllCountedNest(z)
    ensures NestCalls(z, n) == NestClosings(z, n) && NestChildren(z, n) == NestDescendants(z, n)
  {
    CountedForest(z.done, n);
    if z.Outside? {
    } else {
      CountedNest(z.outer, n);
    }
  }

  lemma {:induction false} SectionsAreAllCounted(t: Thread, z: Nest, es: seq<Event>)
    requires Tracks(t, z) && CanRun(t, es) && t.isProfiling && AllCountedNest(z) && OnlySections(es)
    ensures AllCountedNest(Grown(t, z, es))
    decreases |es|
  {
    if es == [] {
    } else {
      StepTracks(t, z, es[0]);
      SectionsAreAllCounted(Step(t, es[0]), Grow(z, true, es[0]), es[1..]);
    }
  }

  /** With profiling on throughout, a name's child count is the number of strict descendants of its closed sections. */
  lemma {:induction false} ChildrenAreStrictDescendants(es: seq<Event>, n: Name)
    requires OnlySections(es) && CanRun(Fresh().(isProfiling := true), es)
    ensures Tracks(Fresh().(isProfiling := true), Outside(Empty))
    ensures var start := Fresh().(isProfiling := true);
      var t, z := Run(start, es), Grown(start, Outside(Empty), es);
      t.WellFormed() && t.calls[n] == NestClosings(z, n) && t.children[n] == NestDescendants(z, n)
  {
    var start := Fresh().(isProfiling := true);
    RunTracks(start, Outside(Empty), es);
    SectionsAreAllCounted(start, Outside(Empty), es);
    CountedNest(Grown(start, Outside(Empty), es), n);
  }

  // ---- the tree is the run's own nesting ----

  datatype Bracket = Opening(name: Name) | Closing

  function BracketOf(e: Event): seq<Bracket> {
    match e
    case Open(n, _) => [Opening(n)]
    case Close(_) => [Closing]
    case _ => []
  }

  function Brackets(es: seq<Event>): seq<Bracket> {
    if es == [] then [] else BracketOf(es[0]) + Brackets(es[1..])
  }

  function Written(f: Forest): seq<Bracket> {
    match f
    case Empty => []
    case Then(before, n, _, _, inside) => Written(before) + ([Opening(n)] + Written(inside) + [Closing])
  }

  function WrittenNest(z: Nest): seq<Bracket> {
    match z
    case Outside(done) => Written(done)
    case Inside(outer, n, _, _, done) => WrittenNest(outer) + ([Opening(n)] + Written(done))
  }

  lemma {:induction false} ForgottenWrites(f: Forest)
    ensures Written(Forgotten(f)) == Written(f)
  {
    if f.Empty? {
    } else {
      ForgottenWrites(f.before);
      ForgottenWrites(f.inside);
    }
  }

  lemma {:induction false} ForgottenNestWrites(z: Nest)
    ensures WrittenNest(ForgottenNest(z)) == WrittenNest(z)
  {
    ForgottenWrites(z.done);
    if z.Outside? {
    } else {
      ForgottenNestWrites(z.outer);
    }
  }

  lemma {:induction false} CloseWrites(outer: Nest, name: Name, profiled: bool, outcome: Outcome, done: Forest)
    ensures WrittenNest(outer.(done := Then(outer.done, name, profiled, outcome, done)))
         == WrittenNest(outer) + ([Opening(name)] + Written(done)) + [Closing]
  {
    var inner := [Opening(name)] + Written(done) + [Closing];
    if outer.Inside? {
      Associates(WrittenNest(outer.outer), [Opening(outer.name)] + Written(outer.done), inner);
      Associates([Opening(outer.name)], Written(outer.done), inner);
    }
    Associates(WrittenNest(outer), [Opening(name)] + Written(done), [Closing]);
  }

  lemma {:induction false} GrowWrites(z: Nest, isProfiling: bool, e: Event)
    requires e.Close? ==> z.Inside?
    ensures WrittenNest(Grow(z, isProfiling, e)) == WrittenNest(z) + BracketOf(e)
  {
    match e
    case Open(n, _) =>
      assert [Opening(n)] + Written(Empty) == [Opening(n)];
    case Close(now) =>
      var outcome := if z.profiled && isProfiling then Counted(DiffNs(z.begun, now)) else Uncounted;
      CloseWrites(z.outer, z.name, z.profiled, outcome, z.done);
    case Switch(_) =>
    case Clear => ForgottenNestWrites(z);
  }

  lemma Associates(a: seq<Bracket>, b: seq<Bracket>, c: seq<Bracket>)
    ensures (a + b) + c == a + (b + c)
  {
  }

  /** The brackets of the tree are those of the run: the tree is the one nesting the run has. */
  lemma {:induction false} TreeIsTheNesting(t: Thread, z: Nest, es: seq<Event>)
    requires Tracks(t, z) && CanRun(t, es)
    ensures WrittenNest(Grown(t, z, es)) == WrittenNest(z) + Brackets(es)
    decreases |es|
  {
    if es == [] {
      assert Brackets(es) == [];
    } else {
      StepTracks(t, z, es[0]);
      GrowWrites(z, t.isProfiling, es[0]);
      var grown := Grow(z, t.isProfiling, es[0]);
      TreeIsTheNesting(Step(t, es[0]), grown, es[1..]);
      Associates(WrittenNest(z), BracketOf(es[0]), Brackets(es[1..]));
      assert Grown(t, z, es) == Grown(Step(t, es[0]), grown, es[1..]);
    }
  }
}

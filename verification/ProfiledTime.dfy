/**
 The profiler's totals of one name against a ledger kept from the events alone: it adds the difference of the clock
 readings of each section, and counts for each open section, one by one, the sections opened inside it.
 */
module ProfiledTime {
  import opened MicroProfiler

  /** An open section: its name, the reading it opened at, whether profiling was on then, and what was opened inside since. */
  datatype Frame = Frame(name: Name, begun: Nanos, profiled: bool, inside: nat)

  /** For one name: time that has not been reduced to a machine word, closed sections, and sections inside them. */
  datatype Ledger = Ledger(on: bool, open: seq<Frame>, time: int, calls: nat, children: nat)

  function OneMoreInside(open: seq<Frame>): (r: seq<Frame>)
    ensures |r| == |open|
  {
    seq(|open|, i requires 0 <= i < |open| => open[i].(inside := open[i].inside + 1))
  }

  /** A section counts if profiling was on when it opened and is on when it closes; clearing starts all over. */
  function Tell(l: Ledger, n: Name, e: Event): Ledger
    requires e.Close? ==> l.open != []
  {
    match e
    case Open(m, now) => l.(open := (if l.on then OneMoreInside(l.open) else l.open) + [Frame(m, now, l.on, 0)])
    case Close(now) =>
      var f := l.open[|l.open| - 1];
      var left := l.(open := l.open[..|l.open| - 1]);
      if f.profiled && l.on && f.name == n
      then left.(time := l.time + (now - f.begun), calls := l.calls + 1, children := l.children + f.inside)
      else left
    case Switch(on) => l.(on := on)
    case Clear => l.(time := 0, calls := 0, children := 0)
  }

  const NOTHING_TOLD := Ledger(false, [], 0, 0, 0)

  /** The two clock readings and the difference fit together, also where the clock was set back. */
  lemma DifferencesFit(start: Nanos, end: Nanos)
    ensures (start + DiffNs(start, end)) % 0x1_0000_0000_0000_0000 == end
    ensures start <= end ==> DiffNs(start, end) == end - start
  {
  }

  /** A machine word holds the sum of differences. */
  lemma SumsFit(word: Nanos, sum: int, more: int)
    requires word == sum % 0x1_0000_0000_0000_0000
    ensures (word + more) % 0x1_0000_0000_0000_0000 == (sum + more) % 0x1_0000_0000_0000_0000
  {
  }

  /** What the code wrote down of an open section, against the frame. */
  ghost predicate Fits(s: Section, f: Frame, counter: int) {
    && s.name == f.name && s.startTime == f.begun && s.isProfiling == f.profiled
    && counter == s.startSections + (if f.profiled then 1 else 0) + f.inside
  }

  ghost predicate Agrees(t: Thread, l: Ledger, n: Name) {
    && t.WellFormed() && t.isProfiling == l.on && |t.open| == |l.open|
    && (forall i :: 0 <= i < |t.open| ==> Fits(t.open[i], l.open[i], t.profileSections))
    && t.times[n] == l.time % 0x1_0000_0000_0000_0000 && t.calls[n] == l.calls && t.children[n] == l.children
  }

  lemma {:induction false} StepAgrees(t: Thread, l: Ledger, n: Name, e: Event)
    requires Agrees(t, l, n) && Allowed(t, e)
    ensures e.Close? ==> l.open != []
    ensures Agrees(Step(t, e), Tell(l, n, e), n)
  {
    match e
    case Open(_, _) => OpeningAgrees(t, l, n, e);
    case Close(_) => ClosingAgrees(t, l, n, e);
    case Switch(_) =>
    case Clear =>
  }

  lemma {:induction false} OpeningAgrees(t: Thread, l: Ledger, n: Name, e: Event)
    requires Agrees(t, l, n) && e.Open?
    ensures Agrees(Step(t, e), Tell(l, n, e), n)
  {
    var t', l' := Step(t, e), Tell(l, n, e);
    forall i | 0 <= i < |t'.open|
      ensures Fits(t'.open[i], l'.open[i], t'.profileSections)
    {
      if i < |t.open| {
        assert Fits(t.open[i], l.open[i], t.profileSections);
      }
    }
  }

  lemma {:induction false} ClosingAgrees(t: Thread, l: Ledger, n: Name, e: Event)
    requires Agrees(t, l, n) && Allowed(t, e) && e.Close?
    ensures l.open != [] && Agrees(Step(t, e), Tell(l, n, e), n)
  {
    var k := |t.open| - 1;
    var s, f := t.open[k], l.open[k];
    assert Fits(s, f, t.profileSections);
    ClosingCharges(t, e.now);
    var t', l' := Step(t, e), Tell(l, n, e);
    if f.profiled && l.on && f.name == n {
      assert t'.times[n] == (t.times[n] + (e.now - f.begun)) % 0x1_0000_0000_0000_0000;
      SumsFit(t.times[n], l.time, e.now - f.begun);
    }
    assert t'.times[n] == l'.time % 0x1_0000_0000_0000_0000;
  }

  ghost function Told(t: Thread, l: Ledger, n: Name, es: seq<Event>): Ledger
    requires Agrees(t, l, n) && CanRun(t, es)
    decreases |es|
  {
    if es == [] then l
    else
      StepAgrees(t, l, n, es[0]);
      Told(Step(t, es[0]), Tell(l, n, es[0]), n, es[1..])
  }

  lemma {:induction false} RunAgrees(t: Thread, l: Ledger, n: Name, es: seq<Event>)
    requires Agrees(t, l, n) && CanRun(t, es)
    ensures Agrees(Run(t, es), Told(t, l, n, es), n)
    decreases |es|
  {
    if es == [] {
    } else {
      StepAgrees(t, l, n, es[0]);
      RunAgrees(Step(t, es[0]), Tell(l, n, es[0]), n, es[1..]);
    }
  }

  /**
   However profiling is switched and cleared: a name's time is the sum of closing reading less opening reading over its
   counted sections, in a 64-bit word; its calls are their number, and its children the profiled sections opened in them.
   */
  lemma {:induction false} TotalsAreTold(es: seq<Event>, n: Name)
    requires CanRun(Fresh(), es)
    ensures Agrees(Fresh(), NOTHING_TOLD, n)
    ensures var t, l := Run(Fresh(), es), Told(Fresh(), NOTHING_TOLD, n, es);
      && t.WellFormed() && t.times[n] == l.time % 0x1_0000_0000_0000_0000
      && t.calls[n] == l.calls && t.children[n] == l.children
  {
    RunAgrees(Fresh(), NOTHING_TOLD, n, es);
  }
}

/** The profiler of one thread as the code keeps it: a counter, a stack of sections, three arrays, and the report. */
module Profilers {
  import opened MicroProfiler

  // ---- the report ----

  /** A name whose total is below its overhead is reported as an error; any other with its time and time per call. */
  datatype Line =
    | Overcharged(name: Name, total: int, overhead: int)
    | Timed(name: Name, corrected: int, calls: int, perCall: int)

  /** The overhead of a name's sections, in a 64-bit word. */
  function Overhead(clockOverhead: Nanos, sectionOverhead: Nanos, calls: int, children: int): Nanos {
    Wrapped(clockOverhead * calls + sectionOverhead * children)
  }

  /** What the report makes of one name's three counters. */
  datatype Entry = Skipped | Printed(line: Line) | DividedByZero

  function Report(n: Name, time: Nanos, calls: int, children: int, clockOverhead: Nanos, sectionOverhead: Nanos): Entry {
    if time == 0 then Skipped else Charged(n, time, calls, children, clockOverhead, sectionOverhead)
  }

  function Charged(n: Name, time: Nanos, calls: int, children: int, clockOverhead: Nanos, sectionOverhead: Nanos): Entry {
    var overhead := Overhead(clockOverhead, sectionOverhead, calls, children);
    if time < overhead then Printed(Overcharged(n, time, overhead))
    else if calls == 0 then DividedByZero
    else Printed(Timed(n, time - overhead, calls, (time - overhead) / calls))
  }

  /** What a line says of a name: its share of the overhead taken off, and the average rounded down. */
  predicate Accounts(l: Line, total: int, calls: int, children: int, clockOverhead: Nanos, sectionOverhead: Nanos) {
    var overhead := (clockOverhead * calls + sectionOverhead * children) % 0x1_0000_0000_0000_0000;
    match l
    case Overcharged(_, t, o) => t == total && o == overhead && total < overhead
    case Timed(_, corrected, c, perCall) =>
      && corrected + overhead == total && corrected >= 0 && c == calls
      && perCall * calls <= corrected < (perCall + 1) * calls
  }

  /** So it is with every entry that is printed; one is skipped exactly for a name without time. */
  lemma {:induction false} EntriesAccount(n: Name, time: Nanos, calls: nat, children: int, clockOverhead: Nanos, sectionOverhead: Nanos)
    ensures var e := Report(n, time, calls, children, clockOverhead, sectionOverhead);
      && (e == Skipped <==> time == 0)
      && (e.Printed? ==> e.line.name == n && Accounts(e.line, time, calls, children, clockOverhead, sectionOverhead))
  {
    var overhead := (clockOverhead * calls + sectionOverhead * children) % 0x1_0000_0000_0000_0000;
    if calls > 0 && time >= overhead {
      Averages(time - overhead, calls);
    }
  }

  /** Names in order, those without time left out. */
  function Reported(times: seq<Nanos>, n: nat): seq<Name>
    requires n <= |times| == LENGTH
  {
    if n == 0 then [] else Reported(times, n - 1) + if times[n - 1] > 0 then [n - 1] else []
  }

  /** So each name with time is there once, the names in order, and no other. */
  lemma {:induction false} ReportedExactly(times: seq<Nanos>, n: nat)
    requires n <= |times| == LENGTH
    ensures forall m: Name :: m in Reported(times, n) <==> m < n && times[m] > 0
    ensures forall i, j :: 0 <= i < j < |Reported(times, n)| ==> Reported(times, n)[i] < Reported(times, n)[j]
  {
    if n == 0 {
    } else {
      var before := Reported(times, n - 1);
      ReportedExactly(times, n - 1);
      if times[n - 1] > 0 {
        OneNameMore(before, n - 1);
        assert Reported(times, n) == before + [n - 1];
      } else {
        assert Reported(times, n) == before + [] == before;
      }
    }
  }

  lemma {:induction false} OneNameMore(names: seq<Name>, last: Name)
    requires forall m :: m in names ==> m < last
    requires forall i, j :: 0 <= i < j < |names| ==> names[i] < names[j]
    ensures forall m :: m in names + [last] <==> m in names || m == last
    ensures forall i, j :: 0 <= i < j < |names + [last]| ==> (names + [last])[i] < (names + [last])[j]
  {
    forall i | 0 <= i < |names|
      ensures names[i] < last
    {
      assert names[i] in names;
    }
  }

  ghost predicate IsLine(l: Line, n: Name, t: Thread, clockOverhead: Nanos, sectionOverhead: Nanos)
    requires t.WellFormed()
  {
    && Report(n, t.times[n], t.calls[n], t.children[n], clockOverhead, sectionOverhead) == Printed(l)
    && l.name == n
    && Accounts(l, t.times[n], t.calls[n], t.children[n], clockOverhead, sectionOverhead)
  }

  ghost predicate IsReport(lines: seq<Line>, names: seq<Name>, t: Thread, clockOverhead: Nanos, sectionOverhead: Nanos)
    requires t.WellFormed()
  {
    |lines| == |names| && forall i :: 0 <= i < |lines| ==> IsLine(lines[i], names[i], t, clockOverhead, sectionOverhead)
  }

  /** The average divides by the calls of a name with time, and no run leaves those at zero. */
  lemma {:induction false} TimeMeansCalls(f: Forest, n: Name)
    ensures Calls(f, n) == 0 ==> Time(f, n) == 0
  {
    if f.Empty? {
    } else {
      TimeMeansCalls(f.before, n);
      TimeMeansCalls(f.inside, n);
    }
  }

  lemma {:induction false} NestTimeMeansCalls(z: Nest, n: Name)
    ensures NestCalls(z, n) == 0 ==> NestTime(z, n) == 0
  {
    TimeMeansCalls(z.done, n);
    if z.Outside? {
    } else {
      NestTimeMeansCalls(z.outer, n);
    }
  }

  /** Whatever happened before, and whatever the overheads: no name's average divides by zero. */
  lemma {:induction false} ReportNeverDividesByZero(t: Thread, z: Nest, n: Name, clockOverhead: Nanos, sectionOverhead: Nanos)
    requires Tracks(t, z)
    ensures Report(n, t.times[n], t.calls[n], t.children[n], clockOverhead, sectionOverhead) != DividedByZero
    ensures t.times[n] > 0 ==> t.calls[n] > 0
  {
    NestTimeMeansCalls(z, n);
  }

  // ---- the calibration ----

  const CALIBRATION_CALLS: nat := 1_000_000

  /** The sections that the calibration opens and closes, of the first name, with their clock readings. */
  ghost function Calibrated(z: Nest, readings: seq<(Nanos, Nanos)>): Nest {
    if readings == [] then z
    else
      var last := readings[|readings| - 1];
      Grow(Grow(Calibrated(z, readings[..|readings| - 1]), true, Open(0, last.0)), true, Close(last.1))
  }

  lemma {:induction false} Averages(corrected: nat, calls: nat)
    requires calls > 0
    ensures corrected / calls * calls <= corrected < (corrected / calls + 1) * calls
  {
    assert corrected == corrected / calls * calls + corrected % calls;
  }

  // ---- the profiler ----

  lemma {:induction false} OneMoreReading(z: Nest, readings: seq<(Nanos, Nanos)>, i: nat)
    requires i < |readings|
    ensures Calibrated(z, readings[..i + 1])
         == Grow(Grow(Calibrated(z, readings[..i]), true, Open(0, readings[i].0)), true, Close(readings[i].1))
  {
    assert readings[..i + 1][..i] == readings[..i];
  }

  lemma OpenedAndClosed(t: Thread, n: Name, start: Nanos, end: Nanos)
    requires t.WellFormed() && t.isProfiling
    ensures var middle := Step(t, Open(n, start));
            && middle.WellFormed() && middle.open != []
            && var after := Step(middle, Close(end));
               after.open == t.open && after.profileSections == t.profileSections + 1
  {
    assert (t.open + [Section(true, n, start, t.profileSections)])[..|t.open|] == t.open;
  }

  class Profiler {
    var isProfiling: bool
    var profileSections: int
    var open: seq<Section>
    const times: array<Nanos>
    const calls: array<int>
    const children: array<int>
    var clockOverhead: Nanos
    var profileSectionOverhead: Nanos
    ghost var sections: Nest

    ghost function State(): Thread
      reads this, times, calls, children
    {
      Thread(isProfiling, profileSections, open, times[..], calls[..], children[..])
    }

    ghost predicate Valid()
      reads this, times, calls, children
    {
      calls != children && times.Length == LENGTH && Tracks(State(), sections)
    }

    constructor ()
      ensures Valid() && State() == Fresh() && sections == Outside(Empty)
      ensures fresh(times) && fresh(calls) && fresh(children)
    {
      isProfiling, profileSections, open := false, 0, [];
      times := new Nanos[LENGTH](_ => 0);
      calls := new int[LENGTH](_ => 0);
      children := new int[LENGTH](_ => 0);
      clockOverhead, profileSectionOverhead, sections := 0, 0, Outside(Empty);
      new;
      assert State() == Fresh();
      FreshTracks();
    }

    method OpenSection(name: Name, now: Nanos)
      requires Valid()
      modifies this`profileSections, this`open, this`sections
      ensures Valid() && State() == Step(old(State()), Open(name, now))
      ensures sections == Grow(old(sections), old(isProfiling), Open(name, now))
      ensures open == old(open) + [Section(isProfiling, name, now, old(profileSections))]
      ensures profileSections == old(profileSections) + if isProfiling then 1 else 0
    {
      StepTracks(State(), sections, Open(name, now));
      sections := Grow(sections, isProfiling, Open(name, now));
      open := open + [Section(isProfiling, name, now, profileSections)];
      if isProfiling {
        profileSections := profileSections + 1;
      }
    }

    /** The three counters of a name move together. */
    method AddTime(name: Name, time: Nanos, childSections: int)
      requires calls != children && State().WellFormed()
      modifies times, calls, children
      ensures State() == MicroProfiler.AddTime(old(State()), name, time, childSections)
      ensures times[name] == (old(times[name]) + time) % 0x1_0000_0000_0000_0000
      ensures calls[name] == old(calls[name]) + 1 && children[name] == old(children[name]) + childSections
      ensures forall n: Name :: n != name ==>
        times[n] == old(times[n]) && calls[n] == old(calls[n]) && children[n] == old(children[n])
    {
      times[name] := Wrapped(times[name] + time);
      calls[name] := calls[name] + 1;
      children[name] := children[name] + childSections;
    }

    method CloseSection(now: Nanos)
      requires Valid() && open != []
      modifies this`open, this`sections, times, calls, children
      ensures Valid() && State() == Step(old(State()), Close(now))
      ensures old(sections).Inside? && sections == Grow(old(sections), old(isProfiling), Close(now))
      ensures open == old(open)[..|old(open)| - 1] && Charges(old(State()), State(), now)
    {
      ClosingCharges(State(), now);
      StepTracks(State(), sections, Close(now));
      sections := Grow(sections, isProfiling, Close(now));
      var section := open[|open| - 1];
      open := open[..|open| - 1];
      if section.isProfiling && isProfiling {
        AddTime(section.name, DiffNs(section.startTime, now), profileSections - section.startSections - 1);
      }
    }

    /** Refused while profiling. */
    method ClearProfiling() returns (ok: bool)
      requires Valid()
      modifies this`sections, times, calls, children
      ensures Valid() && ok == !isProfiling
      ensures State() == if ok then Step(old(State()), Clear) else old(State())
      ensures sections == if ok then Grow(old(sections), isProfiling, Clear) else old(sections)
      ensures ok ==> forall n: Name :: times[n] == 0 && calls[n] == 0 && children[n] == 0
    {
      if isProfiling {
        return false;
      }
      ok := true;
      StepTracks(State(), sections, Clear);
      for i := 0 to LENGTH
        invariant times.Length == calls.Length == children.Length == LENGTH
        invariant sections == old(sections)
        invariant forall k :: 0 <= k < i ==> times[k] == 0 && calls[k] == 0 && children[k] == 0
      {
        times[i] := 0;
        calls[i] := 0;
        children[i] := 0;
      }
      assert times[..] == NoTime() && calls[..] == Zeros() && children[..] == Zeros();
      sections := Grow(sections, isProfiling, Clear);
    }

    method CalibrateOnce(reading: (Nanos, Nanos))
      requires Valid() && isProfiling
      modifies this`profileSections, this`open, this`sections, times, calls, children
      ensures Valid() && open == old(open) && profileSections == old(profileSections) + 1
      ensures sections == Grow(Grow(old(sections), true, Open(0, reading.0)), true, Close(reading.1))
    {
      OpenedAndClosed(State(), 0, reading.0, reading.1);
      OpenSection(0, reading.0);
      CloseSection(reading.1);
    }

    /** Profiles empty sections of the first name, as often as there are readings. */
    method CalculateProfileSectionOverhead(start: Nanos, end: Nanos, readings: seq<(Nanos, Nanos)>) returns (overhead: Nanos)
      requires Valid() && !isProfiling
      modifies this`isProfiling, this`profileSections, this`open, this`sections, times, calls, children
      ensures Valid() && !isProfiling && open == old(open) && sections == Calibrated(old(sections), readings)
      ensures profileSections == old(profileSections) + |readings|
      ensures overhead == (end - start) % 0x1_0000_0000_0000_0000 / 1_000_000
    {
      isProfiling := true;
      for i := 0 to |readings|
        invariant Valid() && isProfiling && open == old(open)
        invariant profileSections == old(profileSections) + i
        invariant sections == Calibrated(old(sections), readings[..i])
      {
        OneMoreReading(old(sections), readings, i);
        CalibrateOnce(readings[i]);
      }
      assert readings[..|readings|] == readings;
      isProfiling := false;
      overhead := DiffNs(start, end) / CALIBRATION_CALLS;
    }

    /**
     Refused while profiling. Otherwise measures the overheads, clears what that left, and profiling is on; the clock
     readings around the two measurements and of each calibrating section are given.
     */
    method StartProfiling(clock: (Nanos, Nanos), section: (Nanos, Nanos), readings: seq<(Nanos, Nanos)>) returns (ok: bool)
      requires Valid() && |readings| == CALIBRATION_CALLS
      modifies this, times, calls, children
      ensures Valid() && ok == !old(isProfiling)
      ensures !ok ==> State() == old(State()) && sections == old(sections)
      ensures !ok ==> clockOverhead == old(clockOverhead) && profileSectionOverhead == old(profileSectionOverhead)
      ensures ok ==> State() == Thread(true, old(profileSections) + CALIBRATION_CALLS, old(open), NoTime(), Zeros(), Zeros())
      ensures ok ==> sections == ForgottenNest(Calibrated(old(sections), readings))
      ensures ok ==> clockOverhead == (clock.1 - clock.0) % 0x1_0000_0000_0000_0000 / 1_000_000
      ensures ok ==> profileSectionOverhead == (section.1 - section.0) % 0x1_0000_0000_0000_0000 / 1_000_000
    {
      if isProfiling {
        return false;
      }
      clockOverhead := DiffNs(clock.0, clock.1) / CALIBRATION_CALLS;
      profileSectionOverhead := CalculateProfileSectionOverhead(section.0, section.1, readings);
      ok := ClearProfiling();
      isProfiling := true;
    }

    /** Refused unless profiling; otherwise reports what was collected and clears it. */
    method StopProfiling() returns (ok: bool, report: seq<Line>)
      requires Valid()
      modifies this`isProfiling, this`sections, times, calls, children
      ensures Valid() && ok == old(isProfiling)
      ensures State() == if ok then Step(Step(old(State()), Switch(false)), Clear) else old(State())
      ensures old(State()).WellFormed()
      ensures ok ==> IsReport(report, Reported(old(times[..]), LENGTH), old(State()), clockOverhead, profileSectionOverhead)
    {
      if !isProfiling {
        return false, [];
      }
      isProfiling := false;
      report := PrintReport();
      var cleared := ClearProfiling();
      ok := true;
    }

    method PrintReport() returns (report: seq<Line>)
      requires Valid()
      ensures State().WellFormed()
      ensures IsReport(report, Reported(times[..], LENGTH), State(), clockOverhead, profileSectionOverhead)
    {
      report := [];
      ghost var t := State();
      for i := 0 to LENGTH
        invariant IsReport(report, Reported(t.times, i), t, clockOverhead, profileSectionOverhead)
      {
        if times[i] > 0 {
          ReportNeverDividesByZero(t, sections, i, clockOverhead, profileSectionOverhead);
          var line := ReportLine(i);
          report := report + [line];
        }
      }
    }

    method ReportLine(name: Name) returns (line: Line)
      requires State().WellFormed() && times[name] > 0 && calls[name] > 0
      ensures IsLine(line, name, State(), clockOverhead, profileSectionOverhead)
    {
      var totalTime, n := times[name], calls[name];
      var overhead := Overhead(clockOverhead, profileSectionOverhead, n, children[name]);
      if totalTime < overhead {
        line := Overcharged(name, totalTime, overhead);
      } else {
        var corrected := totalTime - overhead;
        Averages(corrected, n);
        line := Timed(name, corrected, n, corrected / n);
      }
    }
  }

  // ---- the three updates one by one ----

  datatype Stage = Idle | TimeAdded | CallAdded

  /** One name's three counters, with another thread free to look at them between the updates of a closing section. */
  datatype Cell = Cell(time: Nanos, calls: nat, children: nat, stage: Stage)

  datatype Update = TimePart(time: Nanos) | CallPart | ChildPart(children: nat) | ClearAll

  predicate InOrder(c: Cell, u: Update) {
    match u
    case TimePart(_) => c.stage.Idle?
    case CallPart => c.stage.TimeAdded?
    case ChildPart(_) => c.stage.CallAdded?
    case ClearAll => true
  }

  function Apply(c: Cell, u: Update): Cell {
    match u
    case TimePart(time) => c.(time := Wrapped(c.time + time), stage := TimeAdded)
    case CallPart => c.(calls := c.calls + 1, stage := CallAdded)
    case ChildPart(n) => c.(children := c.children + n, stage := Idle)
    case ClearAll => c.(time := 0, calls := 0, children := 0)
  }

  function After(us: seq<Update>): Cell {
    if us == [] then Cell(0, 0, 0, Idle) else Apply(After(us[..|us| - 1]), us[|us| - 1])
  }

  predicate AllInOrder(us: seq<Update>) {
    us == [] || (AllInOrder(us[..|us| - 1]) && InOrder(After(us[..|us| - 1]), us[|us| - 1]))
  }

  predicate CallSinceClear(us: seq<Update>) {
    us != [] && !us[|us| - 1].ClearAll? && (us[|us| - 1].CallPart? || CallSinceClear(us[..|us| - 1]))
  }

  predicate EndsInTime(us: seq<Update>) {
    us != [] && us[|us| - 1].TimePart? && us[|us| - 1].time > 0
  }

  lemma {:induction false} CellFacts(us: seq<Update>)
    requires AllInOrder(us)
    ensures After(us).calls > 0 <==> CallSinceClear(us)
    ensures After(us).calls == 0 ==> (After(us).time > 0 <==> EndsInTime(us))
    ensures us != [] && us[|us| - 1].TimePart? ==> After(us).stage.TimeAdded?
  {
    if us == [] {
    } else {
      CellFacts(us[..|us| - 1]);
    }
  }

  ghost function ReportOf(c: Cell, clockOverhead: Nanos, sectionOverhead: Nanos): Entry {
    Report(0, c.time, c.calls, c.children, clockOverhead, sectionOverhead)
  }

  /**
   A report divides by zero exactly when the last update was the first of a closing section with a nonzero time, no call
   was counted since the last clear, and that time covers the overhead of the children a cleared section left behind.
   */
  lemma {:induction false} ReportRacesExactly(us: seq<Update>, clockOverhead: Nanos, sectionOverhead: Nanos)
    requires AllInOrder(us)
    ensures ReportOf(After(us), clockOverhead, sectionOverhead) == DividedByZero
       <==> EndsInTime(us) && !CallSinceClear(us) && After(us).time >= Wrapped(sectionOverhead * After(us).children)
  {
    CellFacts(us);
    if After(us).calls == 0 {
      assert clockOverhead * After(us).calls == 0;
    }
  }

  /** And it does so, whatever the overheads, when a first section has added its time but not its call. */
  lemma {:induction false} ReportCanRace(clockOverhead: Nanos, sectionOverhead: Nanos)
    ensures AllInOrder([TimePart(5)])
    ensures ReportOf(After([TimePart(5)]), clockOverhead, sectionOverhead) == DividedByZero
  {
    var us := [TimePart(5)];
    assert us[..0] == [];
    ReportRacesExactly(us, clockOverhead, sectionOverhead);
  }

  /** A section cut by a clear can leave children behind that turn the division into the error line. */
  lemma {:induction false} RaceMayMisreportInstead()
    ensures var us := [TimePart(5), CallPart, ClearAll, ChildPart(3), TimePart(5)];
      AllInOrder(us) && EndsInTime(us) && !CallSinceClear(us) && ReportOf(After(us), 1, 2) == Printed(Overcharged(0, 5, 6))
  {
    var us := [TimePart(5), CallPart, ClearAll, ChildPart(3), TimePart(5)];
    var us1 := [] + [TimePart(5)];
    var us2 := us1 + [CallPart];
    var us3 := us2 + [ClearAll];
    var us4 := us3 + [ChildPart(3)];
    OneMoreUpdate([], TimePart(5));
    OneMoreUpdate(us1, CallPart);
    OneMoreUpdate(us2, ClearAll);
    OneMoreUpdate(us3, ChildPart(3));
    OneMoreUpdate(us4, TimePart(5));
    assert us == us4 + [TimePart(5)];
    assert After(us) == Cell(5, 0, 3, TimeAdded);
  }

  lemma {:induction false} OneMoreUpdate(us: seq<Update>, u: Update)
    ensures After(us + [u]) == Apply(After(us), u)
    ensures AllInOrder(us + [u]) <==> AllInOrder(us) && InOrder(After(us), u)
    ensures CallSinceClear(us + [u]) <==> !u.ClearAll? && (u.CallPart? || CallSinceClear(us))
  {
    assert (us + [u])[..|us|] == us;
  }
  // ---- the report's reads one by one, too ----

  /**
   The report reads the time twice, then the calls, then the children, and other updates may come in between; a clear
   may not, as it waits for the lock that the report holds.
   */
  ghost function ReadOneByOne(
    us: seq<Update>, a: seq<Update>, b: seq<Update>, c: seq<Update>, clockOverhead: Nanos, sectionOverhead: Nanos
  ): Entry {
    if After(us).time == 0 then Skipped
    else Charged(0, After(us + a).time, After(us + a + b).calls, After(us + a + b + c).children, clockOverhead, sectionOverhead)
  }

  lemma {:induction false} BeginsInOrder(us: seq<Update>, more: seq<Update>)
    requires AllInOrder(us + more)
    ensures AllInOrder(us)
    decreases |more|
  {
    if more == [] {
      assert us + more == us;
    } else {
      var n := |more| - 1;
      assert us + more == us + more[..n] + [more[n]];
      OneMoreUpdate(us + more[..n], more[n]);
      BeginsInOrder(us, more[..n]);
    }
  }

  /** Whatever follows an update that left time behind counts a call first. */
  lemma {:induction false} NextCountsACall(us: seq<Update>, more: seq<Update>)
    requires AllInOrder(us + more) && ClearAll !in more && After(us).time > 0 && more != []
    ensures After(us + more).calls > 0
    decreases |more|
  {
    var n := |more| - 1;
    assert us + more == us + more[..n] + [more[n]] && more[n] in more;
    OneMoreUpdate(us + more[..n], more[n]);
    if n == 0 {
      assert us + more[..0] == us;
      CellFacts(us);
    } else {
      assert ClearAll !in more[..n];
      NextCountsACall(us, more[..n]);
    }
  }

  /**
   Even then a report divides by zero exactly when it reads time and calls between the first two updates of a closing
   section, with no call counted since the last clear and the time covering the overhead of the children read last.
   */
  lemma {:induction false} ReadsRaceExactly(
    us: seq<Update>, a: seq<Update>, b: seq<Update>, c: seq<Update>, clockOverhead: Nanos, sectionOverhead: Nanos
  )
    requires AllInOrder(us + a + b + c) && ClearAll !in a && ClearAll !in b
    ensures ReadOneByOne(us, a, b, c, clockOverhead, sectionOverhead) == DividedByZero
       <==> && EndsInTime(us) && !CallSinceClear(us) && a == [] && b == []
            && After(us).time >= Wrapped(sectionOverhead * After(us + c).children)
  {
    BeginsInOrder(us + a + b, c);
    assert us + a + b == us + (a + b);
    BeginsInOrder(us, a + b);
    CellFacts(us);
    if After(us).time > 0 && a + b != [] {
      NextCountsACall(us, a + b);
      assert a != [] || b != [];
    } else if a == [] && b == [] {
      assert us + a == us && us + a + b == us;
      if After(us).calls == 0 {
        assert clockOverhead * After(us).calls == 0;
      }
    }
  }
}

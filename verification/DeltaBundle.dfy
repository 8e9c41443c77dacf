/** The client of delta bundles: module code and startup code kept up to date by patches. */
module DeltaBundles {
  import opened Wrappers
  import opened Dynamic

  /** Keys are unsigned 32-bit; ids arrive as 64-bit integers and are narrowed. */
  type Key = x: int | 0 <= x < 0x1_0000_0000

  /** A module entry; no code means the module is removed. */
  datatype Entry = Entry(id: int64, code: Option<string>)

  /** A patch; sections and module list may be missing. */
  datatype Delta = Delta(reset: bool, pre: Option<seq<string>>, post: Option<seq<string>>, modules: Option<seq<Entry>>)

  datatype Module = Module(name: string, code: string)

  // ---- the reference: the history as single changes ----

  datatype Change = Cleared | Startup(code: string) | Put(key: Key, code: string) | Removed(key: Key)

  function Lines(section: seq<string>): string {
    if section == [] then "" else Lines(section[..|section| - 1]) + (section[|section| - 1] + "\n")
  }

  function SectionOf(s: Option<seq<string>>): seq<string> {
    if s.Some? then s.value else []
  }

  function ChangeOf(e: Entry): Change {
    if e.code.Some? then Put(ToUint32(e.id), e.code.value) else Removed(ToUint32(e.id))
  }

  function ChangesOf(es: seq<Entry>): seq<Change> {
    seq(|es|, i requires 0 <= i < |es| => ChangeOf(es[i]))
  }

  /** A patch first resets, then sets a startup code if either section has something, then changes modules in order. */
  function Changes(d: Delta): seq<Change> {
    (if d.reset then [Cleared] else [])
    + (if SectionOf(d.pre) != [] || SectionOf(d.post) != [] then [Startup(Lines(SectionOf(d.pre) + SectionOf(d.post)))] else [])
    + (if d.modules.Some? then ChangesOf(d.modules.value) else [])
  }

  function History(ds: seq<Delta>): seq<Change> {
    if ds == [] then [] else History(ds[..|ds| - 1]) + Changes(ds[|ds| - 1])
  }

  predicate Takes(c: Change, key: Key) {
    c.Cleared? || c == Removed(key)
  }

  /** The entry at i is the first for its key since the key was last taken away. */
  ghost predicate FirstSince(h: seq<Change>, key: Key, i: nat) {
    && i < |h| && h[i].Put? && h[i].key == key
    && (forall j :: i < j < |h| ==> !Takes(h[j], key))
    && (forall j :: 0 <= j < i && h[j].Put? && h[j].key == key ==> exists k :: j < k < i && Takes(h[k], key))
  }

  // ---- the client's state ----

  datatype State = State(modules: map<Key, string>, startup: string)

  const EMPTY := State(map[], "")

  /** An entry for a key that is there changes nothing. */
  function Apply(s: State, c: Change): State {
    match c
    case Cleared => EMPTY
    case Startup(code) => s.(startup := code)
    case Put(key, code) => if key in s.modules then s else s.(modules := s.modules[key := code])
    case Removed(key) => s.(modules := s.modules - {key})
  }

  function ApplyAll(s: State, h: seq<Change>): State {
    if h == [] then s else Apply(ApplyAll(s, h[..|h| - 1]), h[|h| - 1])
  }

  lemma {:induction false} ApplyJoined(s: State, a: seq<Change>, b: seq<Change>)
    ensures ApplyAll(s, a + b) == ApplyAll(ApplyAll(s, a), b)
  {
    if b == [] {
      assert a + b == a;
    } else {
      ApplyJoined(s, a, b[..|b| - 1]);
      assert (a + b)[..|a + b| - 1] == a + b[..|b| - 1];
    }
  }

  /** Every entry for the key was followed by something that takes the key away. */
  ghost predicate AllTaken(h: seq<Change>, key: Key) {
    forall j: nat :: j < |h| && h[j].Put? && h[j].key == key ==> TakenAfter(h, key, j)
  }

  ghost predicate TakenAfter(h: seq<Change>, key: Key, j: nat) {
    exists k: nat :: j < k < |h| && Takes(h[k], key)
  }

  lemma {:induction false} TakenStays(h: seq<Change>, c: Change, key: Key, j: nat)
    requires TakenAfter(h, key, j)
    ensures TakenAfter(h + [c], key, j)
  {
    var k: nat :| j < k < |h| && Takes(h[k], key);
    assert Takes((h + [c])[k], key);
  }

  lemma {:induction false} FirstStays(h: seq<Change>, c: Change, key: Key, i: nat)
    requires FirstSince(h, key, i) && !Takes(c, key)
    ensures FirstSince(h + [c], key, i)
  {
    var g := h + [c];
    forall j: nat | j < i && g[j].Put? && g[j].key == key
      ensures exists k :: j < k < i && Takes(g[k], key)
    {
      var k :| j < k < i && Takes(h[k], key);
      assert Takes(g[k], key);
    }
  }

  lemma {:induction false} NewFirst(h: seq<Change>, code: string, key: Key)
    requires AllTaken(h, key)
    ensures FirstSince(h + [Put(key, code)], key, |h|)
  {
    var g := h + [Put(key, code)];
    forall j: nat | j < |h| && g[j].Put? && g[j].key == key
      ensures exists k :: j < k < |h| && Takes(g[k], key)
    {
      assert TakenAfter(h, key, j);
      var k: nat :| j < k < |h| && Takes(h[k], key);
      assert Takes(g[k], key);
    }
  }

  lemma {:induction false} TakenNow(h: seq<Change>, c: Change, key: Key)
    requires Takes(c, key)
    ensures AllTaken(h + [c], key)
  {
    forall j: nat | j < |h|
      ensures TakenAfter(h + [c], key, j)
    {
      assert Takes((h + [c])[|h|], key);
    }
  }

  lemma {:induction false} AllStayTaken(h: seq<Change>, c: Change, key: Key)
    requires AllTaken(h, key) && !(c.Put? && c.key == key)
    ensures AllTaken(h + [c], key)
  {
    forall j: nat | j < |h| && h[j].Put? && h[j].key == key
      ensures TakenAfter(h + [c], key, j)
    {
      TakenStays(h, c, key, j);
    }
  }

  /** Whether a key is there, and the index of the entry it got its code from. */
  lemma {:induction false} Source(h: seq<Change>, key: Key) returns (i: nat)
    ensures var m := ApplyAll(EMPTY, h).modules;
      if key in m then FirstSince(h, key, i) && m[key] == h[i].code else AllTaken(h, key)
  {
    i := 0;
    if h == [] {
    } else {
      var n := |h| - 1;
      i := Source(h[..n], key);
      assert h[..n] + [h[n]] == h;
      if Takes(h[n], key) {
        TakenNow(h[..n], h[n], key);
      } else if key in ApplyAll(EMPTY, h[..n]).modules {
        FirstStays(h[..n], h[n], key, i);
      } else if h[n].Put? && h[n].key == key {
        NewFirst(h[..n], h[n].code, key);
        i := n;
      } else {
        AllStayTaken(h[..n], h[n], key);
      }
    }
  }

  lemma FirstIsNotTaken(h: seq<Change>, key: Key, i: nat)
    requires FirstSince(h, key, i)
    ensures !TakenAfter(h, key, i) && !AllTaken(h, key)
  {
  }

  lemma OnlyOneFirst(h: seq<Change>, key: Key, i: nat, j: nat)
    requires FirstSince(h, key, i) && FirstSince(h, key, j)
    ensures i == j
  {
  }

  /** The first entry for a key since it was last taken away has this code. */
  ghost predicate FirstCode(h: seq<Change>, key: Key, code: string) {
    exists i: nat :: FirstSince(h, key, i) && h[i].code == code
  }

  /**
   After any patches a key is there with a code exactly if that is the code of its first entry since the last reset or
   removal; later entries change nothing.
   */
  lemma {:induction false} FirstEntrySinceWins(ds: seq<Delta>, key: Key, code: string)
    ensures var m := ApplyAll(EMPTY, History(ds)).modules;
      key in m && m[key] == code <==> FirstCode(History(ds), key, code)
  {
    FirstSinceWins(History(ds), key, code);
  }

  lemma {:induction false} FirstSinceWins(h: seq<Change>, key: Key, code: string)
    ensures var m := ApplyAll(EMPTY, h).modules;
      key in m && m[key] == code <==> FirstCode(h, key, code)
  {
    var i := Source(h, key);
    if FirstCode(h, key, code) {
      var j: nat :| FirstSince(h, key, j) && h[j].code == code;
      FirstIsNotTaken(h, key, j);
      OnlyOneFirst(h, key, i, j);
    }
  }

  predicate Touches(c: Change, key: Key) {
    Takes(c, key) || (c.Put? && c.key == key)
  }

  lemma {:induction false} UntouchedStays(s: State, after: seq<Change>, key: Key)
    requires forall j :: 0 <= j < |after| ==> !Touches(after[j], key)
    ensures key in ApplyAll(s, after).modules <==> key in s.modules
    ensures key in s.modules ==> ApplyAll(s, after).modules[key] == s.modules[key]
  {
    if after == [] {
    } else {
      UntouchedStays(s, after[..|after| - 1], key);
    }
  }

  /**
   The code of the last entry for a key is served exactly if no code for the key was left from before, or if that one is
   the same.
   */
  lemma {:induction false} LastEntryIsServedExactly(before: seq<Change>, key: Key, code: string, after: seq<Change>)
    requires forall j :: 0 <= j < |after| ==> !Touches(after[j], key)
    ensures var m := ApplyAll(EMPTY, before + [Put(key, code)] + after).modules;
      key in m && (m[key] == code <==> forall kept :: FirstCode(before, key, kept) ==> kept == code)
  {
    var s := ApplyAll(EMPTY, before);
    var t := Apply(s, Put(key, code));
    ApplyOne(EMPTY, before, Put(key, code));
    ApplyJoined(EMPTY, before + [Put(key, code)], after);
    UntouchedStays(t, after, key);
    forall kept
      ensures key in s.modules && s.modules[key] == kept <==> FirstCode(before, key, kept)
    {
      FirstSinceWins(before, key, kept);
    }
    if key in s.modules {
      assert FirstCode(before, key, s.modules[key]);
    }
  }

  function PatchOf(id: int64, code: string): Delta {
    Delta(false, None, None, Some([Entry(id, Some(code))]))
  }

  lemma {:induction false} OneEntryPatch(ds: seq<Delta>, id: int64, code: string)
    ensures History(ds + [PatchOf(id, code)]) == History(ds) + [Put(ToUint32(id), code)]
  {
    var d := PatchOf(id, code);
    assert (ds + [d])[..|ds|] == ds;
    assert Changes(d) == [Put(ToUint32(id), code)];
  }

  lemma {:induction false} ApplyOne(s: State, h: seq<Change>, c: Change)
    ensures ApplyAll(s, h + [c]) == Apply(ApplyAll(s, h), c)
  {
    assert (h + [c])[..|h|] == h;
  }

  /** Two patches that give a module one code and then another leave the client with the first. */
  lemma {:induction false} SecondPatchIsNotServed(id: int64, first: string, second: string)
    ensures var m := ApplyAll(EMPTY, History([PatchOf(id, first), PatchOf(id, second)])).modules;
      ToUint32(id) in m && m[ToUint32(id)] == first
  {
    var key := ToUint32(id);
    OneEntryPatch([], id, first);
    OneEntryPatch([PatchOf(id, first)], id, second);
    assert [] + [PatchOf(id, first)] == [PatchOf(id, first)];
    assert [PatchOf(id, first)] + [PatchOf(id, second)] == [PatchOf(id, first), PatchOf(id, second)];
    ApplyOne(EMPTY, [], Put(key, first));
    ApplyOne(EMPTY, [] + [Put(key, first)], Put(key, second));
  }

  // ---- one patch, entry by entry ----

  predicate IsNull(e: Entry, key: Key) {
    e.id % 0x1_0000_0000 == key && e.code.None?
  }

  predicate IsCode(e: Entry, key: Key) {
    e.id % 0x1_0000_0000 == key && e.code.Some?
  }

  /** The entries from here on are those after the last null for the key; from 0 on if there is no null. */
  ghost predicate SinceNull(es: seq<Entry>, key: Key, from: nat) {
    && from <= |es| && (from > 0 ==> IsNull(es[from - 1], key))
    && forall j :: from <= j < |es| ==> !IsNull(es[j], key)
  }

  ghost predicate NoCode(es: seq<Entry>, key: Key, from: nat) {
    forall j :: from <= j < |es| ==> !IsCode(es[j], key)
  }

  ghost predicate FirstCodeFrom(es: seq<Entry>, key: Key, from: nat, i: nat) {
    from <= i < |es| && IsCode(es[i], key) && forall j :: from <= j < i ==> !IsCode(es[j], key)
  }

  /**
   What a list of entries makes of one key: without a null for it, a code that is there stays; otherwise the first code
   after the last null is taken, if there is one.
   */
  ghost predicate Served(was: map<Key, string>, es: seq<Entry>, key: Key, now: map<Key, string>, from: nat) {
    if from == 0 && key in was then key in now && now[key] == was[key]
    else
      && (key in now <==> !NoCode(es, key, from))
      && forall i: nat :: FirstCodeFrom(es, key, from, i) ==> key in now && es[i].code == Some(now[key])
  }

  lemma {:induction false} EntriesServe(s: State, es: seq<Entry>, key: Key, from: nat)
    requires SinceNull(es, key, from)
    ensures Served(s.modules, es, key, ApplyAll(s, ChangesOf(es)).modules, from)
    ensures ApplyAll(s, ChangesOf(es)).startup == s.startup
    decreases |es|
  {
    if es == [] {
    } else {
      var n := |es| - 1;
      var init, last := es[..n], es[n];
      assert init + [last] == es;
      assert ChangesOf(es) == ChangesOf(init) + [ChangeOf(last)];
      ApplyOne(s, ChangesOf(init), ChangeOf(last));
      if from == |es| {
        var f := LastNull(init, key);
        EntriesServe(s, init, key, f);
      } else {
        EntriesServe(s, init, key, from);
        OneEntryServes(s.modules, ApplyAll(s, ChangesOf(init)), init, last, key, from);
      }
    }
  }

  lemma {:induction false} OneEntryServes(was: map<Key, string>, s: State, init: seq<Entry>, last: Entry, key: Key, from: nat)
    requires from <= |init| && !IsNull(last, key) && Served(was, init, key, s.modules, from)
    ensures Served(was, init + [last], key, Apply(s, ChangeOf(last)).modules, from)
  {
    CodeStays(init, last, key, from);
    var now := Apply(s, ChangeOf(last)).modules;
    if IsCode(last, key) && key !in s.modules {
      assert now[key] == last.code.value;
    } else {
      assert key in s.modules ==> key in now && now[key] == s.modules[key];
    }
  }

  /** Where the last null for a key is, or 0. */
  lemma {:induction false} LastNull(es: seq<Entry>, key: Key) returns (from: nat)
    ensures SinceNull(es, key, from)
  {
    if es == [] {
      from := 0;
    } else if IsNull(es[|es| - 1], key) {
      from := |es|;
    } else {
      from := LastNull(es[..|es| - 1], key);
    }
  }

  lemma {:induction false} CodeStays(init: seq<Entry>, last: Entry, key: Key, from: nat)
    requires from <= |init|
    ensures NoCode(init + [last], key, from) <==> NoCode(init, key, from) && !IsCode(last, key)
    ensures forall i: nat :: FirstCodeFrom(init + [last], key, from, i) && i < |init| ==> FirstCodeFrom(init, key, from, i)
    ensures FirstCodeFrom(init + [last], key, from, |init|) ==> NoCode(init, key, from)
    ensures !NoCode(init, key, from) ==> exists i: nat :: FirstCodeFrom(init, key, from, i)
  {
    var es := init + [last];
    assert es[|init|] == last && forall j :: 0 <= j < |init| ==> es[j] == init[j];
    if !NoCode(init, key, from) {
      var i := FindCode(init, key, from);
    }
  }

  lemma {:induction false} FindCode(es: seq<Entry>, key: Key, from: nat) returns (i: nat)
    requires !NoCode(es, key, from)
    ensures FirstCodeFrom(es, key, from, i)
    decreases |es| - from
  {
    if from < |es| && IsCode(es[from], key) {
      i := from;
    } else {
      i := FindCode(es, key, from + 1);
    }
  }

  /** Each line of a section is followed by a line end. */
  lemma {:induction false} LinesText(section: seq<string>, i: nat)
    requires i < |section|
    ensures Lines(section) == Lines(section[..i]) + (section[i] + "\n") + Lines(section[i + 1..])
    ensures Lines([]) == ""
  {
    var before, after := section[..i], section[i + 1..];
    assert section == before + [section[i]] + after;
    LinesJoined(before + [section[i]], after);
    LinesJoined(before, [section[i]]);
    assert [section[i]][..0] == [];
    assert "" + (section[i] + "\n") == section[i] + "\n";
  }

  function EntriesOf(d: Delta): seq<Entry> {
    if d.modules.Some? then d.modules.value else []
  }

  /**
   What one patch does: a reset forgets all there was; a section that is not empty makes the startup code; and each key is
   served as its entries say.
   */
  lemma {:induction false} PatchMeans(s: State, d: Delta, key: Key, from: nat)
    requires SinceNull(EntriesOf(d), key, from)
    ensures var s' := ApplyAll(s, Changes(d));
      && Served(if d.reset then map[] else s.modules, EntriesOf(d), key, s'.modules, from)
      && s'.startup == if SectionOf(d.pre) != [] || SectionOf(d.post) != [] then Lines(SectionOf(d.pre) + SectionOf(d.post))
                       else if d.reset then "" else s.startup
  {
    var s1 := if d.reset then EMPTY else s;
    var s2 := if SectionOf(d.pre) != [] || SectionOf(d.post) != []
      then s1.(startup := Lines(SectionOf(d.pre) + SectionOf(d.post))) else s1;
    EntriesServe(s2, EntriesOf(d), key, from);
    PatchApplies(s, s1, s2, if d.modules.Some? then ApplyAll(s2, ChangesOf(d.modules.value)) else s2, d);
  }

  /** The history grows patch by patch. */
  lemma {:induction false} OnePatchMore(ds: seq<Delta>, d: Delta)
    ensures ApplyAll(EMPTY, History(ds + [d])) == ApplyAll(ApplyAll(EMPTY, History(ds)), Changes(d))
    ensures History([]) == []
  {
    assert (ds + [d])[..|ds|] == ds;
    ApplyJoined(EMPTY, History(ds), Changes(d));
  }

  // ---- the startup code ----

  /** The code at i is the last startup code, and no reset came after it. */
  ghost predicate LastStartup(h: seq<Change>, i: nat) {
    i < |h| && h[i].Startup? && forall j :: i < j < |h| ==> !h[j].Startup? && !h[j].Cleared?
  }

  ghost predicate NoStartup(h: seq<Change>) {
    forall i: nat :: !LastStartup(h, i)
  }

  /** The startup code is that of the latest patch with a nonempty section since the last reset, else empty. */
  lemma {:induction false} LastStartupWins(h: seq<Change>)
    ensures NoStartup(h) ==> ApplyAll(EMPTY, h).startup == ""
    ensures forall i: nat :: LastStartup(h, i) ==> ApplyAll(EMPTY, h).startup == h[i].code
  {
    if h == [] {
    } else {
      var n := |h| - 1;
      LastStartupWins(h[..n]);
      assert h[n].Startup? ==> LastStartup(h, n);
      assert forall i: nat :: LastStartup(h, i) && i < n ==> LastStartup(h[..n], i);
      if !h[n].Startup? && !h[n].Cleared? {
        assert forall i: nat :: LastStartup(h[..n], i) ==> LastStartup(h, i);
      }
    }
  }

  // ---- the client ----

  lemma NextChange(es: seq<Entry>, i: nat)
    requires i < |es|
    ensures ChangesOf(es[..i + 1]) == ChangesOf(es[..i]) + [ChangeOf(es[i])]
  {
  }

  lemma {:induction false} LinesJoined(a: seq<string>, b: seq<string>)
    ensures Lines(a + b) == Lines(a) + Lines(b)
  {
    if b == [] {
      assert a + b == a && Lines(a) + "" == Lines(a);
    } else {
      var init, last := b[..|b| - 1], b[|b| - 1];
      LinesJoined(a, init);
      assert (a + b)[..|a + b| - 1] == a + init;
      assert Lines(a) + (Lines(init) + (last + "\n")) == Lines(a) + Lines(init) + (last + "\n");
    }
  }

  class JSDeltaBundleClient {
    var modules: map<Key, string>
    var startupCode: string
    ghost var patches: seq<Delta>

    ghost function View(): State
      reads this
    {
      State(modules, startupCode)
    }

    /** The state is what the whole history of patches comes to. */
    ghost predicate Valid()
      reads this
    {
      View() == ApplyAll(EMPTY, History(patches))
    }

    constructor ()
      ensures Valid() && patches == []
    {
      modules, startupCode, patches := map[], "", [];
    }

    method Patch(delta: Delta)
      requires Valid()
      modifies this
      ensures Valid() && patches == old(patches) + [delta]
    {
      if delta.reset {
        Clear();
      }
      ghost var s := View();
      if (delta.pre.Some? && |delta.pre.value| > 0) || (delta.post.Some? && |delta.post.value| > 0) {
        startupCode := StartupCodeOf(delta.pre, delta.post);
      }
      ghost var t := View();
      if delta.modules.Some? {
        ApplyModules(delta.modules.value);
      }
      patches := patches + [delta];
      PatchApplies(old(View()), s, t, View(), delta);
      assert patches[..|patches| - 1] == old(patches);
      ApplyJoined(EMPTY, History(old(patches)), Changes(delta));
    }

    method ApplyModules(entries: seq<Entry>)
      modifies this`modules
      ensures View() == ApplyAll(old(View()), ChangesOf(entries))
    {
      for i := 0 to |entries|
        invariant View() == ApplyAll(old(View()), ChangesOf(entries[..i]))
      {
        NextChange(entries, i);
        var key := ToUint32(entries[i].id);
        if entries[i].code.None? {
          modules := modules - {key};
        } else if key !in modules {
          modules := modules[key := entries[i].code.value];
        }
      }
      assert entries[..|entries|] == entries;
    }

    static method StartupCodeOf(pre: Option<seq<string>>, post: Option<seq<string>>) returns (code: string)
      ensures code == Lines(SectionOf(pre) + SectionOf(post))
    {
      code := "";
      if pre.Some? {
        code := Write(code, pre.value);
      }
      if post.Some? {
        code := Write(code, post.value);
      }
      LinesJoined(SectionOf(pre), SectionOf(post));
    }

    static method Write(before: string, section: seq<string>) returns (code: string)
      ensures code == before + Lines(section)
    {
      code := before;
      for i := 0 to |section|
        invariant code == before + Lines(section[..i])
      {
        assert section[..i + 1][..i] == section[..i];
        code := code + (section[i] + "\n");
      }
      assert section[..|section|] == section;
    }

    /** Finds the code of the first entry for the id since it was last taken away; not found if there is none. */
    method GetModule(id: Key) returns (r: Option<Module>)
      requires Valid()
      ensures r.Some? ==> r.value.name == FileName(id) && FirstCode(History(patches), id, r.value.code)
      ensures r.None? ==> forall code :: !FirstCode(History(patches), id, code)
    {
      forall code
        ensures id in modules && modules[id] == code <==> FirstCode(History(patches), id, code)
      {
        FirstEntrySinceWins(patches, id, code);
      }
      r := if id in modules then Some(Module(Decimal(id) + ".js", modules[id])) else None;
    }

    /** The startup code of the latest patch that had one since the last reset, or nothing. */
    method GetStartupCode() returns (code: string)
      requires Valid()
      ensures NoStartup(History(patches)) ==> code == ""
      ensures forall i: nat :: LastStartup(History(patches), i) ==> code == History(patches)[i].code
    {
      LastStartupWins(History(patches));
      code := startupCode;
    }

    method Clear()
      modifies this`modules, this`startupCode
      ensures View() == EMPTY
    {
      modules := map[];
      startupCode := "";
    }
  }

  /** The three parts of a patch, one after the other. */
  lemma {:induction false} PatchApplies(s0: State, s1: State, s2: State, s3: State, d: Delta)
    requires s1 == if d.reset then EMPTY else s0
    requires s2 == if SectionOf(d.pre) != [] || SectionOf(d.post) != []
      then s1.(startup := Lines(SectionOf(d.pre) + SectionOf(d.post))) else s1
    requires s3 == if d.modules.Some? then ApplyAll(s2, ChangesOf(d.modules.value)) else s2
    ensures s3 == ApplyAll(s0, Changes(d))
  {
    var a := if d.reset then [Cleared] else [];
    var b := if SectionOf(d.pre) != [] || SectionOf(d.post) != [] then [Startup(Lines(SectionOf(d.pre) + SectionOf(d.post)))] else [];
    var c := if d.modules.Some? then ChangesOf(d.modules.value) else [];
    ApplyJoined(s0, a + b, c);
    ApplyJoined(s0, a, b);
  }
}

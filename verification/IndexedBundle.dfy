/** The reader of indexed bundle files: a header, a table of modules, the startup code, and the modules' code. */
module IndexedBundles {
  import opened Wrappers
  import opened Dynamic

  newtype byte = x: int | 0 <= x < 0x100

  /** An unsigned 32-bit word. */
  type Word = x: int | 0 <= x < 0x1_0000_0000

  /**
   What a bundle file can make the reader throw; a check that fails aborts, and a startup size of zero makes the code
   write in front of its buffer, with no defined result.
   */
  datatype Error = CannotOpen | UnexpectedEnd | ReadError | NoModule(id: Word) | CheckFailed | BufferUnderrun

  datatype Module = Module(name: string, code: seq<byte>)

  datatype Entry = Entry(offset: Word, length: Word)

  // ---- little-endian words ----

  function Power(k: nat): nat {
    if k == 0 then 1 else 0x100 * Power(k - 1)
  }

  /** The value of bytes, the lowest first. */
  function Value(b: seq<byte>): nat {
    if b == [] then 0 else b[0] as nat + 0x100 * Value(b[1..])
  }

  lemma {:induction false} ValueIsBelow(b: seq<byte>)
    ensures Value(b) < Power(|b|)
  {
    if b == [] {
    } else {
      ValueIsBelow(b[1..]);
    }
  }

  function Bytes(n: nat, k: nat): (b: seq<byte>)
    ensures |b| == k
  {
    if k == 0 then [] else [(n % 0x100) as byte] + Bytes(n / 0x100, k - 1)
  }

  lemma {:induction false} ValueOfBytes(n: nat, k: nat)
    requires n < Power(k)
    ensures Value(Bytes(n, k)) == n
  {
    if k == 0 {
    } else {
      ValueOfBytes(n / 0x100, k - 1);
      assert Bytes(n, k)[1..] == Bytes(n / 0x100, k - 1);
    }
  }

  lemma {:induction false} WordIsFourBytes()
    ensures Power(4) == 0x1_0000_0000
  {
    assert Power(2) == 0x100 * Power(1) && Power(3) == 0x100 * Power(2);
  }

  function WordAt(b: seq<byte>, at: nat): Word
    requires at + 4 <= |b|
  {
    WordIsFourBytes();
    ValueIsBelow(b[at..at + 4]);
    Value(b[at..at + 4])
  }

  function WordBytes(n: Word): (b: seq<byte>)
    ensures |b| == 4
  {
    Bytes(n, 4)
  }

  lemma {:induction false} WordReadsBack(n: Word)
    ensures Value(WordBytes(n)) == n
  {
    WordIsFourBytes();
    ValueOfBytes(n, 4);
  }

  /** The bytes of a part stand at a position. */
  predicate Has(s: seq<byte>, at: nat, part: seq<byte>) {
    at + |part| <= |s| && forall k {:trigger part[k]} :: 0 <= k < |part| ==> s[at + k] == part[k]
  }

  lemma HasSlice(s: seq<byte>, at: nat, part: seq<byte>)
    requires Has(s, at, part)
    ensures s[at..at + |part|] == part
  {
  }

  lemma HasBefore(first: seq<byte>, rest: seq<byte>)
    ensures Has(first + rest, 0, first)
  {
  }

  lemma HasAfter(first: seq<byte>, rest: seq<byte>, to: nat)
    requires to == |first|
    ensures Has(first + rest, to, rest)
  {
  }

  lemma HasLonger(first: seq<byte>, rest: seq<byte>, at: nat, part: seq<byte>)
    requires Has(first, at, part)
    ensures Has(first + rest, at, part)
  {
  }

  lemma {:induction false} HasBeyond(first: seq<byte>, rest: seq<byte>, at: nat, part: seq<byte>, to: nat)
    requires Has(rest, at, part) && to == |first| + at
    ensures Has(first + rest, to, part)
  {
    assert forall k {:trigger part[k]} :: 0 <= k < |part| ==> (first + rest)[to + k] == rest[at + k];
  }

  lemma {:induction false} HasWithin(s: seq<byte>, from: nat, whole: seq<byte>, at: nat, part: seq<byte>, to: nat)
    requires Has(s, from, whole) && Has(whole, at, part) && to == from + at
    ensures Has(s, to, part)
  {
    assert forall k {:trigger part[k]} :: 0 <= k < |part| ==> s[to + k] == whole[at + k];
  }

  lemma {:induction false} HasWord(s: seq<byte>, at: nat, n: Word)
    requires Has(s, at, WordBytes(n))
    ensures WordAt(s, at) == n
  {
    HasSlice(s, at, WordBytes(n));
    WordReadsBack(n);
  }

  // ---- the file without a reader: random access ----

  /** The header takes 12 bytes, each table entry 8. */

  function NumEntries(file: seq<byte>): Word
    requires |file| >= 12
  {
    WordAt(file, 4)
  }

  function StartupSize(file: seq<byte>): Word
    requires |file| >= 12
  {
    WordAt(file, 8)
  }

  function BaseOffset(file: seq<byte>): nat
    requires |file| >= 12
  {
    12 + 8 * NumEntries(file)
  }

  /** The startup code takes one byte less than the header says. */
  predicate IsComplete(file: seq<byte>) {
    && |file| >= 12
    && StartupSize(file) >= 1
    && BaseOffset(file) + StartupSize(file) - 1 <= |file|
  }

  /** What opening an incomplete file throws, or that it has no defined result. */
  function OpenError(file: seq<byte>): Error {
    if |file| >= 12 && BaseOffset(file) <= |file| && StartupSize(file) == 0 then BufferUnderrun else UnexpectedEnd
  }

  /** It is undefined exactly where all before the startup code is there and its size is given as zero. */
  lemma OpenErrorExactly(file: seq<byte>)
    ensures OpenError(file) == BufferUnderrun <==> |file| >= 12 && |file| >= 12 + 8 * WordAt(file, 4) && WordAt(file, 8) == 0
    ensures OpenError(file) == UnexpectedEnd <==> |file| < 12 || |file| < 12 + 8 * WordAt(file, 4) || WordAt(file, 8) > 0
  {
  }

  function StartupCode(file: seq<byte>): seq<byte>
    requires IsComplete(file)
  {
    file[BaseOffset(file)..BaseOffset(file) + StartupSize(file) - 1]
  }

  function EntryAt(file: seq<byte>, id: nat): Entry
    requires IsComplete(file) && id < NumEntries(file)
  {
    EntryFrom(file, 12 + 8 * id)
  }

  function EntryFrom(b: seq<byte>, at: nat): Entry
    requires at + 8 <= |b|
  {
    Entry(WordAt(b, at), WordAt(b, at + 4))
  }

  /** Nothing at all can be read anywhere; anything else must lie within the file. */
  function Slice(file: seq<byte>, at: nat, n: nat): Result<seq<byte>, Error> {
    if n == 0 then Ok([]) else if at + n <= |file| then Ok(file[at..at + n]) else Err(UnexpectedEnd)
  }

  function CodeOf(file: seq<byte>, id: Word): Result<seq<byte>, Error>
    requires IsComplete(file)
  {
    if id >= NumEntries(file) || EntryAt(file, id).length == 0 then Err(NoModule(id))
    else Slice(file, BaseOffset(file) + EntryAt(file, id).offset, EntryAt(file, id).length - 1)
  }

  // ---- files as they are laid out ----

  function Terminated(m: Option<seq<byte>>): seq<byte> {
    if m.Some? then m.value + [0] else []
  }

  /** The code of the first n modules. */
  function Blob(modules: seq<Option<seq<byte>>>, n: nat): seq<byte>
    requires n <= |modules|
  {
    if n == 0 then [] else Blob(modules, n - 1) + Terminated(modules[n - 1])
  }

  function Place(modules: seq<Option<seq<byte>>>, i: nat): nat
    requires i <= |modules|
  {
    |Blob(modules, i)|
  }

  /** A module without code has an entry of zeros, and so would one that is out of reach. */
  function EntryOf(m: Option<seq<byte>>, at: nat): Entry {
    if m.Some? && at + |m.value| + 1 < 0x1_0000_0000 then Entry(at, |m.value| + 1) else Entry(0, 0)
  }

  function Entries(modules: seq<Option<seq<byte>>>, at: nat, n: nat): (es: seq<Entry>)
    requires n <= |modules|
    ensures |es| == n
  {
    if n == 0 then [] else Entries(modules, at, n - 1) + [EntryOf(modules[n - 1], at + Place(modules, n - 1))]
  }

  function EntryBytes(e: Entry): (b: seq<byte>)
    ensures |b| == 8
  {
    WordBytes(e.offset) + WordBytes(e.length)
  }

  function Table(es: seq<Entry>): (b: seq<byte>)
    ensures |b| == 8 * |es|
  {
    if es == [] then [] else Table(es[..|es| - 1]) + EntryBytes(es[|es| - 1])
  }

  /** Counts and offsets must fit in 32 bits. */
  predicate Fits(startup: seq<byte>, modules: seq<Option<seq<byte>>>) {
    |modules| < 0x1_0000_0000 && |startup| + 1 + Place(modules, |modules|) < 0x1_0000_0000
  }

  /** The file of a startup code and modules, each followed by a NUL; offsets count from the end of the table. */
  function FileOf(magic: Word, startup: seq<byte>, modules: seq<Option<seq<byte>>>): seq<byte>
    requires Fits(startup, modules)
  {
    WordBytes(magic) + (WordBytes(|modules|) + (WordBytes(|startup| + 1)
      + (Table(Entries(modules, |startup| + 1, |modules|)) + (startup + ([0] + Blob(modules, |modules|))))))
  }

  lemma {:induction false} EntryReadsBack(s: seq<byte>, at: nat, e: Entry)
    requires Has(s, at, EntryBytes(e))
    ensures EntryFrom(s, at) == e
  {
    var first, second := WordBytes(e.offset), WordBytes(e.length);
    HasBefore(first, second);
    assert Has(second, 0, second);
    HasBeyond(first, second, 0, second, 4);
    HasWithin(s, at, first + second, 0, first, at);
    HasWithin(s, at, first + second, 4, second, at + 4);
    HasWord(s, at, e.offset);
    HasWord(s, at + 4, e.length);
  }

  /** Each entry is read back from its place in the table. */
  lemma {:induction false} TableReads(es: seq<Entry>, i: nat)
    requires i < |es|
    ensures EntryFrom(Table(es), 8 * i) == es[i]
  {
    var n := |es| - 1;
    var whole, first, last := Table(es), Table(es[..n]), EntryBytes(es[n]);
    assert whole == first + last;
    if i == n {
      HasAfter(first, last, 8 * i);
      EntryReadsBack(whole, 8 * i, es[i]);
    } else {
      TableReads(es[..n], i);
      EntryStays(whole, first, last, 8 * i, es[i]);
    }
  }

  lemma {:induction false} PlaceIsInside(modules: seq<Option<seq<byte>>>, n: nat, i: nat)
    requires i < n <= |modules|
    ensures Place(modules, i) + |Terminated(modules[i])| <= Place(modules, n)
  {
    if i == n - 1 {
    } else {
      PlaceIsInside(modules, n - 1, i);
    }
  }

  lemma {:induction false} EntryStays(whole: seq<byte>, first: seq<byte>, rest: seq<byte>, at: nat, e: Entry)
    requires whole == first + rest && at + 8 <= |first| && EntryFrom(first, at) == e
    ensures EntryFrom(whole, at) == e
  {
    assert whole[at..at + 4] == first[at..at + 4];
    assert whole[at + 4..at + 8] == first[at + 4..at + 8];
  }

  lemma {:induction false} BlobPiece(modules: seq<Option<seq<byte>>>, n: nat, i: nat)
    requires i < n <= |modules|
    ensures Has(Blob(modules, n), Place(modules, i), Terminated(modules[i]))
  {
    var first, last := Blob(modules, n - 1), Terminated(modules[n - 1]);
    if i == n - 1 {
      HasAfter(first, last, |first|);
    } else {
      BlobPiece(modules, n - 1, i);
      HasLonger(first, last, Place(modules, i), Terminated(modules[i]));
    }
  }

  /** An entry leads to a module's code, given where the table ends; a module without code has length 0. */
  ghost predicate LeadsTo(file: seq<byte>, base: nat, e: Entry, m: Option<seq<byte>>) {
    if m.Some? then e.length == |m.value| + 1 && Has(file, base + e.offset, m.value) else e.length == 0
  }

  /** A file whose header, table, startup code and modules are in their places. */
  ghost predicate LaidOut(file: seq<byte>, startup: seq<byte>, modules: seq<Option<seq<byte>>>) {
    && |file| >= 12 && NumEntries(file) == |modules| && StartupSize(file) == |startup| + 1
    && var base := 12 + 8 * |modules|;
    && Has(file, base, startup)
    && forall i :: 0 <= i < |modules| ==> LeadsTo(file, base, EntryFrom(file, 12 + 8 * i), modules[i])
  }

  lemma {:induction false} ThreeWords(file: seq<byte>, a: seq<byte>, b: seq<byte>, c: seq<byte>, rest: seq<byte>)
    requires |a| == |b| == |c| == 4 && file == a + (b + (c + rest))
    ensures Has(file, 4, b) && Has(file, 8, c) && Has(file, 12, rest)
  {
    var tail := b + (c + rest);
    HasBefore(b, c + rest);
    HasBefore(c, rest);
    HasAfter(c, rest, 4);
    HasBeyond(b, c + rest, 0, c, 4);
    HasBeyond(b, c + rest, 4, rest, 8);
    HasBeyond(a, tail, 0, b, 4);
    HasBeyond(a, tail, 4, c, 8);
    HasBeyond(a, tail, 8, rest, 12);
  }

  lemma {:induction false} ThreeParts(rest: seq<byte>, table: seq<byte>, startup: seq<byte>, blob: seq<byte>)
    requires rest == table + (startup + ([0] + blob))
    ensures Has(rest, 0, table) && Has(rest, |table|, startup) && Has(rest, |table| + |startup| + 1, blob)
  {
    var tail := startup + ([0] + blob);
    HasAfter([0], blob, 1);
    HasBefore(startup, [0] + blob);
    HasBeyond(startup, [0] + blob, 1, blob, |startup| + 1);
    HasBefore(table, tail);
    HasBeyond(table, tail, 0, startup, |table|);
    HasBeyond(table, tail, |startup| + 1, blob, |table| + |startup| + 1);
  }

  lemma {:induction false} PartsOfRest(
    file: seq<byte>, rest: seq<byte>, table: seq<byte>, startup: seq<byte>, blob: seq<byte>, size: nat
  )
    requires Has(file, 12, rest) && size == 12 + |table|
    requires Has(rest, 0, table) && Has(rest, |table|, startup) && Has(rest, |table| + |startup| + 1, blob)
    ensures Has(file, 12, table) && Has(file, size, startup) && Has(file, size + |startup| + 1, blob)
  {
    HasWithin(file, 12, rest, 0, table, 12);
    HasWithin(file, 12, rest, |table|, startup, size);
    HasWithin(file, 12, rest, |table| + |startup| + 1, blob, size + |startup| + 1);
  }

  lemma {:induction false} EntryWithin(s: seq<byte>, from: nat, whole: seq<byte>, at: nat, to: nat, e: Entry)
    requires Has(s, from, whole) && at + 8 <= |whole| && EntryFrom(whole, at) == e && to == from + at
    ensures to + 8 <= |s| && EntryFrom(s, to) == e
  {
    HasSlice(s, from, whole);
    WordWithin(s, from, from + |whole|, at);
    WordWithin(s, from, from + |whole|, at + 4);
  }

  lemma {:induction false} CodeIsThere(file: seq<byte>, base: nat, modules: seq<Option<seq<byte>>>, i: nat, at: nat)
    requires Has(file, base, Blob(modules, |modules|)) && i < |modules| && modules[i].Some?
    requires at == base + Place(modules, i)
    ensures Has(file, at, modules[i].value)
  {
    var code := modules[i].value;
    BlobPiece(modules, |modules|, i);
    HasWithin(file, base, Blob(modules, |modules|), Place(modules, i), code + [0], at);
    HasBefore(code, [0]);
    HasWithin(file, at, code + [0], 0, code, at);
  }

  lemma {:induction false} EntryIsThere(file: seq<byte>, table: seq<byte>, n: nat, i: nat, e: Entry)
    requires Has(file, 12, table) && i < n && |table| == 8 * n && EntryFrom(table, 8 * i) == e
    ensures EntryFrom(file, 12 + 8 * i) == e
  {
    EntryWithin(file, 12, table, 8 * i, 12 + 8 * i, e);
  }

  lemma {:induction false} EntriesAre(modules: seq<Option<seq<byte>>>, at: nat, n: nat, i: nat)
    requires i < n <= |modules|
    ensures Entries(modules, at, n)[i] == EntryOf(modules[i], at + Place(modules, i))
  {
    if i == n - 1 {
    } else {
      EntriesAre(modules, at, n - 1, i);
    }
  }

  lemma EntryFits(m: Option<seq<byte>>, at: nat)
    requires at + |Terminated(m)| < 0x1_0000_0000
    ensures EntryOf(m, at) == if m.Some? then Entry(at, |m.value| + 1) else Entry(0, 0)
  {
  }

  lemma {:induction false} EntryLeads(file: seq<byte>, base: nat, m: Option<seq<byte>>, at: nat, e: Entry)
    requires at + |Terminated(m)| < 0x1_0000_0000 && (m.Some? ==> Has(file, base + at, m.value)) && e == EntryOf(m, at)
    ensures LeadsTo(file, base, e, m)
  {
    EntryFits(m, at);
    assert m.Some? ==> base + e.offset == base + at;
  }

  lemma {:induction false} ModuleIsThere(file: seq<byte>, base: nat, startup: seq<byte>, modules: seq<Option<seq<byte>>>, i: nat, e: Entry)
    requires Fits(startup, modules) && i < |modules| && e == EntryOf(modules[i], |startup| + 1 + Place(modules, i))
    requires Has(file, base + |startup| + 1, Blob(modules, |modules|))
    ensures LeadsTo(file, base, e, modules[i])
  {
    var at := |startup| + 1 + Place(modules, i);
    PlaceIsInside(modules, |modules|, i);
    if modules[i].Some? {
      CodeIsThere(file, base + |startup| + 1, modules, i, base + at);
    }
    EntryLeads(file, base, modules[i], at, e);
  }

  lemma {:induction false} HeaderIsThere(file: seq<byte>, m: Word, n: Word)
    requires Has(file, 4, WordBytes(m)) && Has(file, 8, WordBytes(n))
    ensures |file| >= 12 && NumEntries(file) == m && StartupSize(file) == n && BaseOffset(file) == 12 + 8 * m
  {
    HasWord(file, 4, m);
    HasWord(file, 8, n);
  }

  lemma {:induction false} EntryOfModule(
    file: seq<byte>, startup: seq<byte>, modules: seq<Option<seq<byte>>>, es: seq<Entry>, i: nat
  ) returns (e: Entry)
    requires i < |modules| && es == Entries(modules, |startup| + 1, |modules|) && Has(file, 12, Table(es))
    ensures 12 + 8 * i + 8 <= |file| && EntryFrom(file, 12 + 8 * i) == e
    ensures e == EntryOf(modules[i], |startup| + 1 + Place(modules, i))
  {
    e := es[i];
    TableReads(es, i);
    EntryIsThere(file, Table(es), |modules|, i, e);
    EntriesAre(modules, |startup| + 1, |modules|, i);
  }

  lemma {:induction false} EntryLeadsToModule(
    file: seq<byte>, base: nat, startup: seq<byte>, modules: seq<Option<seq<byte>>>, i: nat, e: Entry, f: Entry
  )
    requires Fits(startup, modules) && i < |modules|
    requires e == f && f == EntryOf(modules[i], |startup| + 1 + Place(modules, i))
    requires Has(file, base + |startup| + 1, Blob(modules, |modules|))
    ensures LeadsTo(file, base, e, modules[i])
  {
    ModuleIsThere(file, base, startup, modules, i, f);
    SameEntry(file, base, e, f, modules[i]);
  }

  lemma SameEntry(file: seq<byte>, base: nat, e: Entry, f: Entry, m: Option<seq<byte>>)
    requires e == f && LeadsTo(file, base, f, m)
    ensures LeadsTo(file, base, e, m)
  {
  }

  lemma {:induction false} EntriesLead(
    file: seq<byte>, base: nat, startup: seq<byte>, modules: seq<Option<seq<byte>>>, es: seq<Entry>
  )
    requires Fits(startup, modules) && es == Entries(modules, |startup| + 1, |modules|) && base == 12 + 8 * |modules|
    requires Has(file, 12, Table(es)) && Has(file, base + |startup| + 1, Blob(modules, |modules|))
    ensures base <= |file|
    ensures forall i :: 0 <= i < |modules| ==> LeadsTo(file, base, EntryFrom(file, 12 + 8 * i), modules[i])
  {
    forall i | 0 <= i < |modules|
      ensures LeadsTo(file, base, EntryFrom(file, 12 + 8 * i), modules[i])
    {
      var e := EntryOfModule(file, startup, modules, es, i);
      EntryLeadsToModule(file, base, startup, modules, i, EntryFrom(file, 12 + 8 * i), e);
    }
  }

  lemma {:induction false} PartsLayOut(
    file: seq<byte>, base: nat, startup: seq<byte>, modules: seq<Option<seq<byte>>>, es: seq<Entry>
  )
    requires Fits(startup, modules) && es == Entries(modules, |startup| + 1, |modules|) && base == 12 + 8 * |modules|
    requires Has(file, 4, WordBytes(|modules|)) && Has(file, 8, WordBytes(|startup| + 1)) && Has(file, 12, Table(es))
    requires Has(file, base, startup) && Has(file, base + |startup| + 1, Blob(modules, |modules|))
    ensures LaidOut(file, startup, modules)
  {
    HeaderIsThere(file, |modules|, |startup| + 1);
    EntriesLead(file, base, startup, modules, es);
  }

  /** A file written from its parts is laid out: each part is where the header and the table say. */
  lemma {:induction false} FileIsLaidOut(magic: Word, startup: seq<byte>, modules: seq<Option<seq<byte>>>)
    requires Fits(startup, modules)
    ensures LaidOut(FileOf(magic, startup, modules), startup, modules)
  {
    var m, es := |modules|, Entries(modules, |startup| + 1, |modules|);
    var file, rest := FileOf(magic, startup, modules), Table(es) + (startup + ([0] + Blob(modules, m)));
    ThreeWords(file, WordBytes(magic), WordBytes(m), WordBytes(|startup| + 1), rest);
    ThreeParts(rest, Table(es), startup, Blob(modules, m));
    PartsOfRest(file, rest, Table(es), startup, Blob(modules, m), 12 + 8 * m);
    PartsLayOut(file, 12 + 8 * m, startup, modules, es);
  }

  function Original(modules: seq<Option<seq<byte>>>, id: Word): Result<seq<byte>, Error> {
    if id < |modules| && modules[id].Some? then Ok(modules[id].value) else Err(NoModule(id))
  }

  /** From a file laid out this way come back the startup code and every module, and nothing else. */
  lemma {:induction false} LaidOutFileReadsBack(file: seq<byte>, startup: seq<byte>, modules: seq<Option<seq<byte>>>)
    requires LaidOut(file, startup, modules)
    ensures IsComplete(file) && StartupCode(file) == startup
    ensures forall id: Word :: CodeOf(file, id) == Original(modules, id)
  {
    HasSlice(file, BaseOffset(file), startup);
    forall id: Word
      ensures CodeOf(file, id) == Original(modules, id)
    {
      if id < |modules| && modules[id].Some? {
        assert LeadsTo(file, BaseOffset(file), EntryFrom(file, 12 + 8 * id), modules[id]);
        HasSlice(file, BaseOffset(file) + EntryAt(file, id).offset, modules[id].value);
      }
    }
  }

  lemma {:induction false} WrittenFileReadsBack(magic: Word, startup: seq<byte>, modules: seq<Option<seq<byte>>>, id: Word)
    requires Fits(startup, modules)
    ensures var file := FileOf(magic, startup, modules);
      IsComplete(file) && StartupCode(file) == startup && CodeOf(file, id) == Original(modules, id)
  {
    FileIsLaidOut(magic, startup, modules);
    LaidOutFileReadsBack(FileOf(magic, startup, modules), startup, modules);
  }

  // ---- any order of reads ----

  /** What a reader answers, and whether its stream has failed by then: a failed stream fails all later reads. */
  function Read(file: seq<byte>, failed: bool, id: Word): (Result<seq<byte>, Error>, bool)
    requires IsComplete(file)
  {
    var a := CodeOf(file, id);
    if a.Err? && a.error.NoModule? then (a, failed)
    else if failed then (Err(ReadError), true)
    else (a, a.Err?)
  }

  function Answers(file: seq<byte>, failed: bool, ids: seq<Word>): (r: seq<Result<seq<byte>, Error>>)
    requires IsComplete(file)
    ensures |r| == |ids|
    decreases |ids|
  {
    if ids == [] then [] else [Read(file, failed, ids[0]).0] + Answers(file, Read(file, failed, ids[0]).1, ids[1..])
  }

  /** An earlier read ran over the end of the file. */
  ghost predicate RanOver(file: seq<byte>, ids: seq<Word>, k: nat)
    requires IsComplete(file) && k <= |ids|
  {
    exists j :: 0 <= j < k && CodeOf(file, ids[j]) == Err(UnexpectedEnd)
  }

  lemma {:induction false} RanOverFirstOrLater(file: seq<byte>, ids: seq<Word>, k: nat)
    requires IsComplete(file) && 0 < k <= |ids|
    ensures RanOver(file, ids, k) <==> CodeOf(file, ids[0]) == Err(UnexpectedEnd) || RanOver(file, ids[1..], k - 1)
  {
    if RanOver(file, ids[1..], k - 1) {
      var j :| 0 <= j < k - 1 && CodeOf(file, ids[1..][j]) == Err(UnexpectedEnd);
      assert CodeOf(file, ids[j + 1]) == Err(UnexpectedEnd);
    }
    if RanOver(file, ids, k) {
      var j :| 0 <= j < k && CodeOf(file, ids[j]) == Err(UnexpectedEnd);
      assert j > 0 ==> CodeOf(file, ids[1..][j - 1]) == Err(UnexpectedEnd);
    }
  }

  lemma {:induction false} AnswerAfter(file: seq<byte>, failed: bool, ids: seq<Word>, k: nat)
    requires IsComplete(file) && k < |ids|
    ensures Answers(file, failed, ids)[k] == Read(file, failed || RanOver(file, ids, k), ids[k]).0
    decreases k
  {
    if k == 0 {
      assert !RanOver(file, ids, 0);
    } else {
      AnswerAfter(file, Read(file, failed, ids[0]).1, ids[1..], k - 1);
      RanOverFirstOrLater(file, ids, k);
    }
  }

  /**
   An answer is what random access gives exactly if no earlier read ran over the end of the file, or if the id is one
   that is rejected without reading.
   */
  lemma {:induction false} AnyOrderIsRandomAccess(file: seq<byte>, ids: seq<Word>, k: nat)
    requires IsComplete(file) && k < |ids|
    ensures Answers(file, false, ids)[k] == CodeOf(file, ids[k])
       <==> !RanOver(file, ids, k) || CodeOf(file, ids[k]) == Err(NoModule(ids[k]))
  {
    AnswerAfter(file, false, ids, k);
  }

  /** One read over the end is enough: a module that is there can no longer be read. */
  lemma {:induction false} GoodModuleIsLost(file: seq<byte>, bad: Word, good: Word)
    requires IsComplete(file) && CodeOf(file, bad) == Err(UnexpectedEnd) && CodeOf(file, good).Ok?
    ensures Answers(file, false, [good])[0] == CodeOf(file, good)
    ensures Answers(file, false, [bad, good])[1] == Err(ReadError)
  {
    assert [bad, good][1..] == [good] && [good][1..] == [];
    assert Answers(file, true, [good]) == [Err(ReadError)] + Answers(file, true, []);
  }

  function AllBytes(words: seq<Word>): (b: seq<byte>)
    ensures |b| == 4 * |words|
  {
    if words == [] then [] else AllBytes(words[..|words| - 1]) + WordBytes(words[|words| - 1])
  }

  lemma {:induction false} NthWord(words: seq<Word>, rest: seq<byte>, i: nat)
    requires i < |words|
    ensures WordAt(AllBytes(words) + rest, 4 * i) == words[i]
  {
    var n := |words| - 1;
    var first, last := AllBytes(words[..n]), WordBytes(words[n]);
    assert AllBytes(words) + rest == first + (last + rest);
    if i == n {
      assert (first + (last + rest))[4 * n..4 * n + 4] == last;
      WordReadsBack(words[n]);
    } else {
      NthWord(words[..n], last + rest, i);
    }
  }

  /** Such a file: two modules, of which the table makes the first one longer than the file. */
  lemma {:induction false} SuchFilesExist()
    ensures var file := AllBytes([0, 2, 1, 0, 100, 0, 2]) + [65, 0];
      IsComplete(file) && CodeOf(file, 0) == Err(UnexpectedEnd) && CodeOf(file, 1) == Ok([65])
  {
    var words: seq<Word>, code: seq<byte> := [0, 2, 1, 0, 100, 0, 2], [65, 0];
    var file := AllBytes(words) + code;
    forall i | 0 <= i < 7
      ensures WordAt(file, 4 * i) == words[i]
    {
      NthWord(words, code, i);
    }
    assert NumEntries(file) == WordAt(file, 4 * 1) && StartupSize(file) == WordAt(file, 4 * 2);
    assert EntryFrom(file, 12) == Entry(WordAt(file, 4 * 3), WordAt(file, 4 * 4));
    assert EntryFrom(file, 20) == Entry(WordAt(file, 4 * 5), WordAt(file, 4 * 6));
    assert file[28..29] == [65];
  }

  // ---- the reader ----

  class JSIndexedRAMBundle {
    /** The stream: the file's contents, the position, whether a read has failed, and whether it did so at the end. */
    const file: seq<byte>
    var pos: nat
    var failed: bool
    var atEnd: bool
    var table: seq<Entry>
    var baseOffset: nat
    var startupCode: Option<seq<byte>>

    ghost predicate Valid()
      reads this
    {
      && IsComplete(file)
      && table == seq(NumEntries(file), i requires 0 <= i < NumEntries(file) => EntryAt(file, i))
      && baseOffset == BaseOffset(file)
    }

    constructor Attach(file: seq<byte>)
      ensures this.file == file && pos == 0 && !failed && table == [] && startupCode == None
    {
      this.file := file;
      pos, failed, atEnd, table, baseOffset, startupCode := 0, false, false, [], 0, None;
    }

    /** Opens a file and reads all of it that comes before the modules. */
    static method Open(contents: Option<seq<byte>>) returns (r: Result<JSIndexedRAMBundle, Error>)
      ensures contents.None? ==> r == Err(CannotOpen)
      ensures contents.Some? && IsComplete(contents.value) ==> r.Ok?
      ensures contents.Some? && !IsComplete(contents.value) ==> r == Err(OpenError(contents.value))
      ensures r.Ok? ==> fresh(r.value) && r.value.file == contents.value && r.value.Valid() && !r.value.failed
      ensures r.Ok? ==> r.value.startupCode == Some(StartupCode(r.value.file))
    {
      if contents.None? {
        return Err(CannotOpen);
      }
      var b := new JSIndexedRAMBundle.Attach(contents.value);
      var header := b.ReadBundle(12);
      if header.Err? {
        return Err(header.error);
      }
      WordWithin(b.file, 0, 12, 4);
      WordWithin(b.file, 0, 12, 8);
      var numEntries, startupSize := WordAt(header.value, 4), WordAt(header.value, 8);
      b.baseOffset := 12 + 8 * numEntries;
      var bytes := b.ReadBundle(8 * numEntries);
      if bytes.Err? {
        return Err(bytes.error);
      }
      TableOf(b.file, bytes.value, numEntries);
      b.table := seq(numEntries, i requires 0 <= i < numEntries && |bytes.value| == 8 * numEntries =>
        EntryFrom(bytes.value, 8 * i));
      if startupSize == 0 {
        return Err(BufferUnderrun);
      }
      var code := b.ReadBundle(startupSize - 1);
      if code.Err? {
        return Err(code.error);
      }
      assert StartupSize(b.file) == 1 ==> StartupCode(b.file) == [];
      b.startupCode := Some(code.value);
      r := Ok(b);
    }

    /** Reads on from the position; a stream that has failed fails again. */
    method ReadBundle(n: nat) returns (r: Result<seq<byte>, Error>)
      modifies this`pos, this`failed, this`atEnd
      ensures r == if old(failed) then Err(if old(atEnd) then UnexpectedEnd else ReadError) else Slice(file, old(pos), n)
      ensures failed == r.Err? && (r.Ok? && n > 0 ==> pos == old(pos) + n) && (n == 0 ==> pos == old(pos))
      ensures atEnd == if old(failed) || r.Ok? then old(atEnd) else true
    {
      if failed {
        r := Err(if atEnd then UnexpectedEnd else ReadError);
      } else if n == 0 {
        r := Ok([]);
      } else if pos + n <= |file| {
        r := Ok(file[pos..pos + n]);
        pos := pos + n;
      } else {
        failed, atEnd := true, true;
        r := Err(UnexpectedEnd);
      }
    }

    /** Seeking forgets that the end was met, but not that a read failed. */
    method ReadBundleAt(n: nat, position: nat) returns (r: Result<seq<byte>, Error>)
      modifies this`pos, this`failed, this`atEnd
      ensures r == if old(failed) then Err(ReadError) else Slice(file, position, n)
      ensures failed == r.Err?
    {
      atEnd := false;
      if failed {
        return Err(ReadError);
      }
      pos := position;
      r := ReadBundle(n);
    }

    method GetModuleCode(id: Word) returns (r: Result<seq<byte>, Error>)
      requires Valid()
      modifies this`pos, this`failed, this`atEnd
      ensures Valid() && (r, failed) == Read(file, old(failed), id)
    {
      var length := if id < |table| then table[id].length else 0;
      if length == 0 {
        return Err(NoModule(id));
      }
      r := ReadBundleAt(length - 1, baseOffset + table[id].offset);
    }

    method GetModule(id: Word) returns (r: Result<Module, Error>)
      requires Valid()
      modifies this`pos, this`failed, this`atEnd
      ensures Valid() && failed == Read(file, old(failed), id).1
      ensures var code := Read(file, old(failed), id).0;
        r == if code.Ok? then Ok(Module(FileName(id), code.value)) else Err(code.error)
    {
      var name := Decimal(id) + ".js";
      var code := GetModuleCode(id);
      r := if code.Ok? then Ok(Module(name, code.value)) else Err(code.error);
    }

    /** The startup code is handed out once; asking again fails a check. */
    method GetStartupCode() returns (r: Result<seq<byte>, Error>)
      modifies this`startupCode
      ensures r == if old(startupCode).Some? then Ok(old(startupCode).value) else Err(CheckFailed)
      ensures startupCode == None
    {
      r := if startupCode.Some? then Ok(startupCode.value) else Err(CheckFailed);
      startupCode := None;
    }
  }

  lemma {:induction false} WordWithin(b: seq<byte>, from: nat, to: nat, at: nat)
    requires from <= to <= |b| && at + 4 <= to - from
    ensures WordAt(b[from..to], at) == WordAt(b, from + at)
  {
    assert forall k {:trigger b[from..to][at..at + 4][k]} :: 0 <= k < 4 ==> b[from..to][at..at + 4][k] == b[from + at..from + at + 4][k];
    assert b[from..to][at..at + 4] == b[from + at..from + at + 4];
  }

  lemma {:induction false} TableOf(file: seq<byte>, bytes: seq<byte>, n: Word)
    requires |bytes| == 8 * n && (n > 0 ==> Has(file, 12, bytes))
    ensures forall i :: 0 <= i < n ==> EntryFrom(bytes, 8 * i) == EntryFrom(file, 12 + 8 * i)
  {
    forall i | 0 <= i < n
      ensures EntryFrom(bytes, 8 * i) == EntryFrom(file, 12 + 8 * i)
    {
      EntryWithin(file, 12, bytes, 8 * i, 12 + 8 * i, EntryFrom(bytes, 8 * i));
    }
  }
}

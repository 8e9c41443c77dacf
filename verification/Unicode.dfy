/** The lenient UTF-16 to UTF-8 converter: a measuring pass, then a writing pass into a buffer of that size. */
module Unicode {
  import opened Dynamic

  type Unit = x: int | 0 <= x < 0x1_0000
  type Octet = x: int | 0 <= x < 0x100

  const ONE_BYTE_BOUNDARY: Unit := 0x80
  const TWO_BYTES_BOUNDARY: Unit := 0x800
  const HIGH_SUB_LOW_BOUNDARY: Unit := 0xD800
  const HIGH_SUB_HIGH_BOUNDARY: Unit := 0xDC00
  const LOW_SUB_HIGH_BOUNDARY: Unit := 0xE000

  predicate IsHigh(ch: Unit) {
    HIGH_SUB_LOW_BOUNDARY <= ch < HIGH_SUB_HIGH_BOUNDARY
  }

  predicate IsLow(ch: Unit) {
    HIGH_SUB_HIGH_BOUNDARY <= ch < LOW_SUB_HIGH_BOUNDARY
  }

  predicate StartsWithPair(s: seq<Unit>) {
    |s| >= 2 && IsHigh(s[0]) && IsLow(s[1])
  }

  // ---- the octets of one symbol ----

  // Shifts, masks and or-ed tag bits are written as division, remainder and addition; UnicodeWords.dfy proves that the
  // code's operations on machine words come to the same octets.

  function Two(ch: Unit): (r: seq<Octet>)
    requires ONE_BYTE_BOUNDARY <= ch < TWO_BYTES_BOUNDARY
  {
    [0xC0 + ch / 64, 0x80 + ch % 64]
  }

  function Three(ch: Unit): seq<Octet> {
    [0xE0 + ch / 4096, 0x80 + ch / 64 % 64, 0x80 + ch % 64]
  }

  function Four(ch: Unit, ch2: Unit): seq<Octet> {
    var truncByte := ch / 64 % 16 + 1;
    [0xF0 + truncByte / 4, 0x80 + truncByte % 4 * 16 + ch / 4 % 16, 0x80 + ch % 4 * 16 + ch2 / 64 % 16, 0x80 + ch2 % 64]
  }

  function Head(s: seq<Unit>): seq<Octet>
    requires s != []
  {
    if s[0] < ONE_BYTE_BOUNDARY then [s[0]]
    else if s[0] < TWO_BYTES_BOUNDARY then Two(s[0])
    else if StartsWithPair(s) then Four(s[0], s[1])
    else Three(s[0])
  }

  /** Number of units the first symbol takes. */
  function HeadUnits(s: seq<Unit>): (n: nat)
    requires s != []
    ensures 1 <= n <= |s|
  {
    if StartsWithPair(s) then 2 else 1
  }

  /** The text in UTF-8, symbol by symbol. */
  function Utf8(s: seq<Unit>): seq<Octet> {
    if s == [] then [] else Head(s) + Utf8(s[HeadUnits(s)..])
  }

  /** How many octets the first symbol takes. */
  function HeadLength(s: seq<Unit>): nat
    requires s != []
  {
    if s[0] < ONE_BYTE_BOUNDARY then 1
    else if s[0] < TWO_BYTES_BOUNDARY then 2
    else if StartsWithPair(s) then 4
    else 3
  }

  function Utf8Length(s: seq<Unit>): nat {
    if s == [] then 0 else HeadLength(s) + Utf8Length(s[HeadUnits(s)..])
  }

  lemma {:induction false} LengthBounds(s: seq<Unit>)
    ensures |s| <= Utf8Length(s) <= 3 * |s|
    ensures |Utf8(s)| == Utf8Length(s)
  {
    if s == [] {
    } else {
      LengthBounds(s[HeadUnits(s)..]);
    }
  }

  // ---- the two passes as they are written ----

  /** The measuring pass adds up in a 32-bit word, so it is right exactly for texts below 2^32 octets. */
  method Measure(utf16: array?<Unit>, len: nat) returns (n: nat)
    requires utf16 != null ==> len <= utf16.Length
    ensures utf16 == null ==> n == 0
    ensures utf16 != null ==> n == ToUint32(Utf8Length(utf16[..len]))
  {
    if utf16 == null || len == 0 {
      return 0;
    }
    var total := 0;
    ghost var sum: nat := 0;
    var i := 0;
    ghost var s := utf16[..len];
    assert s[0..] == s;
    while i < len
      invariant 0 <= i <= len
      invariant total == ToUint32(sum)
      invariant sum + Utf8Length(s[i..]) == Utf8Length(s)
    {
      ghost var rest := s[i..];
      assert rest[HeadUnits(rest)..] == s[i + HeadUnits(rest)..];
      WrapAdds(sum, HeadLength(rest));
      sum := sum + HeadLength(rest);
      var ch := utf16[i];
      i := i + 1;
      if ch < ONE_BYTE_BOUNDARY {
        total := ToUint32(total + 1);
      } else if ch < TWO_BYTES_BOUNDARY {
        total := ToUint32(total + 2);
      } else if ch >= HIGH_SUB_LOW_BOUNDARY && ch < HIGH_SUB_HIGH_BOUNDARY && i < len
                && utf16[i] >= HIGH_SUB_HIGH_BOUNDARY && utf16[i] < LOW_SUB_HIGH_BOUNDARY {
        total := ToUint32(total + 4);
        i := i + 1;
      } else {
        total := ToUint32(total + 3);
      }
    }
    assert s[len..] == [];
    return total;
  }

  lemma WrapAdds(sum: nat, k: nat)
    ensures ToUint32(ToUint32(sum) + k) == ToUint32(sum + k)
  {
  }

  /** The measuring pass is exact if and only if the text needs less than 2^32 octets; a third of that many units suffices. */
  lemma {:induction false} MeasureExactness(s: seq<Unit>)
    ensures ToUint32(Utf8Length(s)) == Utf8Length(s) <==> Utf8Length(s) < 0x1_0000_0000
    ensures 3 * |s| < 0x1_0000_0000 ==> Utf8Length(s) < 0x1_0000_0000
  {
    LengthBounds(s);
  }

  /** The buffer with some octets written at a position. */
  ghost function Patched(buf: seq<Octet>, at: nat, octets: seq<Octet>): seq<Octet>
    requires at + |octets| <= |buf|
  {
    buf[..at] + octets + buf[at + |octets|..]
  }

  /** The loop stands between two symbols: what is written agrees with the text, what is left belongs to the units left. */
  ghost predicate InStep(s: seq<Unit>, buf: seq<Octet>, i16: nat, i8: nat) {
    && i16 <= |s| && i8 <= |buf| <= |Utf8(s)|
    && Utf8(s)[i8..] == Utf8(s[i16..])
    && buf[..i8] == Utf8(s)[..i8]
  }

  /** Some octets are written at a position and nowhere else. */
  method Put(utf8: array<Octet>, at: nat, octets: seq<Octet>)
    requires at + |octets| <= utf8.Length
    modifies utf8
    ensures utf8[..] == Patched(old(utf8[..]), at, octets)
  {
    ghost var was := utf8[..];
    for i := 0 to |octets|
      invariant utf8[..] == Patched(was, at, octets[..i])
    {
      PatchGrows(was, at, octets, i);
      utf8[at + i] := octets[i];
    }
    assert octets[..|octets|] == octets;
  }

  lemma {:induction false} PatchGrows(was: seq<Octet>, at: nat, octets: seq<Octet>, i: nat)
    requires i < |octets| && at + |octets| <= |was|
    ensures Patched(was, at, octets[..i])[at + i := octets[i]] == Patched(was, at, octets[..i + 1])
  {
    var before, after := Patched(was, at, octets[..i])[at + i := octets[i]], Patched(was, at, octets[..i + 1]);
    forall k | 0 <= k < |was|
      ensures before[k] == after[k]
    {
    }
  }

  /** One turn of the writing loop: the octets of the symbol at i16 go to i8 and nowhere else. */
  method WriteSymbol(utf16: array<Unit>, len: nat, i16: nat, utf8: array<Octet>, i8: nat) returns (next16: nat, next8: nat)
    requires i16 < len <= utf16.Length && utf8 as object != utf16
    requires i8 + |Head(utf16[i16..len])| <= utf8.Length
    modifies utf8
    ensures next16 == i16 + HeadUnits(utf16[i16..len])
    ensures next8 == i8 + |Head(utf16[i16..len])|
    ensures utf8[..] == Patched(old(utf8[..]), i8, Head(utf16[i16..len]))
  {
    var ch := utf16[i16];
    var ch2 := if i16 + 1 < len then utf16[i16 + 1] else 0;
    HeadByCase(utf16[i16..len], ch2);
    if ch < ONE_BYTE_BOUNDARY {
      Put(utf8, i8, [ch % 128]);
      next16, next8 := i16 + 1, i8 + 1;
    } else if ch < TWO_BYTES_BOUNDARY {
      Put(utf8, i8, [0xC0 + ch / 64, 0x80 + ch % 64]);
      next16, next8 := i16 + 1, i8 + 2;
    } else if ch >= HIGH_SUB_LOW_BOUNDARY && ch < HIGH_SUB_HIGH_BOUNDARY && i16 + 1 < len
              && ch2 >= HIGH_SUB_HIGH_BOUNDARY && ch2 < LOW_SUB_HIGH_BOUNDARY {
      var octets := FourOctets(ch, ch2);
      Put(utf8, i8, octets);
      next16, next8 := i16 + 2, i8 + 4;
    } else {
      Put(utf8, i8, [0xE0 + ch / 4096, 0x80 + ch / 64 % 64, 0x80 + ch % 64]);
      next16, next8 := i16 + 1, i8 + 3;
    }
  }

  method FourOctets(ch: Unit, ch2: Unit) returns (octets: seq<Octet>)
    ensures octets == Four(ch, ch2)
  {
    var truncByte := ch / 64 % 16 + 1;
    octets := [
      0xF0 + truncByte / 4, 0x80 + truncByte % 4 * 16 + ch / 4 % 16,
      0x80 + ch % 4 * 16 + ch2 / 64 % 16, 0x80 + ch2 % 64];
  }

  lemma {:induction false} HeadByCase(s: seq<Unit>, second: Unit)
    requires s != [] && (|s| > 1 ==> s[1] == second)
    ensures s[0] < ONE_BYTE_BOUNDARY ==> Head(s) == [s[0] % 128] && HeadUnits(s) == 1
    ensures ONE_BYTE_BOUNDARY <= s[0] < TWO_BYTES_BOUNDARY ==> Head(s) == Two(s[0]) && HeadUnits(s) == 1
    ensures IsHigh(s[0]) && |s| > 1 && IsLow(second) ==> Head(s) == Four(s[0], second) && HeadUnits(s) == 2
    ensures TWO_BYTES_BOUNDARY <= s[0] && !(IsHigh(s[0]) && |s| > 1 && IsLow(second)) ==>
      Head(s) == Three(s[0]) && HeadUnits(s) == 1
  {
  }

  /** A turn of the loop keeps it between two symbols. */
  method NextSymbol(utf16: array<Unit>, len: nat, i16: nat, utf8: array<Octet>, i8: nat, ghost s: seq<Unit>)
    returns (next16: nat, next8: nat)
    requires i16 < len <= utf16.Length && utf8 as object != utf16
    requires s == utf16[..len] && InStep(s, utf8[..], i16, i8)
    requires i8 + |Head(s[i16..])| <= utf8.Length
    modifies utf8
    ensures i16 < next16 && InStep(s, utf8[..], next16, next8)
  {
    ghost var was := utf8[..];
    assert utf16[i16..len] == s[i16..];
    next16, next8 := WriteSymbol(utf16, len, i16, utf8, i8);
    OneSymbolOn(s, was, utf8[..], i16, i8, next16, next8);
  }

  /**
   The writing pass fills a buffer of the right size exactly, with the text's UTF-8. The code does not look at the size;
   where a smaller buffer would be overrun, the model stops and says so.
   */
  method WritingPass(utf16: array<Unit>, len: nat, utf8: array<Octet>) returns (overrun: bool)
    requires len <= utf16.Length && utf8 as object != utf16
    requires utf8.Length <= Utf8Length(utf16[..len])
    modifies utf8
    ensures overrun <==> utf8.Length < Utf8Length(utf16[..len])
    ensures !overrun ==> utf8[..] == Utf8(utf16[..len])
  {
    ghost var s := utf16[..len];
    LengthBounds(s);
    var i8: nat, i16: nat := 0, 0;
    assert s[0..] == s && Utf8(s)[0..] == Utf8(s);
    while i16 < len
      invariant i16 <= len && utf16[..len] == s
      invariant InStep(s, utf8[..], i16, i8)
    {
      RoomForSymbol(s, utf8[..], i16, i8);
      assert utf16[i16..len] == s[i16..];
      if i8 + HeadLength(utf16[i16..len]) > utf8.Length {
        return true;
      }
      i16, i8 := NextSymbol(utf16, len, i16, utf8, i8, s);
    }
    assert s[len..] == [];
    AllWritten(Utf8(s), utf8[..], i8);
    overrun := false;
  }

  /** The conversion: measure, allocate, write. From 2^32 octets on, and only then, it would overrun its buffer. */
  method Utf16ToUtf8(utf16: array?<Unit>, len: nat) returns (utf8: array<Octet>, overrun: bool)
    requires utf16 != null ==> len <= utf16.Length
    ensures fresh(utf8)
    ensures overrun <==> utf16 != null && Utf8Length(utf16[..len]) >= 0x1_0000_0000
    ensures !overrun ==> utf8[..] == if utf16 == null then [] else Utf8(utf16[..len])
  {
    if utf16 == null || len == 0 {
      utf8 := new Octet[0];
      return utf8, false;
    }
    var size := Measure(utf16, len);
    utf8 := new Octet[size];
    overrun := WritingPass(utf16, len, utf8);
  }

  /** There are such texts: 2^32 plain letters measure as nothing. */
  lemma {:induction false} MeasureCanWrap()
    ensures var s := seq(0x1_0000_0000, _ => 0x41);
      Utf8Length(s) == 0x1_0000_0000 && ToUint32(Utf8Length(s)) == 0
  {
    AsciiLength(seq(0x1_0000_0000, _ => 0x41));
  }

  lemma {:induction false} AsciiLength(s: seq<Unit>)
    requires forall i :: 0 <= i < |s| ==> s[i] < ONE_BYTE_BOUNDARY
    ensures Utf8Length(s) == |s|
  {
    if s == [] {
    } else {
      AsciiLength(s[1..]);
    }
  }

  lemma {:induction false} AllWritten(all: seq<Octet>, buf: seq<Octet>, i8: nat)
    requires i8 <= |buf| <= |all| && all[i8..] == [] && buf[..i8] == all[..i8]
    ensures buf == all
  {
    assert buf[..|buf|] == buf && all[..|all|] == all;
  }

  lemma {:induction false} RoomForSymbol(s: seq<Unit>, buf: seq<Octet>, i16: nat, i8: nat)
    requires i16 < |s| && InStep(s, buf, i16, i8)
    ensures i8 + |Head(s[i16..])| <= |Utf8(s)| && |Head(s[i16..])| == HeadLength(s[i16..])
  {
    assert Utf8(s)[i8..] == Head(s[i16..]) + Utf8(s[i16..][HeadUnits(s[i16..])..]);
  }

  /** Writing the octets of one symbol takes the loop to its next turn. */
  lemma {:induction false} OneSymbolOn(
    s: seq<Unit>, was: seq<Octet>, now: seq<Octet>, i16: nat, i8: nat, next16: nat, next8: nat
  )
    requires i16 < |s| && InStep(s, was, i16, i8) && i8 + |Head(s[i16..])| <= |was|
    requires now == Patched(was, i8, Head(s[i16..]))
    requires next16 == i16 + HeadUnits(s[i16..]) && next8 == i8 + |Head(s[i16..])|
    ensures InStep(s, now, next16, next8)
  {
    var rest := s[i16..];
    assert rest[HeadUnits(rest)..] == s[next16..];
    SplitOff(Utf8(s), was, i8, Head(rest), Utf8(rest[HeadUnits(rest)..]));
  }

  lemma {:induction false} SplitOff(all: seq<Octet>, buf: seq<Octet>, at: nat, head: seq<Octet>, rest: seq<Octet>)
    requires at + |head| <= |buf| <= |all| && all[at..] == head + rest && buf[..at] == all[..at]
    ensures all[at + |head|..] == rest
    ensures Patched(buf, at, head)[..at + |head|] == all[..at + |head|]
  {
    assert all == all[..at] + head + rest;
  }
}

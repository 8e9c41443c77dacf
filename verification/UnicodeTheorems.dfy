/** What the conversion guarantees: nothing is lost, and well-formed text stays the same text. */
module UnicodeTheorems {
  import opened Wrappers
  import opened Unicode

  // ---- a decoder that takes every form the converter can emit ----

  /** Four-byte forms give a surrogate pair, every other form a single unit. */
  function Units(b: seq<Octet>): Option<seq<Unit>> {
    if b == [] then Some([])
    else if b[0] < 0x80 then Cons([b[0]], Units(b[1..]))
    else if 0xC0 <= b[0] < 0xE0 && |b| >= 2 then
      Cons([TwoByteValue(b[0], b[1])], Units(b[2..]))
    else if 0xE0 <= b[0] < 0xF0 && |b| >= 3 then
      Cons([ThreeByteValue(b[0], b[1], b[2])], Units(b[3..]))
    else if 0xF0 <= b[0] && |b| >= 4 then
      Cons(Surrogates(FourByteScalar(b[0], b[1], b[2], b[3])), Units(b[4..]))
    else None
  }

  function Cons<T>(front: seq<T>, rest: Option<seq<T>>): Option<seq<T>> {
    match rest
    case None => None
    case Some(t) => Some(front + t)
  }

  type Scalar = x: int | 0 <= x < 0x20_0000

  /** The value of a two-byte and of a three-byte form (RFC 3629, section 3). */
  function TwoByteValue(o1: Octet, o2: Octet): Unit {
    (o1 as int) % 32 * 64 + o2 % 64
  }

  function ThreeByteValue(o1: Octet, o2: Octet, o3: Octet): Unit {
    (o1 as int) % 16 * 4096 + (o2 as int) % 64 * 64 + o3 % 64
  }

  /** The scalar value of a four-byte form (RFC 3629, section 3). */
  function FourByteScalar(o1: Octet, o2: Octet, o3: Octet, o4: Octet): Scalar {
    (o1 as int) % 8 * 0x4_0000 + (o2 as int) % 64 * 4096 + (o3 as int) % 64 * 64 + o4 % 64
  }

  /** The surrogate pair of a scalar value (RFC 2781, section 2.1). */
  function Surrogates(u: Scalar): seq<Unit> {
    var v := u - 0x1_0000;
    [0xD800 + v / 1024 % 1024, 0xDC00 + v % 1024]
  }

  /** The scalar value of a surrogate pair (RFC 2781, section 2.2). */
  function PairScalar(hi: Unit, lo: Unit): Scalar {
    (hi as int) % 1024 * 1024 + (lo as int) % 1024 + 0x1_0000
  }

  lemma TwoReadsBack(ch: Unit)
    requires ONE_BYTE_BOUNDARY <= ch < TWO_BYTES_BOUNDARY
    ensures 0xC2 <= Two(ch)[0] < 0xE0 && 0x80 <= Two(ch)[1] < 0xC0
    ensures TwoByteValue(Two(ch)[0], Two(ch)[1]) == ch
  {
  }

  lemma {:induction false} ThreeReadsBack(ch: Unit)
    ensures 0xE0 <= Three(ch)[0] < 0xF0 && 0x80 <= Three(ch)[1] < 0xC0 && 0x80 <= Three(ch)[2] < 0xC0
    ensures ThreeByteValue(Three(ch)[0], Three(ch)[1], Three(ch)[2]) == ch
  {
    var a, b, c := ThreeParts(ch);
    ThreeOctets(a, b, c);
  }

  lemma {:induction false} ThreeParts(ch: Unit) returns (a: int, b: int, c: int)
    ensures a == ch / 4096 && b == ch / 64 % 64 && c == ch % 64
    ensures 0 <= a < 16 && 0 <= b < 64 && 0 <= c < 64 && ch == a * 4096 + b * 64 + c
  {
    a, b, c := ch / 4096, ch / 64 % 64, ch % 64;
    assert ch / 64 / 64 == ch / 4096;
  }

  lemma {:induction false} ThreeOctets(a: int, b: int, c: int)
    requires 0 <= a < 16 && 0 <= b < 64 && 0 <= c < 64
    ensures ThreeByteValue(0xE0 + a, 0x80 + b, 0x80 + c) == a * 4096 + b * 64 + c
  {
    assert (0xE0 + a) % 16 == a && (0x80 + b) % 64 == b && (0x80 + c) % 64 == c;
  }

  lemma {:induction false} FourReadsBack(hi: Unit, lo: Unit)
    requires IsHigh(hi) && IsLow(lo)
    ensures 0xF0 <= Four(hi, lo)[0] <= 0xF4
    ensures var f := Four(hi, lo); FourByteScalar(f[0], f[1], f[2], f[3]) == PairScalar(hi, lo)
    ensures Surrogates(PairScalar(hi, lo)) == [hi, lo]
  {
    FourScalar(hi, lo, Four(hi, lo));
    PairSplits(hi - 0xD800, lo - 0xDC00);
  }

  lemma {:induction false} FourScalar(hi: Unit, lo: Unit, f: seq<Octet>)
    requires IsHigh(hi) && IsLow(lo) && f == Four(hi, lo)
    ensures FourByteScalar(f[0], f[1], f[2], f[3]) == (hi - 0xD800) * 1024 + (lo - 0xDC00) + 0x1_0000
  {
    HighParts(hi);
    LowParts(lo);
    FourOctets(hi / 64 % 16, hi / 4 % 16, hi % 4, lo / 64 % 16, lo % 64);
  }

  lemma HighParts(hi: int)
    requires 0xD800 <= hi < 0xDC00
    ensures hi / 64 % 16 * 64 + hi / 4 % 16 * 4 + hi % 4 == hi - 0xD800
  {
  }

  lemma LowParts(lo: int)
    requires 0xDC00 <= lo < 0xE000
    ensures lo / 64 % 16 * 64 + lo % 64 == lo - 0xDC00
  {
  }

  lemma {:induction false} FourOctets(p: int, q: int, r: int, x: int, y: int)
    requires 0 <= p < 16 && 0 <= q < 16 && 0 <= r < 4 && 0 <= x < 16 && 0 <= y < 64
    ensures FourByteScalar(0xF0 + (p + 1) / 4, 0x80 + (p + 1) % 4 * 16 + q, 0x80 + r * 16 + x, 0x80 + y)
         == (p * 64 + q * 4 + r) * 1024 + x * 64 + y + 0x1_0000
  {
    var a, b := (p + 1) / 4, (p + 1) % 4;
    assert (0xF0 + a) % 8 == a;
    assert (0x80 + b * 16 + q) % 64 == b * 16 + q;
    assert (0x80 + r * 16 + x) % 64 == r * 16 + x;
    assert (0x80 + y) % 64 == y;
  }

  lemma {:induction false} PairSplits(h: int, l: int)
    requires 0 <= h < 1024 && 0 <= l < 1024
    ensures PairScalar(0xD800 + h, 0xDC00 + l) == h * 1024 + l + 0x1_0000
    ensures Surrogates(h * 1024 + l + 0x1_0000) == [0xD800 + h, 0xDC00 + l]
  {
    assert (0xD800 + h) % 1024 == h && (0xDC00 + l) % 1024 == l;
    assert (h * 1024 + l) / 1024 == h && (h * 1024 + l) % 1024 == l;
  }

  /** Every sequence of units, well-formed or not, is recovered exactly from the octets. */
  lemma {:induction false} ConversionIsLossless(s: seq<Unit>)
    ensures Units(Utf8(s)) == Some(s)
  {
    if s == [] {
    } else {
      var rest := s[HeadUnits(s)..];
      ConversionIsLossless(rest);
      var b := Utf8(s);
      assert b[|Head(s)|..] == Utf8(rest);
      assert s[..HeadUnits(s)] + rest == s;
      if s[0] < ONE_BYTE_BOUNDARY {
        assert s[..1] == [s[0]];
      } else if s[0] < TWO_BYTES_BOUNDARY {
        TwoReadsBack(s[0]);
        assert s[..1] == [s[0]];
      } else if StartsWithPair(s) {
        FourReadsBack(s[0], s[1]);
        assert s[..2] == [s[0], s[1]];
      } else {
        ThreeReadsBack(s[0]);
        assert s[..1] == [s[0]];
      }
    }
  }

  /** Two texts with the same octets are the same text. */
  lemma {:induction false} ConversionIsInjective(s: seq<Unit>, t: seq<Unit>)
    requires Utf8(s) == Utf8(t)
    ensures s == t
  {
    ConversionIsLossless(s);
    ConversionIsLossless(t);
  }

  // ---- scalar values, by the two standards ----

  /** The scalar values of a UTF-16 text (RFC 2781, section 2.2); None for a text with a lone surrogate. */
  function Utf16Scalars(s: seq<Unit>): Option<seq<Scalar>> {
    if s == [] then Some([])
    else if !IsHigh(s[0]) && !IsLow(s[0]) then Cons([s[0]], Utf16Scalars(s[1..]))
    else if StartsWithPair(s) then Cons([PairScalar(s[0], s[1])], Utf16Scalars(s[2..]))
    else None
  }

  predicate Tail(o: Octet) {
    0x80 <= o <= 0xBF
  }

  /** Length of the UTF8-char at the front by the grammar of RFC 3629, section 4; 0 when there is none. */
  function CharLength(b: seq<Octet>): (n: nat)
    ensures n <= |b|
  {
    if b == [] then 0
    else if b[0] <= 0x7F then 1
    else if |b| >= 2 && 0xC2 <= b[0] <= 0xDF && Tail(b[1]) then 2
    else if |b| >= 3 && Tail(b[2])
            && ( (b[0] == 0xE0 && 0xA0 <= b[1] <= 0xBF)
                 || (0xE1 <= b[0] <= 0xEC && Tail(b[1]))
                 || (b[0] == 0xED && 0x80 <= b[1] <= 0x9F)
                 || (0xEE <= b[0] <= 0xEF && Tail(b[1]))) then 3
    else if |b| >= 4 && Tail(b[2]) && Tail(b[3])
            && ( (b[0] == 0xF0 && 0x90 <= b[1] <= 0xBF)
                 || (0xF1 <= b[0] <= 0xF3 && Tail(b[1]))
                 || (b[0] == 0xF4 && 0x80 <= b[1] <= 0x8F)) then 4
    else 0
  }

  /** The scalar values of a UTF-8 text (RFC 3629, section 3); None when it is not well-formed. */
  function Utf8Scalars(b: seq<Octet>): Option<seq<Scalar>> {
    if b == [] then Some([])
    else
      match CharLength(b)
      case 1 => Cons([b[0]], Utf8Scalars(b[1..]))
      case 2 => Cons([TwoByteValue(b[0], b[1])], Utf8Scalars(b[2..]))
      case 3 => Cons([ThreeByteValue(b[0], b[1], b[2])], Utf8Scalars(b[3..]))
      case 4 => Cons([FourByteScalar(b[0], b[1], b[2], b[3])], Utf8Scalars(b[4..]))
      case _ => None
  }

  lemma {:induction false} TwoIsWellFormed(ch: Unit, more: seq<Octet>)
    requires ONE_BYTE_BOUNDARY <= ch < TWO_BYTES_BOUNDARY
    ensures CharLength(Two(ch) + more) == 2
    ensures TwoByteValue(Two(ch)[0], Two(ch)[1]) == ch
  {
    TwoReadsBack(ch);
  }

  lemma {:induction false} ThreeIsWellFormedUnlessSurrogate(ch: Unit, more: seq<Octet>)
    requires TWO_BYTES_BOUNDARY <= ch
    ensures CharLength(Three(ch) + more) == if IsHigh(ch) || IsLow(ch) then 0 else 3
    ensures ThreeByteValue(Three(ch)[0], Three(ch)[1], Three(ch)[2]) == ch
  {
    ThreeLeadingOctets(ch);
    ThreeReadsBack(ch);
  }

  lemma ThreeLeadingOctets(ch: Unit)
    requires TWO_BYTES_BOUNDARY <= ch
    ensures 0xE0 <= Three(ch)[0] <= 0xEF && Tail(Three(ch)[1]) && Tail(Three(ch)[2])
    ensures Three(ch)[0] == 0xE0 ==> 0xA0 <= Three(ch)[1]
    ensures (IsHigh(ch) || IsLow(ch)) <==> (Three(ch)[0] == 0xED && 0xA0 <= Three(ch)[1])
  {
  }

  lemma {:induction false} FourIsWellFormed(hi: Unit, lo: Unit, more: seq<Octet>)
    requires IsHigh(hi) && IsLow(lo)
    ensures CharLength(Four(hi, lo) + more) == 4
  {
    var f := Four(hi, lo);
    assert 0xF0 <= f[0] <= 0xF4 && Tail(f[1]) && Tail(f[2]) && Tail(f[3]);
    assert f[0] == 0xF0 ==> 0x90 <= f[1];
    assert f[0] == 0xF4 ==> f[1] <= 0x8F;
  }

  /** The octets carry the same scalar values as the units, and are well-formed UTF-8 exactly when the units are well-formed UTF-16. */
  lemma {:induction false} ScalarValuesPreserved(s: seq<Unit>)
    ensures Utf8Scalars(Utf8(s)) == Utf16Scalars(s)
  {
    if s == [] {
    } else {
      var rest := s[HeadUnits(s)..];
      ScalarValuesPreserved(rest);
      var b := Utf8(s);
      assert b[|Head(s)|..] == Utf8(rest);
      if s[0] < ONE_BYTE_BOUNDARY {
      } else if s[0] < TWO_BYTES_BOUNDARY {
        TwoIsWellFormed(s[0], Utf8(rest));
      } else if StartsWithPair(s) {
        FourIsWellFormed(s[0], s[1], Utf8(rest));
        FourReadsBack(s[0], s[1]);
      } else {
        ThreeIsWellFormedUnlessSurrogate(s[0], Utf8(rest));
      }
    }
  }

  // ---- concatenation ----

  predicate CutSplitsPair(s: seq<Unit>, t: seq<Unit>) {
    s != [] && t != [] && IsHigh(s[|s| - 1]) && IsLow(t[0])
  }

  /** Converting a concatenation is concatenating the conversions, except exactly when the cut splits a surrogate pair. */
  lemma {:induction false} ConcatenationUnlessPairSplit(s: seq<Unit>, t: seq<Unit>)
    ensures Utf8(s + t) == Utf8(s) + Utf8(t) <==> !CutSplitsPair(s, t)
  {
    if s == [] {
      assert s + t == t;
    } else if |s| == 1 {
      ConcatenationAfterOne(s, t);
    } else {
      ConcatenationUnlessPairSplit(s[HeadUnits(s)..], t);
      CutAfterHead(s, t);
      ConcatenationStep(s, t);
    }
  }

  lemma {:induction false} ConcatenationStep(s: seq<Unit>, t: seq<Unit>)
    requires |s| >= 2
    ensures var rest := s[HeadUnits(s)..];
            Utf8(s + t) == Utf8(s) + Utf8(t) <==> Utf8(rest + t) == Utf8(rest) + Utf8(t)
  {
    var n := HeadUnits(s);
    var rest := s[n..];
    HeadIsLocal(s, t);
    assert (s + t)[n..] == rest + t;
    assert Head(s) + Utf8(rest) + Utf8(t) == Head(s) + (Utf8(rest) + Utf8(t));
    PrefixCancels(Head(s), Utf8(rest + t), Utf8(rest) + Utf8(t));
  }

  lemma CutAfterHead(s: seq<Unit>, t: seq<Unit>)
    requires |s| >= 2
    ensures CutSplitsPair(s, t) == CutSplitsPair(s[HeadUnits(s)..], t)
  {
  }

  lemma {:induction false} HeadIsLocal(s: seq<Unit>, t: seq<Unit>)
    requires |s| >= 2
    ensures Head(s + t) == Head(s) && HeadUnits(s + t) == HeadUnits(s)
  {
    assert (s + t)[0] == s[0] && (s + t)[1] == s[1];
  }

  lemma {:induction false} ConcatenationAfterOne(s: seq<Unit>, t: seq<Unit>)
    requires |s| == 1
    ensures Utf8(s + t) == Utf8(s) + Utf8(t) <==> !CutSplitsPair(s, t)
  {
    var st := s + t;
    assert st[0] == s[0] && st[1..] == t && s[1..] == [];
    if CutSplitsPair(s, t) {
      assert StartsWithPair(st) && st[2..] == t[1..];
      assert HeadLength(st) == 4 && HeadLength(s) == 3 && HeadLength(t) == 3 && HeadUnits(t) == 1;
      LengthBounds(st);
      LengthBounds(s);
      LengthBounds(t);
    } else {
      assert StartsWithPair(st) == false;
      assert Head(st) == Head(s);
    }
  }

  lemma {:induction false} PrefixCancels(p: seq<Octet>, a: seq<Octet>, b: seq<Octet>)
    ensures p + a == p + b <==> a == b
  {
    if p + a == p + b {
      assert (p + a)[|p|..] == a && (p + b)[|p|..] == b;
    }
  }
}

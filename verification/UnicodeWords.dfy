/** The octets that the converter computes by shifts, masks and tags on machine words, and their values. */
module UnicodeWords {
  import opened Unicode

  function Value(x: bv16): Unit {
    x as int
  }

  /** Words with the values of the octets. */
  predicate Spell(words: seq<bv16>, octets: seq<Octet>) {
    |words| == |octets| && forall i :: 0 <= i < |words| ==> words[i] as int == octets[i]
  }

  // ---- shifts and masks as quotients and remainders ----

  lemma Join6(q: bv16, r: bv16)
    requires q < 0x400 && r < 64
    ensures ((q << 6) | r) as int == 64 * (q as int) + (r as int) && 0 <= r as int < 64
  {
  }

  lemma Join4(q: bv16, r: bv16)
    requires q < 0x40 && r < 16
    ensures ((q << 4) | r) as int == 16 * (q as int) + (r as int) && 0 <= r as int < 16
  {
  }

  lemma Join2(q: bv16, r: bv16)
    requires q < 0x10 && r < 4
    ensures ((q << 2) | r) as int == 4 * (q as int) + (r as int) && 0 <= r as int < 4
  {
  }

  lemma Parts6(x: bv16) returns (n: int, q: int, r: int)
    ensures n == x as int && q == (x >> 6) as int && r == (x & 0x3F) as int
    ensures n == 64 * q + r && 0 <= r < 64
  {
    assert x == ((x >> 6) << 6) | (x & 0x3F) && x >> 6 < 0x400 && x & 0x3F < 64;
    Join6(x >> 6, x & 0x3F);
    n, q, r := x as int, (x >> 6) as int, (x & 0x3F) as int;
  }

  lemma Parts4(x: bv16) returns (n: int, q: int, r: int)
    requires x < 0x400
    ensures n == x as int && q == (x >> 4) as int && r == (x & 0x0F) as int
    ensures n == 16 * q + r && 0 <= r < 16
  {
    assert x == ((x >> 4) << 4) | (x & 0x0F) && x >> 4 < 0x40 && x & 0x0F < 16;
    Join4(x >> 4, x & 0x0F);
    n, q, r := x as int, (x >> 4) as int, (x & 0x0F) as int;
  }

  lemma Parts2(x: bv16) returns (n: int, q: int, r: int)
    requires x < 0x40
    ensures n == x as int && q == (x >> 2) as int && r == (x & 0x03) as int
    ensures n == 4 * q + r && 0 <= r < 4
  {
    assert x == ((x >> 2) << 2) | (x & 0x03) && x >> 2 < 0x10 && x & 0x03 < 4;
    Join2(x >> 2, x & 0x03);
    n, q, r := x as int, (x >> 2) as int, (x & 0x03) as int;
  }

  lemma Divided(n: int, d: int, q: int, r: int)
    requires (d == 64 || d == 16 || d == 4) && n == d * q + r && 0 <= r < d
    ensures n / d == q && n % d == r
  {
  }

  lemma SixBits(x: bv16)
    ensures (x >> 6) as int == x as int / 64 && (x & 0x3F) as int == x as int % 64
  {
    var n, q, r := Parts6(x);
    Divided(n, 64, q, r);
  }

  lemma FourBits(x: bv16)
    requires x < 0x400
    ensures (x & 0x0F) as int == x as int % 16
  {
    var n, q, r := Parts4(x);
    Divided(n, 16, q, r);
  }

  lemma TwoBits(x: bv16)
    requires x < 0x40
    ensures (x >> 2) as int == x as int / 4 && (x & 0x03) as int == x as int % 4
  {
    var n, q, r := Parts2(x);
    Divided(n, 4, q, r);
  }

  /** The second lowest group of six bits, and the bits above it. */
  lemma MiddleBits(x: bv16)
    ensures ((x >> 6) & 0x3F) as int == x as int / 64 % 64 && (x >> 12) as int == x as int / 4096
    ensures ((x >> 6) & 0x0F) as int == x as int / 64 % 16
  {
    SixBits(x);
    SixBits(x >> 6);
    assert x >> 12 == (x >> 6) >> 6 && x >> 6 < 0x400;
    FourBits(x >> 6);
    Quotients(x as int);
  }

  lemma Quotients(n: int)
    ensures n / 64 / 64 == n / 4096
  {
  }

  // ---- tags ----

  lemma Tags(x: bv16)
    ensures x < 0x80 ==> (x & 0x7F) as int == x as int
    ensures x < 0x40 ==> (0x80 | x) as int == 0x80 + (x as int)
    ensures x < 0x20 ==> (0xC0 | x) as int == 0xC0 + (x as int)
    ensures x < 0x10 ==> (0xE0 | x) as int == 0xE0 + (x as int)
    ensures x < 0x08 ==> (0xF0 | x) as int == 0xF0 + (x as int)
  {
  }

  lemma TaggedPair(x: bv16, y: bv16)
    requires x < 4 && y < 16
    ensures (0x80 | (x << 4) | y) as int == 0x80 + 16 * (x as int) + (y as int)
  {
  }

  // ---- the forms ----

  lemma OneOctet(x: bv16)
    requires x < 0x80
    ensures Spell([x & 0x7F], Head([Value(x)]))
  {
    Tags(x);
  }

  lemma TwoOctets(x: bv16)
    requires 0x80 <= x < 0x800
    ensures Spell([0xC0 | (x >> 6), 0x80 | (x & 0x3F)], Two(Value(x)))
  {
    SixBits(x);
    Tags(x >> 6);
    Tags(x & 0x3F);
  }

  lemma ThreeOctets(x: bv16)
    ensures Spell([0xE0 | (x >> 12), 0x80 | ((x >> 6) & 0x3F), 0x80 | (x & 0x3F)], Three(Value(x)))
  {
    SixBits(x);
    MiddleBits(x);
    Tags(x >> 12);
    Tags((x >> 6) & 0x3F);
    Tags(x & 0x3F);
  }

  /** The truncated byte of a high surrogate. */
  function Trunc(hi: bv16): bv16 {
    ((hi >> 6) & 0x0F) + 1
  }

  lemma TruncValue(hi: bv16)
    ensures Trunc(hi) as int == hi as int / 64 % 16 + 1 && 1 <= Trunc(hi) <= 16
  {
    MiddleBits(hi);
  }

  lemma FirstOfFour(hi: bv16)
    ensures (0xF0 | (Trunc(hi) >> 2)) as int == 0xF0 + (hi as int / 64 % 16 + 1) / 4
  {
    TruncValue(hi);
    TwoBits(Trunc(hi));
    Tags(Trunc(hi) >> 2);
  }

  lemma LowMasks(x: bv16)
    ensures (x >> 2) & 0x0F == (x & 0x3F) >> 2 && x & 0x03 == (x & 0x3F) & 0x03 && x & 0x3F < 0x40
  {
  }

  lemma LowQuotients(n: int, q: int, r: int)
    requires n == 64 * q + r && 0 <= r < 64
    ensures n / 4 % 16 == r / 4 && n % 4 == r % 4
  {
    assert n / 4 == 16 * q + r / 4;
  }

  lemma LowBits(x: bv16)
    ensures ((x >> 2) & 0x0F) as int == x as int / 4 % 16 && (x & 0x03) as int == x as int % 4
  {
    var n, q, r := Parts6(x);
    LowMasks(x);
    TwoBits(x & 0x3F);
    LowQuotients(n, q, r);
  }

  lemma SecondOfFour(hi: bv16)
    ensures (0x80 | ((Trunc(hi) & 0x03) << 4) | ((hi >> 2) & 0x0F)) as int
         == 0x80 + (hi as int / 64 % 16 + 1) % 4 * 16 + hi as int / 4 % 16
  {
    TruncValue(hi);
    TwoBits(Trunc(hi));
    LowBits(hi);
    TaggedPair(Trunc(hi) & 0x03, (hi >> 2) & 0x0F);
  }

  lemma ThirdOfFour(hi: bv16, lo: bv16)
    ensures (0x80 | ((hi & 0x03) << 4) | ((lo >> 6) & 0x0F)) as int == 0x80 + hi as int % 4 * 16 + lo as int / 64 % 16
  {
    LowBits(hi);
    MiddleBits(lo);
    TaggedPair(hi & 0x03, (lo >> 6) & 0x0F);
  }

  lemma FourthOfFour(lo: bv16)
    ensures (0x80 | (lo & 0x3F)) as int == 0x80 + lo as int % 64
  {
    SixBits(lo);
    Tags(lo & 0x3F);
  }

  /** The four words have the values of the model's four octets, one by one. */
  lemma EachOfFour(hi: bv16, lo: bv16, octets: seq<Octet>)
    requires octets == Four(Value(hi), Value(lo))
    ensures |octets| == 4
    ensures (0xF0 | (Trunc(hi) >> 2)) as int == octets[0]
    ensures (0x80 | ((Trunc(hi) & 0x03) << 4) | ((hi >> 2) & 0x0F)) as int == octets[1]
    ensures (0x80 | ((hi & 0x03) << 4) | ((lo >> 6) & 0x0F)) as int == octets[2]
    ensures (0x80 | (lo & 0x3F)) as int == octets[3]
  {
    FirstOfFour(hi);
    SecondOfFour(hi);
    ThirdOfFour(hi, lo);
    FourthOfFour(lo);
  }

  lemma SpellFour(a: bv16, b: bv16, c: bv16, d: bv16, octets: seq<Octet>)
    requires |octets| == 4 && a as int == octets[0] && b as int == octets[1] && c as int == octets[2] && d as int == octets[3]
    ensures Spell([a, b, c, d], octets)
  {
  }

  lemma FourOctets(hi: bv16, lo: bv16, octets: seq<Octet>)
    requires octets == Four(Value(hi), Value(lo))
    ensures Spell([0xF0 | (Trunc(hi) >> 2),
                   0x80 | ((Trunc(hi) & 0x03) << 4) | ((hi >> 2) & 0x0F),
                   0x80 | ((hi & 0x03) << 4) | ((lo >> 6) & 0x0F),
                   0x80 | (lo & 0x3F)],
                  octets)
  {
    EachOfFour(hi, lo, octets);
    SpellFour(0xF0 | (Trunc(hi) >> 2),
              0x80 | ((Trunc(hi) & 0x03) << 4) | ((hi >> 2) & 0x0F),
              0x80 | ((hi & 0x03) << 4) | ((lo >> 6) & 0x0F),
              0x80 | (lo & 0x3F),
              octets);
  }
}

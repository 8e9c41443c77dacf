/** The JSON-like values that cross the bridge, with the conversions the bridge applies to them. */
module Dynamic {
  import opened Wrappers

  type int64 = x: int | -0x8000_0000_0000_0000 <= x < 0x8000_0000_0000_0000

  datatype Dyn =
    | Null
    | Bool(b: bool)
    | Int(n: int64)
    | Double(x: real)
    | Str(s: string)
    | Arr(items: seq<Dyn>)
    | Obj(fields: map<string, Dyn>)
  {
    predicate IsNumber() {
      Int? || Double?
    }

    /** Only strings, arrays and objects have a size; asking any other value but null for emptiness throws. */
    predicate HasEmptiness() {
      Null? || Str? || Arr? || Obj?
    }

    predicate IsEmpty()
      requires HasEmptiness()
    {
      match this
      case Null => true
      case Str(s) => s == ""
      case Arr(a) => a == []
      case Obj(o) => o == map[]
    }

    /** Conversion to a 64-bit integer; None where the conversion throws. */
    function AsInt(): Option<int64> {
      match this
      case Bool(b) => Some(if b then 1 else 0)
      case Int(n) => Some(n)
      case Double(x) => ExactInt(x)
      case Str(s) => DecimalText(s)
      case _ => None
    }
  }

  function ExactInt(x: real): Option<int64> {
    if x.Floor as real == x && -0x8000_0000_0000_0000 <= x.Floor < 0x8000_0000_0000_0000
    then Some(x.Floor)
    else None
  }

  function DecimalText(s: string): Option<int64> {
    if |s| > 1 && s[0] == '-' && AllDigits(s[1..]) then InInt64(0 - DigitsValue(s[1..]))
    else if |s| > 0 && AllDigits(s) then InInt64(DigitsValue(s))
    else None
  }

  function InInt64(n: int): Option<int64> {
    if -0x8000_0000_0000_0000 <= n < 0x8000_0000_0000_0000 then Some(n) else None
  }

  predicate AllDigits(s: string) {
    forall i :: 0 <= i < |s| ==> '0' <= s[i] <= '9'
  }

  function DigitsValue(s: string): nat
    requires AllDigits(s)
  {
    if s == "" then 0 else 10 * DigitsValue(s[..|s| - 1]) + (s[|s| - 1] - '0') as nat
  }

  /** Narrowing to a signed 32-bit int keeps the low 32 bits. */
  function ToInt32(n: int): (r: int)
    ensures -0x8000_0000 <= r < 0x8000_0000
  {
    var low := n % 0x1_0000_0000;
    if low < 0x8000_0000 then low else low - 0x1_0000_0000
  }

  /** Narrowing to an unsigned 32-bit int keeps the low 32 bits. */
  function ToUint32(n: int): (r: nat)
    ensures r < 0x1_0000_0000
  {
    n % 0x1_0000_0000
  }

  /** Going through a signed int and back to unsigned loses nothing below 2^32. */
  lemma UnsignedThroughSigned(n: nat)
    requires n < 0x1_0000_0000
    ensures ToUint32(ToInt32(n)) == n
  {
  }

  // ---- what the conversions mean ----

  /** Narrowing changes a number by a multiple of 2^32, and not at all if it fits. */
  lemma NarrowingKeepsLowBits(n: int)
    ensures (ToInt32(n) - n) % 0x1_0000_0000 == 0 && (ToUint32(n) - n) % 0x1_0000_0000 == 0
    ensures -0x8000_0000 <= n < 0x8000_0000 ==> ToInt32(n) == n
    ensures 0 <= n < 0x1_0000_0000 ==> ToUint32(n) == n
  {
  }

  /** Which values convert to which integers; a string does if it is a numeral, with a minus sign or without. */
  lemma ConvertsExactly(d: Dyn, n: int64)
    ensures d.AsInt() == Some(n) <==>
      match d
      case Bool(b) => n == if b then 1 else 0
      case Int(m) => n == m
      case Double(x) => x == n as real
      case Str(s) => (s != "" && AllDigits(s) && DigitsValue(s) == n)
                     || (|s| > 1 && s[0] == '-' && AllDigits(s[1..]) && DigitsValue(s[1..]) == 0 - n)
      case _ => false
    ensures d.IsNumber() <==> d.Int? || d.Double?
  {
  }

  lemma {:induction false} NumeralsConvert(n: nat)
    requires n < 0x8000_0000_0000_0000
    ensures Str(Decimal(n)).AsInt() == Some(n) && Str("-" + Decimal(n)).AsInt() == Some(0 - n)
  {
    DecimalReadsBack(n);
    assert ("-" + Decimal(n))[1..] == Decimal(n);
  }

  lemma EmptyExactly(d: Dyn)
    ensures d.HasEmptiness() <==> !d.Bool? && !d.Int? && !d.Double?
    ensures d.HasEmptiness() ==> (d.IsEmpty() <==> d in {Null, Str(""), Arr([]), Obj(map[])})
  {
  }

  // ---- decimal numerals, as the names of modules and bundles use them ----

  function Decimal(n: nat): string {
    if n < 10 then [DigitChar(n)] else Decimal(n / 10) + [DigitChar(n % 10)]
  }

  function DigitChar(d: nat): char
    requires d < 10
  {
    '0' + d as char
  }

  lemma {:induction false} DecimalReadsBack(n: nat)
    ensures |Decimal(n)| > 0 && AllDigits(Decimal(n)) && DigitsValue(Decimal(n)) == n
  {
    if n < 10 {
      assert Decimal(n)[..0] == "";
    } else {
      DecimalReadsBack(n / 10);
      var head := Decimal(n / 10);
      assert Decimal(n)[..|Decimal(n)| - 1] == head;
    }
  }

  /** The shortest numeral: no zero in front, and digits in the usual order. */
  lemma {:induction false} DecimalIsShortest(n: nat)
    ensures Decimal(n) == "0" <==> n == 0
    ensures n > 0 ==> Decimal(n)[0] != '0'
    ensures DigitsValue("10") == 10 && DigitsValue("7") == 7
  {
    assert "10"[..1] == "1" && "1"[..0] == "" && "7"[..0] == "";
    if n < 10 {
    } else {
      DecimalIsShortest(n / 10);
      assert |Decimal(n / 10)| > 0;
      assert Decimal(n)[0] == Decimal(n / 10)[0];
    }
  }

  /** What every kind of bundle calls a module. */
  function FileName(id: nat): string {
    Decimal(id) + ".js"
  }
}

/** Trace messages rendered into a fixed buffer, and the unbounded text they are a beginning of. */
module Tracing {

  type Octet = x: int | 0 <= x < 0x100
  type JsChar = x: int | 0 <= x < 0x1_0000

  /** A JavaScript value, as the text it converts to. */
  type Text = seq<JsChar>

  const BAR: Octet := 124
  const SEMICOLON: Octet := 59
  const EQUALS: Octet := 61
  const LESS: Octet := 60
  const GREATER: Octet := 62
  const ZERO: Octet := 48

  function Min(a: nat, b: nat): nat {
    if a < b then a else b
  }

  function First<T>(s: seq<T>, n: nat): seq<T> {
    s[..Min(|s|, n)]
  }

  // ---- the ideal text ----

  /** Each character keeps its low eight bits. */
  function Ascii(t: Text): seq<Octet> {
    seq(|t|, i requires 0 <= i < |t| => t[i] % 0x100)
  }

  /** The arguments from one on, as `|key=value;key=value...`; a last key without a value is left out. */
  function Rendered(args: seq<Text>, separator: Octet): seq<Octet> {
    if |args| < 2 then []
    else [separator] + Ascii(args[0]) + [EQUALS] + Ascii(args[1]) + Rendered(args[2..], SEMICOLON)
  }

  function Arguments(args: seq<Text>): seq<Octet> {
    Rendered(args, BAR)
  }

  // ---- the code ----

  /** copyTruncatedAsciiChars: the beginning of the text that fits both limits. */
  method CopyTruncatedAsciiChars(buf: array<Octet>, at: nat, bufLen: nat, value: Text, maxLen: nat) returns (written: nat)
    requires at + bufLen <= buf.Length
    modifies buf
    ensures written == Min(|value|, Min(bufLen, maxLen))
    ensures buf[..at] == old(buf[..at])
    ensures buf[at..at + written] == Ascii(value)[..written]
    ensures forall k :: at + written <= k < buf.Length ==> buf[k] == old(buf[k])
  {
    var toWrite := Min(|value|, Min(bufLen, maxLen));
    written := 0;
    while written < toWrite
      invariant 0 <= written <= toWrite
      invariant forall k :: at <= k < at + written ==> buf[k] == value[k - at] % 0x100
      invariant forall k :: 0 <= k < at || at + written <= k < buf.Length ==> buf[k] == old(buf[k])
    {
      buf[at + written] := value[written] % 0x100;
      written := written + 1;
    }
    forall k | 0 <= k < written
      ensures buf[at..at + written][k] == Ascii(value)[..written][k]
    {
      assert buf[at + k] == value[k] % 0x100;
    }
    assert buf[at..at + written] == Ascii(value)[..written];
  }

  /** The buffer holds the beginning of a text that still fits, and more of the text may follow. */
  ghost predicate Holds(buf: seq<Octet>, pos: nat, text: seq<Octet>) {
    pos == Min(|text|, |buf|) && buf[..pos] == text[..pos]
  }

  lemma {:induction false} HoldsMore(buf: seq<Octet>, text: seq<Octet>, more: seq<Octet>)
    requires |text| >= |buf| && Holds(buf, |buf|, text)
    ensures Holds(buf, |buf|, text + more)
  {
    assert (text + more)[..|buf|] == text[..|buf|];
  }

  /** Puts one octet after a text that fits with room to spare. */
  method PutOctet(buf: array<Octet>, pos: nat, o: Octet, ghost text: seq<Octet>) returns (next: nat)
    requires pos < buf.Length && |text| == pos && Holds(buf[..], pos, text)
    modifies buf
    ensures next == pos + 1 && |text + [o]| == next && Holds(buf[..], next, text + [o])
  {
    buf[pos] := o;
    next := pos + 1;
    assert buf[..][..next] == old(buf[..])[..pos] + [o];
  }

  /** Puts as much of a value as there is room for. */
  method PutText(buf: array<Octet>, pos: nat, value: Text, maxLen: nat, ghost text: seq<Octet>) returns (next: nat)
    requires pos <= buf.Length <= pos + maxLen || |value| <= maxLen
    requires |text| == pos <= buf.Length && Holds(buf[..], pos, text)
    modifies buf
    ensures next == Min(pos + |value|, buf.Length) && Holds(buf[..], next, text + Ascii(value))
    ensures next < buf.Length ==> next == |text + Ascii(value)|
  {
    var written := CopyTruncatedAsciiChars(buf, pos, buf.Length - pos, value, maxLen);
    next := pos + written;
    assert buf[..][..pos] == buf[..pos] == text;
    assert buf[..][..next] == buf[..pos] + buf[pos..next];
    assert (text + Ascii(value))[..next] == text + Ascii(value)[..written];
  }

  /**
   copyArgsToBuffer: starting inside the buffer, with the cap on each piece no smaller than the buffer, it stays
   inside and leaves the beginning of the ideal text.
   */
  method CopyArgsToBuffer(buf: array<Octet>, start: nat, args: seq<Text>, maxMessage: nat, ghost before: seq<Octet>) returns (pos: nat)
    requires start < buf.Length <= maxMessage
    requires |before| == start && Holds(buf[..], start, before)
    modifies buf
    ensures Holds(buf[..], pos, before + Arguments(args))
  {
    pos := start;
    var separator := BAR;
    var idx := 0;
    ghost var text := before;
    assert args[0..] == args;
    while idx + 1 < |args|
      invariant 0 <= idx <= |args|
      invariant pos < buf.Length && |text| == pos && Holds(buf[..], pos, text)
      invariant text + Rendered(args[idx..], separator) == before + Arguments(args)
    {
      ghost var key, value := Ascii(args[idx]), Ascii(args[idx + 1]);
      ghost var rest := Rendered(args[idx + 2..], SEMICOLON);
      assert args[idx..][2..] == args[idx + 2..];
      OnePair(text, separator, key, value, rest);
      pos := PutOctet(buf, pos, separator, text);
      text := text + [separator];
      separator := SEMICOLON;
      if pos >= buf.Length {
        HoldsMore(buf[..], text, key + [EQUALS] + value + rest);
        break;
      }
      pos := PutText(buf, pos, args[idx], maxMessage, text);
      text := text + key;
      if pos >= buf.Length {
        HoldsMore(buf[..], text, [EQUALS] + value + rest);
        break;
      }
      pos := PutOctet(buf, pos, EQUALS, text);
      text := text + [EQUALS];
      if pos >= buf.Length {
        HoldsMore(buf[..], text, value + rest);
        break;
      }
      pos := PutText(buf, pos, args[idx + 1], maxMessage, text);
      text := text + value;
      if pos >= buf.Length {
        HoldsMore(buf[..], text, rest);
        break;
      }
      idx := idx + 2;
    }
  }

  lemma OnePair(text: seq<Octet>, separator: Octet, key: seq<Octet>, value: seq<Octet>, rest: seq<Octet>)
    ensures text + ([separator] + key + [EQUALS] + value + rest) == text + [separator] + (key + [EQUALS] + value + rest)
    ensures text + [separator] + (key + [EQUALS] + value + rest) == text + [separator] + key + ([EQUALS] + value + rest)
    ensures text + [separator] + key + ([EQUALS] + value + rest) == text + [separator] + key + [EQUALS] + (value + rest)
    ensures text + [separator] + key + [EQUALS] + (value + rest) == text + [separator] + key + [EQUALS] + value + rest
  {
  }

  // ---- whole messages ----

  const LETTER_B: Octet := 66
  const LETTER_E: Octet := 69

  /** A section name or cookie is cut to a small length. */
  function Cut(value: Text, maxName: nat): Text {
    First(value, maxName)
  }

  /** The letters of asynchronous sections and flows. */
  function AsyncLetter(isEnd: bool, isFlow: bool): Octet {
    if isFlow then if isEnd then 102 else 115 else if isEnd then 70 else 83
  }

  function BeginHeader(pid: seq<Octet>, name: Text, maxName: nat): seq<Octet> {
    [LETTER_B, BAR] + pid + [BAR] + Ascii(Cut(name, maxName))
  }

  function AsyncHeader(isEnd: bool, isFlow: bool, pid: seq<Octet>, name: Text, cookie: Text, maxName: nat): seq<Octet> {
    [AsyncLetter(isEnd, isFlow), BAR] + pid + [BAR] + Ascii(Cut(name, maxName))
    + (if isEnd || isFlow then [] else [LESS, ZERO, GREATER]) + [BAR] + Ascii(Cut(cookie, maxName))
  }

  // ---- the texts, in letters ----

  /** The octets of plain letters. */
  function Codes(s: string): seq<Octet> {
    seq(|s|, i requires 0 <= i < |s| => s[i] as int % 0x100)
  }

  lemma {:induction false} CodesJoin(a: string, b: string)
    ensures Codes(a + b) == Codes(a) + Codes(b)
  {
    assert forall i :: 0 <= i < |b| ==> (a + b)[|a| + i] == b[i];
  }

  /** No more of a name than the limit allows, its characters cut to their low octets. */
  function Shortened(name: Text, limit: nat): (r: seq<Octet>)
    ensures |r| == if |name| < limit then |name| else limit
    ensures forall i :: 0 <= i < |r| ==> r[i] == name[i] % 0x100
  {
    Ascii(Cut(name, limit))
  }

  lemma BeginText(pid: seq<Octet>, name: Text, limit: nat)
    ensures BeginHeader(pid, name, limit) == Codes("B|") + pid + Codes("|") + Shortened(name, limit)
    ensures [LETTER_E, BAR, BAR] == Codes("E||")
  {
  }

  /** Sections start with S and end with F, flows with s and f; only the start of a section has the mark in between. */
  lemma AsyncText(pid: seq<Octet>, name: Text, cookie: Text, limit: nat)
    ensures var n, c := Shortened(name, limit), Shortened(cookie, limit);
      && AsyncHeader(false, false, pid, name, cookie, limit) == Codes("S|") + pid + Codes("|") + n + Codes("<0>") + Codes("|") + c
      && AsyncHeader(true, false, pid, name, cookie, limit) == Codes("F|") + pid + Codes("|") + n + Codes("|") + c
      && AsyncHeader(false, true, pid, name, cookie, limit) == Codes("s|") + pid + Codes("|") + n + Codes("|") + c
      && AsyncHeader(true, true, pid, name, cookie, limit) == Codes("f|") + pid + Codes("|") + n + Codes("|") + c
  {
    var n := Shortened(name, limit);
    assert n + [] == n;
    assert Codes("|") == [BAR] && Codes("<0>") == [LESS, ZERO, GREATER];
    assert Codes("S|") + pid + Codes("|") + n == [83, BAR] + pid + [BAR] + n;
    assert Codes("F|") + pid + Codes("|") + n + [] == [70, BAR] + pid + [BAR] + n;
    assert Codes("s|") + pid + Codes("|") + n + [] == [115, BAR] + pid + [BAR] + n;
    assert Codes("f|") + pid + Codes("|") + n + [] == [102, BAR] + pid + [BAR] + n;
  }

  /** One more pair adds a mark, the key, an equals sign and the value; a key without a value adds nothing. */
  lemma {:induction false} ArgumentsText(args: seq<Text>, key: Text, value: Text)
    requires |args| % 2 == 0
    ensures Arguments(args + [key, value])
         == Arguments(args) + (Codes(if args == [] then "|" else ";") + Ascii(key) + Codes("=") + Ascii(value))
    ensures Arguments(args + [key]) == Arguments(args)
  {
    RenderedText(args, key, value, BAR);
    assert Codes("|") == [BAR] && Codes(";") == [SEMICOLON];
  }

  lemma {:induction false} RenderedText(args: seq<Text>, key: Text, value: Text, separator: Octet)
    requires |args| % 2 == 0
    ensures Rendered(args + [key, value], separator)
         == Rendered(args, separator) + ([if args == [] then separator else SEMICOLON] + Ascii(key) + Codes("=") + Ascii(value))
    ensures Rendered(args + [key], separator) == Rendered(args, separator)
  {
    assert Codes("=") == [EQUALS];
    if args == [] {
      assert [key, value][2..] == [];
      assert args + [key, value] == [key, value] && args + [key] == [key];
      assert [separator] + Ascii(key) + [EQUALS] + Ascii(value) + [] == [separator] + Ascii(key) + [EQUALS] + Ascii(value);
      assert [] + ([separator] + Ascii(key) + [EQUALS] + Ascii(value)) == [separator] + Ascii(key) + [EQUALS] + Ascii(value);
    } else {
      assert (args + [key, value])[2..] == args[2..] + [key, value] && (args + [key])[2..] == args[2..] + [key];
      RenderedText(args[2..], key, value, SEMICOLON);
      assert Rendered(args + [key], separator) == Rendered(args, separator);
      var first := [separator] + Ascii(args[0]) + [EQUALS] + Ascii(args[1]);
      var last := [SEMICOLON] + Ascii(key) + [EQUALS] + Ascii(value);
      assert first + (Rendered(args[2..], SEMICOLON) + last) == first + Rendered(args[2..], SEMICOLON) + last;
    }
  }

  method PutAll(buf: array<Octet>, pos: nat, octets: seq<Octet>, ghost text: seq<Octet>) returns (next: nat)
    requires pos + |octets| <= buf.Length && |text| == pos && Holds(buf[..], pos, text)
    modifies buf
    ensures next == pos + |octets| == |text + octets| && Holds(buf[..], next, text + octets)
  {
    next := pos;
    ghost var was := buf[..];
    while next < pos + |octets|
      invariant pos <= next <= pos + |octets|
      invariant buf[..pos] == was[..pos]
      invariant forall k :: pos <= k < next ==> buf[k] == octets[k - pos]
    {
      buf[next] := octets[next - pos];
      next := next + 1;
    }
    assert buf[..][..next] == buf[..pos] + buf[pos..next];
    assert buf[pos..next] == octets;
  }

  /** A header piece that fits whole. */
  method PutCut(buf: array<Octet>, pos: nat, value: Text, maxName: nat, ghost text: seq<Octet>) returns (next: nat)
    requires pos + |Cut(value, maxName)| <= buf.Length && |text| == pos && Holds(buf[..], pos, text)
    modifies buf
    ensures next == |text + Ascii(Cut(value, maxName))| <= buf.Length
    ensures Holds(buf[..], next, text + Ascii(Cut(value, maxName)))
  {
    var written := CopyTruncatedAsciiChars(buf, pos, buf.Length - pos, value, maxName);
    next := pos + written;
    assert Ascii(value)[..written] == Ascii(Cut(value, maxName));
    assert buf[..][..pos] == buf[..pos] == text;
    assert buf[..][..next] == buf[..pos] + buf[pos..next];
  }

  /** The message that is sent keeps one octet of the buffer free. */
  method Send(buf: array<Octet>, pos: nat, ghost text: seq<Octet>) returns (sent: seq<Octet>)
    requires buf.Length > 0 && pos <= buf.Length && Holds(buf[..], pos, text)
    ensures sent == First(text, buf.Length - 1)
  {
    sent := buf[..Min(pos, buf.Length - 1)];
    assert sent == buf[..][..pos][..|sent|];
  }

  /** nativeTraceBeginSection, for a header that leaves room in the buffer. */
  method BeginSection(maxMessage: nat, maxName: nat, pid: seq<Octet>, name: Text, args: seq<Text>) returns (sent: seq<Octet>)
    requires |BeginHeader(pid, name, maxName)| < maxMessage
    ensures sent == First(BeginHeader(pid, name, maxName) + Arguments(args), maxMessage - 1)
  {
    var buf := new Octet[maxMessage];
    assert buf[..][..0] == [];
    var pos := PutAll(buf, 0, [LETTER_B, BAR] + pid + [BAR], []);
    ghost var text := [LETTER_B, BAR] + pid + [BAR];
    assert [] + text == text;
    pos := PutCut(buf, pos, name, maxName, text);
    text := BeginHeader(pid, name, maxName);
    pos := CopyArgsToBuffer(buf, pos, args, maxMessage, text);
    sent := Send(buf, pos, text + Arguments(args));
  }

  /** nativeTraceEndSection, when it has arguments. */
  method EndSection(maxMessage: nat, args: seq<Text>) returns (sent: seq<Octet>)
    requires 3 < maxMessage
    ensures sent == First([LETTER_E, BAR, BAR] + Arguments(args), maxMessage - 1)
  {
    var buf := new Octet[maxMessage];
    ghost var text := [LETTER_E, BAR, BAR];
    assert buf[..][..0] == [] && [] + text == text;
    var pos := PutAll(buf, 0, [LETTER_E, BAR, BAR], []);
    pos := CopyArgsToBuffer(buf, pos, args, maxMessage, text);
    sent := Send(buf, pos, text + Arguments(args));
  }

  /** beginOrEndAsync, for a header that leaves room in the buffer. */
  method BeginOrEndAsync(
    isEnd: bool, isFlow: bool, maxMessage: nat, maxName: nat, pid: seq<Octet>, name: Text, cookie: Text, args: seq<Text>
  ) returns (sent: seq<Octet>)
    requires |AsyncHeader(isEnd, isFlow, pid, name, cookie, maxName)| < maxMessage
    ensures sent == First(AsyncHeader(isEnd, isFlow, pid, name, cookie, maxName) + Arguments(args), maxMessage - 1)
  {
    var buf := new Octet[maxMessage];
    assert buf[..][..0] == [];
    var start := [AsyncLetter(isEnd, isFlow), BAR] + pid + [BAR];
    var pos := PutAll(buf, 0, start, []);
    ghost var text := start;
    assert [] + text == text;
    pos := PutCut(buf, pos, name, maxName, text);
    text := text + Ascii(Cut(name, maxName));
    if !(isEnd || isFlow) {
      pos := PutAll(buf, pos, [LESS, ZERO, GREATER], text);
      text := text + [LESS, ZERO, GREATER];
    } else {
      assert text + [] == text;
    }
    pos := PutAll(buf, pos, [BAR], text);
    text := text + [BAR];
    pos := PutCut(buf, pos, cookie, maxName, text);
    text := text + Ascii(Cut(cookie, maxName));
    assert text == AsyncHeader(isEnd, isFlow, pid, name, cookie, maxName);
    pos := CopyArgsToBuffer(buf, pos, args, maxMessage, text);
    sent := Send(buf, pos, text + Arguments(args));
  }

  // ---- the functions that JavaScript calls; the first argument is the tag ----

  datatype Traced = TooFewArguments | NotTracing | SectionEnded | Sent(message: seq<Octet>)

  method NativeTraceBeginSection(maxMessage: nat, maxName: nat, pid: seq<Octet>, isTracing: bool, args: seq<Text>)
    returns (r: Traced)
    requires |args| >= 2 ==> |BeginHeader(pid, args[1], maxName)| < maxMessage
    ensures |args| < 2 ==> r == TooFewArguments
    ensures |args| >= 2 && !isTracing ==> r == NotTracing
    ensures |args| >= 2 && isTracing ==>
      r == Sent(First(BeginHeader(pid, args[1], maxName) + Arguments(args[2..]), maxMessage - 1))
  {
    if |args| < 2 {
      return TooFewArguments;
    }
    if !isTracing {
      return NotTracing;
    }
    var message := BeginSection(maxMessage, maxName, pid, args[1], args[2..]);
    r := Sent(message);
  }

  /** Without further arguments the section ends without a message. */
  method NativeTraceEndSection(maxMessage: nat, isTracing: bool, args: seq<Text>) returns (r: Traced)
    requires 3 < maxMessage
    ensures |args| < 1 ==> r == TooFewArguments
    ensures |args| >= 1 && !isTracing ==> r == NotTracing
    ensures |args| == 1 && isTracing ==> r == SectionEnded
    ensures |args| > 1 && isTracing ==> r == Sent(First([LETTER_E, BAR, BAR] + Arguments(args[1..]), maxMessage - 1))
  {
    if |args| < 1 {
      return TooFewArguments;
    }
    if !isTracing {
      return NotTracing;
    }
    if |args| == 1 {
      return SectionEnded;
    }
    var message := EndSection(maxMessage, args[1..]);
    r := Sent(message);
  }

  method NativeTraceAsync(
    isEnd: bool, isFlow: bool, maxMessage: nat, maxName: nat, pid: seq<Octet>, isTracing: bool, args: seq<Text>
  ) returns (r: Traced)
    requires |args| >= 3 ==> |AsyncHeader(isEnd, isFlow, pid, args[1], args[2], maxName)| < maxMessage
    ensures |args| < 3 ==> r == TooFewArguments
    ensures |args| >= 3 && !isTracing ==> r == NotTracing
    ensures |args| >= 3 && isTracing ==>
      r == Sent(First(AsyncHeader(isEnd, isFlow, pid, args[1], args[2], maxName) + Arguments(args[3..]), maxMessage - 1))
  {
    if |args| < 3 {
      return TooFewArguments;
    }
    if !isTracing {
      return NotTracing;
    }
    var message := BeginOrEndAsync(isEnd, isFlow, maxMessage, maxName, pid, args[1], args[2], args[3..]);
    r := Sent(message);
  }

  // ---- the ideal text loses nothing ----

  /** Keys and values of the pairs, in order. */
  function Pairs(args: seq<Text>): seq<(seq<Octet>, seq<Octet>)> {
    if |args| < 2 then [] else [(Ascii(args[0]), Ascii(args[1]))] + Pairs(args[2..])
  }

  /** No key has an equals sign in it, and no value a semicolon. */
  predicate Plain(args: seq<Text>) {
    forall i :: 0 <= i < |args| ==> (if i % 2 == 0 then EQUALS else SEMICOLON) !in Ascii(args[i])
  }

  function Upto(s: seq<Octet>, o: Octet): seq<Octet> {
    if s == [] || s[0] == o then [] else [s[0]] + Upto(s[1..], o)
  }

  /** Reads keys and values back from a text of arguments. */
  function ReadPairs(s: seq<Octet>): seq<(seq<Octet>, seq<Octet>)>
    decreases |s|
  {
    if s == [] then []
    else
      var key := Upto(s[1..], EQUALS);
      if 1 + |key| >= |s| then []
      else
        var rest := s[1 + |key| + 1..];
        var value := Upto(rest, SEMICOLON);
        if |value| > |rest| then [] else [(key, value)] + ReadPairs(rest[|value|..])
  }

  lemma {:induction false} UptoStops(a: seq<Octet>, o: Octet, rest: seq<Octet>)
    requires forall k :: 0 <= k < |a| ==> a[k] != o
    requires rest == [] || rest[0] == o
    ensures Upto(a + rest, o) == a
  {
    if a == [] {
      assert a + rest == rest;
    } else {
      UptoStops(a[1..], o, rest);
      assert (a + rest)[1..] == a[1..] + rest;
    }
  }

  lemma {:induction false} PairParts(separator: Octet, key: seq<Octet>, value: seq<Octet>, more: seq<Octet>)
    ensures var s := [separator] + key + [EQUALS] + value + more;
      s != [] && s[1..] == key + ([EQUALS] + value + more) && |s| > 1 + |key| && s[1 + |key| + 1..] == value + more
    ensures (value + more)[|value|..] == more
  {
  }

  /** One pair is read, and what follows starts with a mark or is empty. */
  lemma {:induction false} PairReads(separator: Octet, key: seq<Octet>, value: seq<Octet>, more: seq<Octet>)
    requires EQUALS !in key && SEMICOLON !in value
    requires more == [] || more[0] == SEMICOLON
    ensures ReadPairs([separator] + key + [EQUALS] + value + more) == [(key, value)] + ReadPairs(more)
  {
    var s := [separator] + key + [EQUALS] + value + more;
    PairParts(separator, key, value, more);
    UptoStops(key, EQUALS, [EQUALS] + value + more);
    UptoStops(value, SEMICOLON, more);
  }

  /** Arguments without those marks are read back pair by pair. */
  lemma {:induction false} ArgumentsReadBack(args: seq<Text>, separator: Octet)
    requires Plain(args)
    ensures ReadPairs(Rendered(args, separator)) == Pairs(args)
  {
    if |args| < 2 {
    } else {
      forall i | 0 <= i < |args| - 2
        ensures (if i % 2 == 0 then EQUALS else SEMICOLON) !in Ascii(args[2..][i])
      {
        assert args[2..][i] == args[i + 2];
      }
      ArgumentsReadBack(args[2..], SEMICOLON);
      PairReads(separator, Ascii(args[0]), Ascii(args[1]), Rendered(args[2..], SEMICOLON));
    }
  }
}

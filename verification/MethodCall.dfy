/** The columnar batches in which JavaScript hands over its native calls. */
module MethodCalls {
  import opened Wrappers
  import opened Dynamic

  datatype MethodCall = MethodCall(moduleId: int, methodId: int, arguments: Dyn, callId: int)

  datatype ParseError =
    | NotAnArray
    | TooShort
    | FieldsNotArrays
    | SizesDiffer
    | BadCallId
    | ArgumentsNotArray
    | NotAnInteger

  type Parsed = Result<seq<MethodCall>, ParseError>

  /** What a batch means, read row by row. */
  function Parse(d: Dyn): Parsed {
    if d.Null? then Ok([])
    else if !d.Arr? then Err(NotAnArray)
    else if |d.items| < 3 then Err(TooShort)
    else if !d.items[0].Arr? || !d.items[1].Arr? || !d.items[2].Arr? then Err(FieldsNotArrays)
    else if |d.items[0].items| != |d.items[1].items| || |d.items[0].items| != |d.items[2].items| then Err(SizesDiffer)
    else match FirstCallId(d.items)
         case Err(e) => Err(e)
         case Ok(id) => ParseRows(d.items[0].items, d.items[1].items, d.items[2].items, id)
  }

  function FirstCallId(columns: seq<Dyn>): Result<int, ParseError> {
    if |columns| <= 3 then Ok(-1)
    else if !columns[3].IsNumber() then Err(BadCallId)
    else match columns[3].AsInt()
         case None => Err(NotAnInteger)
         case Some(id) => Ok(ToInt32(id))
  }

  function NextCallId(callId: int): int {
    if callId != -1 then callId + 1 else callId
  }

  function ParseRow(mod: Dyn, meth: Dyn, param: Dyn, callId: int): Result<MethodCall, ParseError> {
    if !param.Arr? then Err(ArgumentsNotArray)
    else match (mod.AsInt(), meth.AsInt())
         case (Some(i), Some(j)) => Ok(MethodCall(ToInt32(i), ToInt32(j), param, callId))
         case _ => Err(NotAnInteger)
  }

  function ParseRows(mods: seq<Dyn>, meths: seq<Dyn>, params: seq<Dyn>, callId: int): Parsed
    requires |mods| == |meths| == |params|
  {
    if mods == [] then Ok([])
    else match ParseRow(mods[0], meths[0], params[0], callId)
         case Err(e) => Err(e)
         case Ok(call) => Prepend([call], ParseRows(mods[1..], meths[1..], params[1..], NextCallId(callId)))
  }

  function Prepend(calls: seq<MethodCall>, rest: Parsed): Parsed {
    match rest
    case Ok(more) => Ok(calls + more)
    case Err(e) => Err(e)
  }

  /** The parser as it is written: a loop that appends one call per row and keeps a running call id. */
  method ParseMethodCalls(jsonData: Dyn) returns (r: Parsed)
    ensures r == Parse(jsonData)
  {
    if jsonData.Null? {
      return Ok([]);
    }
    if !jsonData.Arr? {
      return Err(NotAnArray);
    }
    if |jsonData.items| < 3 {
      return Err(TooShort);
    }
    var moduleIds, methodIds, params := jsonData.items[0], jsonData.items[1], jsonData.items[2];
    var callId := -1;
    if !moduleIds.Arr? || !methodIds.Arr? || !params.Arr? {
      return Err(FieldsNotArrays);
    }
    if |moduleIds.items| != |methodIds.items| || |moduleIds.items| != |params.items| {
      return Err(SizesDiffer);
    }
    if |jsonData.items| > 3 {
      if !jsonData.items[3].IsNumber() {
        return Err(BadCallId);
      }
      var id := jsonData.items[3].AsInt();
      if id.None? {
        return Err(NotAnInteger);
      }
      callId := ToInt32(id.value);
    }
    var methodCalls: seq<MethodCall> := [];
    var i := 0;
    ghost var all := ParseRows(moduleIds.items, methodIds.items, params.items, callId);
    assert moduleIds.items[0..] == moduleIds.items && methodIds.items[0..] == methodIds.items && params.items[0..] == params.items;
    PrependNothing(all);
    while i < |moduleIds.items|
      invariant 0 <= i <= |moduleIds.items|
      invariant all == Prepend(methodCalls, ParseRows(moduleIds.items[i..], methodIds.items[i..], params.items[i..], callId))
    {
      if !params.items[i].Arr? {
        return Err(ArgumentsNotArray);
      }
      var mod, meth := moduleIds.items[i].AsInt(), methodIds.items[i].AsInt();
      if mod.None? || meth.None? {
        return Err(NotAnInteger);
      }
      ghost var call := MethodCall(ToInt32(mod.value), ToInt32(meth.value), params.items[i], callId);
      ghost var rest := ParseRows(moduleIds.items[i + 1..], methodIds.items[i + 1..], params.items[i + 1..], NextCallId(callId));
      assert moduleIds.items[i..][1..] == moduleIds.items[i + 1..];
      assert methodIds.items[i..][1..] == methodIds.items[i + 1..];
      assert params.items[i..][1..] == params.items[i + 1..];
      PrependTwice(methodCalls, [call], rest);
      methodCalls := methodCalls + [MethodCall(ToInt32(mod.value), ToInt32(meth.value), params.items[i], callId)];
      callId := callId + (if callId != -1 then 1 else 0);
      i := i + 1;
    }
    assert methodCalls + [] == methodCalls;
    return Ok(methodCalls);
  }

  lemma {:induction false} PrependNothing(rest: Parsed)
    ensures Prepend([], rest) == rest
  {
    if rest.Ok? {
      assert [] + rest.value == rest.value;
    }
  }

  lemma {:induction false} PrependTwice(a: seq<MethodCall>, b: seq<MethodCall>, rest: Parsed)
    ensures Prepend(a, Prepend(b, rest)) == Prepend(a + b, rest)
  {
    if rest.Ok? {
      assert a + (b + rest.value) == a + b + rest.value;
    }
  }

  // ---- what is accepted ----

  /** A batch is accepted exactly when it is null or has equal columns of convertible ids and argument arrays. */
  ghost predicate WellShaped(d: Dyn) {
    d.Null? || (
      && d.Arr? && |d.items| >= 3
      && d.items[0].Arr? && d.items[1].Arr? && d.items[2].Arr?
      && |d.items[0].items| == |d.items[1].items| == |d.items[2].items|
      && (|d.items| > 3 ==> d.items[3].IsNumber() && d.items[3].AsInt().Some?)
      && RowsConvert(d.items[0].items, d.items[1].items, d.items[2].items)
    )
  }

  ghost predicate RowsConvert(mods: seq<Dyn>, meths: seq<Dyn>, params: seq<Dyn>)
    requires |mods| == |meths| == |params|
  {
    forall k :: 0 <= k < |mods| ==> mods[k].AsInt().Some? && meths[k].AsInt().Some? && params[k].Arr?
  }

  lemma {:induction false} AcceptedExactlyWhenWellShaped(d: Dyn)
    ensures Parse(d).Ok? <==> WellShaped(d)
  {
    if d.Arr? && |d.items| >= 3 && d.items[0].Arr? && d.items[1].Arr? && d.items[2].Arr?
       && |d.items[0].items| == |d.items[1].items| == |d.items[2].items| && FirstCallId(d.items).Ok?
    {
      RowsAcceptedExactly(d.items[0].items, d.items[1].items, d.items[2].items, FirstCallId(d.items).value);
    }
  }

  lemma {:induction false} RowsAcceptedExactly(mods: seq<Dyn>, meths: seq<Dyn>, params: seq<Dyn>, callId: int)
    requires |mods| == |meths| == |params|
    ensures ParseRows(mods, meths, params, callId).Ok? <==> RowsConvert(mods, meths, params)
  {
    if mods == [] {
    } else {
      RowsAcceptedExactly(mods[1..], meths[1..], params[1..], NextCallId(callId));
      FirstRowAndRest(mods, meths, params);
    }
  }

  lemma {:induction false} FirstRowAndRest(mods: seq<Dyn>, meths: seq<Dyn>, params: seq<Dyn>)
    requires |mods| == |meths| == |params| > 0
    ensures RowsConvert(mods, meths, params)
       <==> mods[0].AsInt().Some? && meths[0].AsInt().Some? && params[0].Arr? && RowsConvert(mods[1..], meths[1..], params[1..])
  {
    if mods[0].AsInt().Some? && meths[0].AsInt().Some? && params[0].Arr? && RowsConvert(mods[1..], meths[1..], params[1..]) {
      forall k | 0 <= k < |mods|
        ensures mods[k].AsInt().Some? && meths[k].AsInt().Some? && params[k].Arr?
      {
        if k > 0 {
          assert mods[k] == mods[1..][k - 1] && meths[k] == meths[1..][k - 1] && params[k] == params[1..][k - 1];
        }
      }
    }
  }

  // ---- what ends the process ----

  /**
   The parser declares that it throws nothing but what it throws for a wrong shape. An id that does not convert throws
   something else out of it, and that ends the process: the first row that is not in order has an id of that kind.
   */
  ghost predicate BadIdFirst(mods: seq<Dyn>, meths: seq<Dyn>, params: seq<Dyn>, k: nat)
    requires |mods| == |meths| == |params|
  {
    && k < |mods| && params[k].Arr? && !(mods[k].AsInt().Some? && meths[k].AsInt().Some?)
    && RowsConvert(mods[..k], meths[..k], params[..k])
  }

  ghost predicate Fatal(d: Dyn) {
    && d.Arr? && |d.items| >= 3
    && d.items[0].Arr? && d.items[1].Arr? && d.items[2].Arr?
    && |d.items[0].items| == |d.items[1].items| == |d.items[2].items|
    && (|d.items| > 3 ==> d.items[3].IsNumber())
    && ((|d.items| > 3 && d.items[3].AsInt().None?)
        || exists k: nat :: BadIdFirst(d.items[0].items, d.items[1].items, d.items[2].items, k))
  }

  lemma {:induction false} EndsTheProcessExactly(d: Dyn)
    ensures Parse(d) == Err(NotAnInteger) <==> Fatal(d)
  {
    if d.Arr? && |d.items| >= 3 && d.items[0].Arr? && d.items[1].Arr? && d.items[2].Arr?
       && |d.items[0].items| == |d.items[1].items| == |d.items[2].items| && FirstCallId(d.items).Ok?
    {
      RowsFatalExactly(d.items[0].items, d.items[1].items, d.items[2].items, FirstCallId(d.items).value);
    }
  }

  /** One call with null for a module id is enough. */
  lemma {:induction false} NullIdIsFatal()
    ensures Fatal(Arr([Arr([Null]), Arr([Int(0)]), Arr([Arr([])])]))
  {
    assert BadIdFirst([Null], [Int(0)], [Arr([])], 0);
  }

  lemma {:induction false} RowsFatalExactly(mods: seq<Dyn>, meths: seq<Dyn>, params: seq<Dyn>, callId: int)
    requires |mods| == |meths| == |params|
    ensures ParseRows(mods, meths, params, callId) == Err(NotAnInteger) <==> exists k: nat :: BadIdFirst(mods, meths, params, k)
  {
    if mods == [] {
    } else if ParseRow(mods[0], meths[0], params[0], callId).Ok? {
      RowsFatalExactly(mods[1..], meths[1..], params[1..], NextCallId(callId));
      BadIdLater(mods, meths, params);
    } else if params[0].Arr? {
      assert BadIdFirst(mods, meths, params, 0);
    } else {
      forall k: nat
        ensures !BadIdFirst(mods, meths, params, k)
      {
        assert 0 < k <= |mods| ==> params[..k][0] == params[0];
      }
    }
  }

  lemma {:induction false} BadIdLater(mods: seq<Dyn>, meths: seq<Dyn>, params: seq<Dyn>)
    requires |mods| == |meths| == |params| > 0
    requires mods[0].AsInt().Some? && meths[0].AsInt().Some? && params[0].Arr?
    ensures (exists k: nat :: BadIdFirst(mods, meths, params, k)) <==> exists k: nat :: BadIdFirst(mods[1..], meths[1..], params[1..], k)
  {
    if k: nat :| BadIdFirst(mods, meths, params, k) {
      RowsUpTo(mods, meths, params, k - 1);
      assert BadIdFirst(mods[1..], meths[1..], params[1..], k - 1);
    }
    if k: nat :| BadIdFirst(mods[1..], meths[1..], params[1..], k) {
      RowsUpTo(mods, meths, params, k);
      assert BadIdFirst(mods, meths, params, k + 1);
    }
  }

  lemma {:induction false} RowsUpTo(mods: seq<Dyn>, meths: seq<Dyn>, params: seq<Dyn>, k: nat)
    requires k < |mods| == |meths| == |params|
    requires mods[0].AsInt().Some? && meths[0].AsInt().Some? && params[0].Arr?
    ensures RowsConvert(mods[..k + 1], meths[..k + 1], params[..k + 1])
       <==> RowsConvert(mods[1..][..k], meths[1..][..k], params[1..][..k])
  {
    FirstRowAndRest(mods[..k + 1], meths[..k + 1], params[..k + 1]);
    assert mods[..k + 1][1..] == mods[1..][..k];
    assert meths[..k + 1][1..] == meths[1..][..k];
    assert params[..k + 1][1..] == params[1..][..k];
  }

  // ---- the JavaScript side: how a list of calls becomes a batch ----

  datatype QueuedCall = QueuedCall(moduleId: int64, methodId: int64, arguments: seq<Dyn>)

  function EncodeBatch(calls: seq<QueuedCall>, callId: Option<int64>): Dyn {
    Arr([
          Arr(seq(|calls|, k requires 0 <= k < |calls| => Int(calls[k].moduleId))),
          Arr(seq(|calls|, k requires 0 <= k < |calls| => Int(calls[k].methodId))),
          Arr(seq(|calls|, k requires 0 <= k < |calls| => Arr(calls[k].arguments)))
        ] + if callId.Some? then [Int(callId.value)] else [])
  }

  /** The id of call k: counted from the base, but stuck at -1 once there. */
  function CallIdAt(base: int, k: nat): int {
    if base >= 0 || base + k < -1 then base + k else -1
  }

  predicate IsInt(n: int) {
    -0x8000_0000 <= n < 0x8000_0000
  }

  /**
   The ids that the loop computes for n calls, with the one it moves on to at the end, are all of the code's int type
   exactly if the base is negative or leaves room for n more.
   */
  lemma {:induction false} CallIdsAreIntsExactly(base: int, n: nat)
    requires IsInt(base)
    ensures (forall k :: 0 <= k <= n ==> IsInt(CallIdAt(base, k))) <==> base < 0 || base + n < 0x8000_0000
  {
    if base >= 0 && base + n >= 0x8000_0000 {
      assert !IsInt(CallIdAt(base, n));
    }
  }

  /** Parsing an encoded batch gives back the calls in order, each with its own running id. */
  lemma {:induction false} ParseInvertsEncode(calls: seq<QueuedCall>, callId: Option<int64>)
    ensures Parse(EncodeBatch(calls, callId)).Ok?
    ensures var parsed := Parse(EncodeBatch(calls, callId)).value;
            var base := if callId.Some? then ToInt32(callId.value) else -1;
            && |parsed| == |calls|
            && forall k :: 0 <= k < |calls| ==>
                 parsed[k] == MethodCall(ToInt32(calls[k].moduleId), ToInt32(calls[k].methodId),
                                         Arr(calls[k].arguments), CallIdAt(base, k))
  {
    var d := EncodeBatch(calls, callId);
    var base := if callId.Some? then ToInt32(callId.value) else -1;
    assert FirstCallId(d.items) == Ok(base);
    RowsParse(calls, d.items[0].items, d.items[1].items, d.items[2].items, base);
  }

  lemma {:induction false} RowsParse(calls: seq<QueuedCall>, mods: seq<Dyn>, meths: seq<Dyn>, params: seq<Dyn>, base: int)
    requires |calls| == |mods| == |meths| == |params|
    requires forall k :: 0 <= k < |calls| ==> mods[k] == Int(calls[k].moduleId)
    requires forall k :: 0 <= k < |calls| ==> meths[k] == Int(calls[k].methodId)
    requires forall k :: 0 <= k < |calls| ==> params[k] == Arr(calls[k].arguments)
    ensures ParseRows(mods, meths, params, base).Ok?
    ensures var parsed := ParseRows(mods, meths, params, base).value;
            && |parsed| == |calls|
            && forall k :: 0 <= k < |calls| ==>
                 parsed[k] == MethodCall(ToInt32(calls[k].moduleId), ToInt32(calls[k].methodId),
                                         Arr(calls[k].arguments), CallIdAt(base, k))
  {
    if calls == [] {
    } else {
      RowsParse(calls[1..], mods[1..], meths[1..], params[1..], NextCallId(base));
      var rest := ParseRows(mods[1..], meths[1..], params[1..], NextCallId(base)).value;
      forall k | 0 < k < |calls|
        ensures rest[k - 1] == MethodCall(ToInt32(calls[k].moduleId), ToInt32(calls[k].methodId),
                                          Arr(calls[k].arguments), CallIdAt(base, k))
      {
        assert calls[k] == calls[1..][k - 1];
        assert CallIdAt(NextCallId(base), k - 1) == CallIdAt(base, k);
      }
    }
  }
}

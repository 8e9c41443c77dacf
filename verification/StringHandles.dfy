/** Wrappers around reference-counted JavaScript strings, and who owns each reference. */
module StringHandles {
  import opened Wrappers

  type JsString = nat

  /** A wrapper, as its lifetime goes: destroyed, holding nothing, or holding one reference. */
  datatype Handle = Gone | Null | Holds(ref: JsString)

  /** The engine's retain counts, the references that code outside the wrappers owns, and all wrappers ever made. */
  datatype Heap = Heap(retains: multiset<JsString>, outside: multiset<JsString>, handles: seq<Handle>)

  datatype Op =
    | MakeEmpty
    | Make(ref: JsString)
    | MakeRef(given: Option<JsString>)
    | MakeAdopting(given: Option<JsString>)
    | Copy(from: nat)
    | Move(from: nat)
    | MoveAssign(to: nat, from: nat)
    | Destroy(which: nat)
    | OutsideMake(ref: JsString)
    | OutsideRetain(ref: JsString)
    | OutsideRelease(ref: JsString)

  predicate Alive(h: Heap, i: nat) {
    i < |h.handles| && !h.handles[i].Gone?
  }

  /** What the code asks of its callers: wrappers alive, strings alive, and an adopted string owned by the caller. */
  predicate Allowed(h: Heap, op: Op) {
    match op
    case MakeEmpty => true
    case Make(r) => r !in h.retains
    case MakeRef(r) => r.Some? ==> r.value in h.retains
    case MakeAdopting(r) => r.Some? ==> r.value in h.outside
    case Copy(i) => Alive(h, i)
    case Move(i) => Alive(h, i)
    case MoveAssign(i, j) => Alive(h, i) && Alive(h, j)
    case Destroy(i) => Alive(h, i)
    case OutsideMake(r) => r !in h.retains
    case OutsideRetain(r) => r in h.retains
    case OutsideRelease(r) => r in h.outside
  }

  function Retained(m: multiset<JsString>, h: Handle): multiset<JsString> {
    if h.Holds? then m + multiset{h.ref} else m
  }

  function Released(m: multiset<JsString>, h: Handle): multiset<JsString> {
    if h.Holds? then m - multiset{h.ref} else m
  }

  function HandleOf(r: Option<JsString>): Handle {
    if r.Some? then Holds(r.value) else Null
  }

  function Step(h: Heap, op: Op): Heap
    requires Allowed(h, op)
  {
    match op
    case MakeEmpty => h.(handles := h.handles + [Null])
    case Make(r) => h.(retains := h.retains + multiset{r}, handles := h.handles + [Holds(r)])
    case MakeRef(r) => h.(retains := Retained(h.retains, HandleOf(r)), handles := h.handles + [HandleOf(r)])
    case MakeAdopting(r) => h.(outside := Released(h.outside, HandleOf(r)), handles := h.handles + [HandleOf(r)])
    case Copy(i) => h.(retains := Retained(h.retains, h.handles[i]), handles := h.handles + [h.handles[i]])
    case Move(i) => h.(handles := h.handles[i := Null] + [h.handles[i]])
    case MoveAssign(i, j) =>
      h.(retains := Released(h.retains, h.handles[i]), handles := h.handles[i := h.handles[j]][j := Null])
    case Destroy(i) => h.(retains := Released(h.retains, h.handles[i]), handles := h.handles[i := Gone])
    case OutsideMake(r) => h.(retains := h.retains + multiset{r}, outside := h.outside + multiset{r})
    case OutsideRetain(r) => h.(retains := h.retains + multiset{r}, outside := h.outside + multiset{r})
    case OutsideRelease(r) => h.(retains := h.retains - multiset{r}, outside := h.outside - multiset{r})
  }

  /** How many live wrappers hold a string. */
  function Holders(handles: seq<Handle>, r: JsString): nat {
    if handles == [] then 0
    else Holders(handles[..|handles| - 1], r) + Share(handles[|handles| - 1], r)
  }

  function Share(x: Handle, r: JsString): nat {
    if x == Holds(r) then 1 else 0
  }

  /** Every retain has one owner: code outside, or a live wrapper. */
  ghost predicate BalancedAt(h: Heap, r: JsString) {
    h.retains[r] == h.outside[r] + Holders(h.handles, r)
  }

  ghost predicate Balanced(h: Heap) {
    forall r: JsString :: BalancedAt(h, r)
  }

  lemma {:induction false} Replaced(handles: seq<Handle>, i: nat, x: Handle, r: JsString)
    requires i < |handles|
    ensures Holders(handles, r) >= Share(handles[i], r)
    ensures Holders(handles[i := x], r) == Holders(handles, r) - Share(handles[i], r) + Share(x, r)
  {
    var n := |handles| - 1;
    if i == n {
      assert handles[i := x][..n] == handles[..n];
    } else {
      Replaced(handles[..n], i, x, r);
      assert handles[i := x][..n] == handles[..n][i := x];
    }
  }

  lemma {:induction false} Appended(handles: seq<Handle>, x: Handle, r: JsString)
    ensures Holders(handles + [x], r) == Holders(handles, r) + Share(x, r)
  {
    assert (handles + [x])[..|handles|] == handles;
  }

  lemma {:induction false} MakingKeepsBalance(h: Heap, op: Op, r: JsString)
    requires BalancedAt(h, r) && Allowed(h, op)
    requires op.MakeEmpty? || op.Make? || op.MakeRef? || op.Copy?
    ensures BalancedAt(Step(h, op), r)
  {
    match op
    case MakeEmpty => Appended(h.handles, Null, r);
    case Make(s) => Appended(h.handles, Holds(s), r);
    case MakeRef(s) => Appended(h.handles, HandleOf(s), r);
    case Copy(i) => Appended(h.handles, h.handles[i], r);
    case _ =>
  }

  lemma {:induction false} AdoptingKeepsBalance(h: Heap, op: Op, r: JsString)
    requires BalancedAt(h, r) && Allowed(h, op) && op.MakeAdopting?
    ensures BalancedAt(Step(h, op), r)
  {
    Appended(h.handles, HandleOf(op.given), r);
  }

  lemma {:induction false} MovingKeepsBalance(h: Heap, i: nat, r: JsString)
    requires BalancedAt(h, r) && Alive(h, i)
    ensures BalancedAt(Step(h, Move(i)), r)
  {
    Replaced(h.handles, i, Null, r);
    Appended(h.handles[i := Null], h.handles[i], r);
  }

  lemma {:induction false} AssigningKeepsBalance(h: Heap, i: nat, j: nat, r: JsString)
    requires BalancedAt(h, r) && Alive(h, i) && Alive(h, j)
    ensures BalancedAt(Step(h, MoveAssign(i, j)), r)
  {
    Replaced(h.handles, i, h.handles[j], r);
    Replaced(h.handles[i := h.handles[j]], j, Null, r);
  }

  lemma {:induction false} DestroyingKeepsBalance(h: Heap, i: nat, r: JsString)
    requires BalancedAt(h, r) && Alive(h, i)
    ensures BalancedAt(Step(h, Destroy(i)), r)
  {
    Replaced(h.handles, i, Gone, r);
  }

  lemma OutsideKeepsBalance(h: Heap, op: Op, r: JsString)
    requires BalancedAt(h, r) && Allowed(h, op)
    requires op.OutsideMake? || op.OutsideRetain? || op.OutsideRelease?
    ensures BalancedAt(Step(h, op), r)
  {
  }

  lemma {:induction false} StepKeepsBalance(h: Heap, op: Op)
    requires Balanced(h) && Allowed(h, op)
    ensures Balanced(Step(h, op))
  {
    forall r: JsString
      ensures BalancedAt(Step(h, op), r)
    {
      if op.Move? {
        MovingKeepsBalance(h, op.from, r);
      } else if op.MoveAssign? {
        AssigningKeepsBalance(h, op.to, op.from, r);
      } else if op.Destroy? {
        DestroyingKeepsBalance(h, op.which, r);
      } else if op.OutsideMake? || op.OutsideRetain? || op.OutsideRelease? {
        OutsideKeepsBalance(h, op, r);
      } else if op.MakeAdopting? {
        AdoptingKeepsBalance(h, op, r);
      } else {
        MakingKeepsBalance(h, op, r);
      }
    }
  }

  ghost predicate CanRun(h: Heap, ops: seq<Op>)
    decreases |ops|
  {
    ops == [] || (Allowed(h, ops[0]) && CanRun(Step(h, ops[0]), ops[1..]))
  }

  ghost function Run(h: Heap, ops: seq<Op>): Heap
    requires CanRun(h, ops)
    decreases |ops|
  {
    if ops == [] then h else Run(Step(h, ops[0]), ops[1..])
  }

  lemma {:induction false} RunKeepsBalance(h: Heap, ops: seq<Op>)
    requires Balanced(h) && CanRun(h, ops)
    ensures Balanced(Run(h, ops))
    decreases |ops|
  {
    if ops == [] {
    } else {
      StepKeepsBalance(h, ops[0]);
      RunKeepsBalance(Step(h, ops[0]), ops[1..]);
    }
  }

  const START := Heap(multiset{}, multiset{}, [])

  /** Over any run of the wrappers' operations, a string is retained once for each outside owner and live wrapper. */
  lemma {:induction false} RetainsMatchOwners(ops: seq<Op>, r: JsString)
    requires CanRun(START, ops)
    ensures var h := Run(START, ops);
      h.retains[r] == h.outside[r] + Holders(h.handles, r)
  {
    RunKeepsBalance(START, ops);
    assert BalancedAt(Run(START, ops), r);
  }

  /** So no live wrapper holds a freed string, and once all wrappers are gone nothing is leaked. */
  lemma {:induction false} NoDanglingNoLeak(ops: seq<Op>)
    requires CanRun(START, ops)
    ensures var h := Run(START, ops);
      && (forall i :: 0 <= i < |h.handles| && h.handles[i].Holds? ==> h.handles[i].ref in h.retains)
      && ((forall i :: 0 <= i < |h.handles| ==> !h.handles[i].Holds?) ==> h.retains == h.outside)
  {
    var h := Run(START, ops);
    forall i | 0 <= i < |h.handles| && h.handles[i].Holds?
      ensures h.handles[i].ref in h.retains
    {
      Replaced(h.handles, i, Gone, h.handles[i].ref);
      RetainsMatchOwners(ops, h.handles[i].ref);
    }
    if forall i :: 0 <= i < |h.handles| ==> !h.handles[i].Holds? {
      forall r: JsString
        ensures h.retains[r] == h.outside[r]
      {
        NoHolders(h.handles, r);
        RetainsMatchOwners(ops, r);
      }
    }
  }

  lemma {:induction false} NoHolders(handles: seq<Handle>, r: JsString)
    requires forall i :: 0 <= i < |handles| ==> !handles[i].Holds?
    ensures Holders(handles, r) == 0
  {
    if handles == [] {
    } else {
      NoHolders(handles[..|handles| - 1], r);
    }
  }

  /** All wrappers but some are as they were. */
  ghost predicate Others(h: Heap, h': Heap, touched: set<nat>) {
    |h.handles| <= |h'.handles| && forall k: nat :: k < |h.handles| && k !in touched ==> h'.handles[k] == h.handles[k]
  }

  /** The counts are the same but for one string, which has that many more. */
  ghost predicate OneDiffers(m: multiset<JsString>, m': multiset<JsString>, r: JsString, more: int) {
    m'[r] == m[r] + more && forall q: JsString :: q != r ==> m'[q] == m[q]
  }

  /** The counts are the same but for the string that a wrapper holds, if it holds one. */
  ghost predicate HeldDiffers(m: multiset<JsString>, m': multiset<JsString>, x: Handle, more: int) {
    if x.Holds? then OneDiffers(m, m', x.ref, more) else m' == m
  }

  /** What a new wrapper holds, and where its retain comes from: a new string, a further retain, or one that is adopted. */
  lemma MakingHolds(h: Heap, op: Op)
    requires Allowed(h, op) && (op.MakeEmpty? || op.Make? || op.MakeRef? || op.MakeAdopting?)
    ensures var h', n := Step(h, op), |h.handles|;
      && |h'.handles| == n + 1 && Others(h, h', {})
      && match op
         case MakeEmpty => h'.handles[n] == Null && h'.retains == h.retains && h'.outside == h.outside
         case Make(r) => h'.handles[n] == Holds(r) && OneDiffers(h.retains, h'.retains, r, 1) && h'.outside == h.outside
         case MakeRef(g) =>
           && h'.handles[n] == (if g.Some? then Holds(g.value) else Null)
           && HeldDiffers(h.retains, h'.retains, h'.handles[n], 1) && h'.outside == h.outside
         case MakeAdopting(g) =>
           && h'.handles[n] == (if g.Some? then Holds(g.value) else Null)
           && h'.retains == h.retains && HeldDiffers(h.outside, h'.outside, h'.handles[n], -1)
         case _ => false
  {
  }

  /** A copy holds the same string with a retain of its own. */
  lemma CopyingHolds(h: Heap, i: nat)
    requires Alive(h, i)
    ensures var h', n := Step(h, Copy(i)), |h.handles|;
      && |h'.handles| == n + 1 && Others(h, h', {}) && h'.handles[n] == h.handles[i]
      && HeldDiffers(h.retains, h'.retains, h.handles[i], 1) && h'.outside == h.outside
  {
  }

  /** A move takes the string and its retain along. */
  lemma MovingHolds(h: Heap, i: nat)
    requires Alive(h, i)
    ensures var h', n := Step(h, Move(i)), |h.handles|;
      && |h'.handles| == n + 1 && Others(h, h', {i}) && h'.handles[n] == h.handles[i] && h'.handles[i] == Null
      && h'.retains == h.retains && h'.outside == h.outside
  {
  }

  /** Assignment lets go of the old string and takes over the other's; a wrapper assigned to itself ends up empty. */
  lemma {:induction false} AssigningHolds(h: Heap, i: nat, j: nat)
    requires Alive(h, i) && Alive(h, j) && Balanced(h)
    ensures var h' := Step(h, MoveAssign(i, j));
      && |h'.handles| == |h.handles| && Others(h, h', {i, j})
      && h'.handles[j] == Null && (i != j ==> h'.handles[i] == h.handles[j])
      && HeldDiffers(h.retains, h'.retains, h.handles[i], -1) && h'.outside == h.outside
  {
    HeldIsRetained(h, i);
  }

  lemma {:induction false} DestroyingHolds(h: Heap, i: nat)
    requires Alive(h, i) && Balanced(h)
    ensures var h' := Step(h, Destroy(i));
      && |h'.handles| == |h.handles| && Others(h, h', {i}) && h'.handles[i] == Gone
      && HeldDiffers(h.retains, h'.retains, h.handles[i], -1) && h'.outside == h.outside
  {
    HeldIsRetained(h, i);
  }

  /** Code outside the wrappers makes, retains and releases on its own account. */
  lemma OutsideHolds(h: Heap, op: Op, r: JsString)
    requires Allowed(h, op) && op in {OutsideMake(r), OutsideRetain(r), OutsideRelease(r)} && BalancedAt(h, r)
    ensures var h', more := Step(h, op), if op.OutsideRelease? then -1 else 1;
      h'.handles == h.handles && OneDiffers(h.retains, h'.retains, r, more) && OneDiffers(h.outside, h'.outside, r, more)
  {
  }

  lemma {:induction false} HeldIsRetained(h: Heap, i: nat)
    requires i < |h.handles| && Balanced(h)
    ensures h.handles[i].Holds? ==> h.handles[i].ref in h.retains
  {
    if h.handles[i].Holds? {
      Replaced(h.handles, i, Gone, h.handles[i].ref);
      assert BalancedAt(h, h.handles[i].ref);
    }
  }

  // ---- the wrappers themselves ----

  class Engine {
    var retains: multiset<JsString>
    ghost var outside: multiset<JsString>
    ghost var strings: seq<String>

    /** The wrappers made so far are different objects; a wrapper may still be an argument twice. */
    ghost predicate Valid()
      reads this, strings
    {
      && (forall i, j :: 0 <= i < j < |strings| ==> strings[i] != strings[j])
      && Balanced(State())
    }

    ghost function State(): Heap
      reads this, strings
    {
      Heap(retains, outside, seq(|strings|, i requires 0 <= i < |strings| reads this, strings => strings[i].View()))
    }

    constructor ()
      ensures Valid() && State() == START
    {
      retains, outside, strings := multiset{}, multiset{}, [];
    }
  }

  class String {
    var held: Option<JsString>
    ghost var destroyed: bool

    ghost function View(): Handle
      reads this
    {
      if destroyed then Gone else HandleOf(held)
    }

    constructor Empty(engine: Engine)
      requires engine.Valid()
      modifies engine
      ensures engine.Valid() && engine.State() == Step(old(engine.State()), MakeEmpty)
      ensures held == None && !destroyed && engine.retains == old(engine.retains)
      ensures engine.strings == old(engine.strings) + [this]
    {
      held, destroyed := None, false;
      new;
      StepKeepsBalance(engine.State(), MakeEmpty);
      engine.strings := engine.strings + [this];
      assert engine.State().handles == old(engine.State().handles) + [View()];
    }

    /** A wrapper around a string the engine has just made. */
    constructor (engine: Engine, made: JsString)
      requires engine.Valid() && Allowed(engine.State(), Make(made))
      modifies engine
      ensures engine.Valid() && engine.State() == Step(old(engine.State()), Make(made))
      ensures held == Some(made) && !destroyed && OneDiffers(old(engine.retains), engine.retains, made, 1)
      ensures engine.strings == old(engine.strings) + [this]
    {
      held, destroyed := Some(made), false;
      new;
      StepKeepsBalance(engine.State(), Make(made));
      engine.retains := engine.retains + multiset{made};
      engine.strings := engine.strings + [this];
      assert engine.State().handles == old(engine.State().handles) + [View()];
    }

    /** The private constructor behind ref and adopt. */
    constructor Wrap(engine: Engine, ref: Option<JsString>, adopt: bool)
      requires engine.Valid() && Allowed(engine.State(), if adopt then MakeAdopting(ref) else MakeRef(ref))
      modifies engine
      ensures engine.Valid()
      ensures engine.State() == Step(old(engine.State()), if adopt then MakeAdopting(ref) else MakeRef(ref))
      ensures held == ref && !destroyed
      ensures if !adopt && ref.Some? then OneDiffers(old(engine.retains), engine.retains, ref.value, 1)
              else engine.retains == old(engine.retains)
      ensures engine.strings == old(engine.strings) + [this]
    {
      held, destroyed := ref, false;
      new;
      ghost var before := engine.State();
      if adopt {
        StepKeepsBalance(before, MakeAdopting(ref));
        engine.outside := Released(engine.outside, HandleOf(ref));
      } else {
        StepKeepsBalance(before, MakeRef(ref));
        if held.Some? {
          engine.retains := engine.retains + multiset{held.value};
        }
      }
      engine.strings := engine.strings + [this];
      assert engine.State().handles == before.handles + [HandleOf(ref)];
    }

    constructor Copy(engine: Engine, other: String, ghost at: nat)
      requires engine.Valid() && at < |engine.strings| && engine.strings[at] == other && !other.destroyed
      modifies engine
      ensures engine.Valid() && engine.State() == Step(old(engine.State()), Op.Copy(at))
      ensures held == other.held == old(other.held) && !destroyed
      ensures if held.Some? then OneDiffers(old(engine.retains), engine.retains, held.value, 1)
              else engine.retains == old(engine.retains)
      ensures engine.strings == old(engine.strings) + [this]
    {
      held, destroyed := other.held, false;
      new;
      StepKeepsBalance(engine.State(), Op.Copy(at));
      if held.Some? {
        engine.retains := engine.retains + multiset{held.value};
      }
      engine.strings := engine.strings + [this];
      assert engine.State().handles == old(engine.State().handles) + [View()];
    }

    constructor Move(engine: Engine, other: String, ghost at: nat)
      requires engine.Valid() && at < |engine.strings| && engine.strings[at] == other && !other.destroyed
      modifies engine, other
      ensures engine.Valid() && engine.State() == Step(old(engine.State()), Op.Move(at))
      ensures held == old(other.held) && other.held == None && !destroyed && engine.retains == old(engine.retains)
      ensures engine.strings == old(engine.strings) + [this]
    {
      held, destroyed := other.held, false;
      new;
      StepKeepsBalance(engine.State(), Op.Move(at));
      other.held := None;
      engine.strings := engine.strings + [this];
      assert engine.State().handles == old(engine.State().handles)[at := Null] + [View()];
    }

    /** Lets go of what this wrapper held and takes over the other's string; also when the other is this wrapper. */
    method MoveAssign(engine: Engine, other: String, ghost i: nat, ghost j: nat)
      requires engine.Valid() && i < |engine.strings| && j < |engine.strings|
      requires engine.strings[i] == this && engine.strings[j] == other && !destroyed && !other.destroyed
      modifies engine, this, other
      ensures engine.Valid() && engine.State() == Step(old(engine.State()), Op.MoveAssign(i, j))
      ensures engine.strings == old(engine.strings)
      ensures other.held == None && held == (if other == this then None else old(other.held)) && !destroyed
      ensures if old(held).Some? then OneDiffers(old(engine.retains), engine.retains, old(held).value, -1)
              else engine.retains == old(engine.retains)
    {
      assert engine.State().handles[i] == View();
      AssigningHolds(engine.State(), i, j);
      StepKeepsBalance(engine.State(), Op.MoveAssign(i, j));
      if held.Some? {
        engine.retains := engine.retains - multiset{held.value};
      }
      held := other.held;
      other.held := None;
      ghost var was := old(engine.State().handles);
      assert engine.State().handles == was[i := was[j]][j := Null];
    }

    method Destroy(engine: Engine, ghost at: nat)
      requires engine.Valid() && at < |engine.strings| && engine.strings[at] == this && !destroyed
      modifies engine, this
      ensures engine.Valid() && engine.State() == Step(old(engine.State()), Op.Destroy(at))
      ensures engine.strings == old(engine.strings) && destroyed
      ensures if old(held).Some? then OneDiffers(old(engine.retains), engine.retains, old(held).value, -1)
              else engine.retains == old(engine.retains)
    {
      assert engine.State().handles[at] == View();
      DestroyingHolds(engine.State(), at);
      StepKeepsBalance(engine.State(), Op.Destroy(at));
      if held.Some? {
        engine.retains := engine.retains - multiset{held.value};
      }
      destroyed := true;
      assert engine.State().handles == old(engine.State().handles)[at := Gone];
    }
  }
}

/** Wrappers around JavaScript objects, and the protections that keep the objects from being collected. */
module ObjectHandles {
  import opened Wrappers

  type JsObject = nat

  /** A wrapper: destroyed, or around an object or null, protecting it or not. */
  datatype Handle = Gone | Around(obj: Option<JsObject>, isProtected: bool)

  datatype Heap = Heap(protects: multiset<JsObject>, handles: seq<Handle>)

  datatype Op =
    | Make(obj: Option<JsObject>)
    | Move(from: nat)
    | SwapAssign(to: nat, from: nat)
    | MakeProtected(which: nat)
    | Destroy(which: nat)

  predicate Alive(h: Heap, i: nat) {
    i < |h.handles| && !h.handles[i].Gone?
  }

  predicate Allowed(h: Heap, op: Op) {
    match op
    case Make(_) => true
    case Move(i) => Alive(h, i)
    case SwapAssign(i, j) => Alive(h, i) && Alive(h, j)
    case MakeProtected(i) => Alive(h, i)
    case Destroy(i) => Alive(h, i)
  }

  const NOTHING := Around(None, false)

  function Step(h: Heap, op: Op): Heap
    requires Allowed(h, op)
  {
    match op
    case Make(o) => h.(handles := h.handles + [Around(o, false)])
    case Move(i) => h.(handles := h.handles[i := NOTHING] + [h.handles[i]])
    case SwapAssign(i, j) => h.(handles := h.handles[i := h.handles[j]][j := h.handles[i]])
    case MakeProtected(i) =>
      var x := h.handles[i];
      if x.isProtected || x.obj.None? then h
      else Heap(h.protects + multiset{x.obj.value}, h.handles[i := Around(x.obj, true)])
    case Destroy(i) =>
      var x := h.handles[i];
      var protects := if Protecting(x) then h.protects - multiset{x.obj.value} else h.protects;
      Heap(protects, h.handles[i := Gone])
  }

  function Share(x: Handle, o: JsObject): nat {
    if x == Around(Some(o), true) then 1 else 0
  }

  /** How many live protected wrappers hold an object. */
  function Protectors(handles: seq<Handle>, o: JsObject): nat {
    if handles == [] then 0
    else Protectors(handles[..|handles| - 1], o) + Share(handles[|handles| - 1], o)
  }

  ghost predicate BalancedAt(h: Heap, o: JsObject) {
    h.protects[o] == Protectors(h.handles, o)
  }

  ghost predicate Balanced(h: Heap) {
    forall o: JsObject :: BalancedAt(h, o)
  }

  lemma {:induction false} Replaced(handles: seq<Handle>, i: nat, x: Handle, o: JsObject)
    requires i < |handles|
    ensures Protectors(handles, o) >= Share(handles[i], o)
    ensures Protectors(handles[i := x], o) == Protectors(handles, o) - Share(handles[i], o) + Share(x, o)
  {
    var n := |handles| - 1;
    if i == n {
      assert handles[i := x][..n] == handles[..n];
    } else {
      Replaced(handles[..n], i, x, o);
      assert handles[i := x][..n] == handles[..n][i := x];
    }
  }

  lemma {:induction false} Appended(handles: seq<Handle>, x: Handle, o: JsObject)
    ensures Protectors(handles + [x], o) == Protectors(handles, o) + Share(x, o)
  {
    assert (handles + [x])[..|handles|] == handles;
  }

  lemma {:induction false} StepKeepsBalanceAt(h: Heap, op: Op, o: JsObject)
    requires BalancedAt(h, o) && Allowed(h, op)
    ensures BalancedAt(Step(h, op), o)
  {
    match op
    case Make(obj) => Appended(h.handles, Around(obj, false), o);
    case Move(i) =>
      Replaced(h.handles, i, NOTHING, o);
      Appended(h.handles[i := NOTHING], h.handles[i], o);
    case SwapAssign(i, j) =>
      Replaced(h.handles, i, h.handles[j], o);
      Replaced(h.handles[i := h.handles[j]], j, h.handles[i], o);
    case MakeProtected(i) => Replaced(h.handles, i, Around(h.handles[i].obj, true), o);
    case Destroy(i) => Replaced(h.handles, i, Gone, o);
  }

  lemma {:induction false} StepKeepsBalance(h: Heap, op: Op)
    requires Balanced(h) && Allowed(h, op)
    ensures Balanced(Step(h, op))
  {
    forall o: JsObject
      ensures BalancedAt(Step(h, op), o)
    {
      StepKeepsBalanceAt(h, op, o);
    }
  }

  ghost predicate CanRun(h: Heap, ops: seq<Op>)
    decreases |ops|
  {
    ops == [] || (Allowed(h, ops[0]) && CanRun(Step(h, ops[0]), ops[1..]))
  }

  ghost function Run(h: Heap, ops: seq<Op>): Heap
    requires CanRun(h, ops)
    decreases |ops|
  {
    if ops == [] then h else Run(Step(h, ops[0]), ops[1..])
  }

  lemma {:induction false} RunKeepsBalance(h: Heap, ops: seq<Op>)
    requires Balanced(h) && CanRun(h, ops)
    ensures Balanced(Run(h, ops))
    decreases |ops|
  {
    if ops == [] {
    } else {
      StepKeepsBalance(h, ops[0]);
      RunKeepsBalance(Step(h, ops[0]), ops[1..]);
    }
  }

  const START := Heap(multiset{}, [])

  /** Over any run of the wrappers' operations, an object is protected once for each live protected wrapper of it. */
  lemma {:induction false} ProtectsMatchWrappers(ops: seq<Op>, o: JsObject)
    requires CanRun(START, ops)
    ensures var h := Run(START, ops);
      h.protects[o] == Protectors(h.handles, o)
  {
    RunKeepsBalance(START, ops);
    assert BalancedAt(Run(START, ops), o);
  }

  lemma {:induction false} NoProtectors(handles: seq<Handle>, o: JsObject)
    requires forall i :: 0 <= i < |handles| ==> handles[i].Gone?
    ensures Protectors(handles, o) == 0
  {
    if handles == [] {
    } else {
      NoProtectors(handles[..|handles| - 1], o);
    }
  }

  predicate Protecting(x: Handle) {
    x.Around? && x.isProtected && x.obj.Some?
  }

  /** So a destructor never takes back a protection that is not there, and after the last one none is left. */
  lemma {:induction false} ProtectionIsThereAndThenGone(ops: seq<Op>)
    requires CanRun(START, ops)
    ensures var h := Run(START, ops);
      && (forall i :: 0 <= i < |h.handles| && Protecting(h.handles[i]) ==> h.handles[i].obj.value in h.protects)
      && ((forall i :: 0 <= i < |h.handles| ==> h.handles[i].Gone?) ==> h.protects == multiset{})
  {
    var h := Run(START, ops);
    forall i | 0 <= i < |h.handles| && Protecting(h.handles[i])
      ensures h.handles[i].obj.value in h.protects
    {
      Replaced(h.handles, i, Gone, h.handles[i].obj.value);
      ProtectsMatchWrappers(ops, h.handles[i].obj.value);
    }
    if forall i :: 0 <= i < |h.handles| ==> h.handles[i].Gone? {
      forall o: JsObject
        ensures h.protects[o] == 0
      {
        NoProtectors(h.handles, o);
        ProtectsMatchWrappers(ops, o);
      }
    }
  }

  /** All wrappers but some are as they were. */
  ghost predicate Others(h: Heap, h': Heap, touched: set<nat>) {
    |h.handles| <= |h'.handles| && forall k: nat :: k < |h.handles| && k !in touched ==> h'.handles[k] == h.handles[k]
  }

  /** The protections are the same but for one object, which has that many more. */
  ghost predicate OneDiffers(m: multiset<JsObject>, m': multiset<JsObject>, o: JsObject, more: int) {
    m'[o] == m[o] + more && forall p: JsObject :: p != o ==> m'[p] == m[p]
  }

  /** Protecting pins the object, once however often it is asked for, and never null. */
  lemma {:induction false} ProtectingPins(h: Heap, i: nat)
    requires Alive(h, i) && Balanced(h)
    ensures var h', x := Step(h, MakeProtected(i)), h.handles[i];
      && Others(h, h', {i}) && |h'.handles| == |h.handles|
      && (x.obj.None? ==> h' == h)
      && (x.obj.Some? ==>
            && h'.handles[i] == Around(x.obj, true) && x.obj.value in h'.protects
            && OneDiffers(h.protects, h'.protects, x.obj.value, if x.isProtected then 0 else 1))
  {
    var x := h.handles[i];
    if x.obj.Some? && x.isProtected {
      assert BalancedAt(h, x.obj.value);
      Replaced(h.handles, i, Gone, x.obj.value);
    }
  }

  /** A moved wrapper's object is where it was moved to, with its protection, and nowhere else of the two. */
  lemma MovingMoves(h: Heap, i: nat)
    requires Alive(h, i)
    ensures var h', n := Step(h, Move(i)), |h.handles|;
      && |h'.handles| == n + 1 && Others(h, h', {i}) && h'.protects == h.protects
      && h'.handles[n] == h.handles[i] && h'.handles[i] == Around(None, false)
  {
  }

  /** Assignment exchanges what two wrappers hold. */
  lemma SwappingSwaps(h: Heap, i: nat, j: nat)
    requires Alive(h, i) && Alive(h, j)
    ensures var h' := Step(h, SwapAssign(i, j));
      && |h'.handles| == |h.handles| && Others(h, h', {i, j}) && h'.protects == h.protects
      && h'.handles[i] == h.handles[j] && h'.handles[j] == h.handles[i]
  {
  }

  /** A new wrapper protects nothing yet. */
  lemma MakingMakes(h: Heap, o: Option<JsObject>)
    ensures var h' := Step(h, Make(o));
      |h'.handles| == |h.handles| + 1 && Others(h, h', {}) && h'.protects == h.protects && h'.handles[|h.handles|] == Around(o, false)
  {
  }

  /** A destroyed wrapper takes back its own protection, if it gave one. */
  lemma {:induction false} DestroyingReleases(h: Heap, i: nat)
    requires Alive(h, i) && Balanced(h)
    ensures var h', x := Step(h, Destroy(i)), h.handles[i];
      && |h'.handles| == |h.handles| && Others(h, h', {i}) && h'.handles[i] == Gone
      && (if x.isProtected && x.obj.Some? then OneDiffers(h.protects, h'.protects, x.obj.value, -1) else h'.protects == h.protects)
  {
    var x := h.handles[i];
    if x.isProtected && x.obj.Some? {
      assert BalancedAt(h, x.obj.value);
      Replaced(h.handles, i, Gone, x.obj.value);
    }
  }

  // ---- the wrappers themselves ----

  class Engine {
    var protects: multiset<JsObject>
    ghost var objects: seq<Object>

    /** The wrappers made so far are different objects; a wrapper may still be an argument twice. */
    ghost predicate Valid()
      reads this, objects
    {
      && (forall i, j :: 0 <= i < j < |objects| ==> objects[i] != objects[j])
      && Balanced(State())
    }

    ghost function State(): Heap
      reads this, objects
    {
      Heap(protects, seq(|objects|, i requires 0 <= i < |objects| reads this, objects => objects[i].View()))
    }

    constructor ()
      ensures Valid() && State() == START
    {
      protects, objects := multiset{}, [];
    }
  }

  class Object {
    var obj: Option<JsObject>
    var isProtected: bool
    ghost var destroyed: bool

    ghost function View(): Handle
      reads this
    {
      if destroyed then Gone else Around(obj, isProtected)
    }

    constructor (engine: Engine, given: Option<JsObject>)
      requires engine.Valid()
      modifies engine
      ensures engine.Valid() && engine.State() == Step(old(engine.State()), Make(given))
      ensures obj == given && !isProtected && !destroyed && engine.protects == old(engine.protects)
      ensures engine.objects == old(engine.objects) + [this]
    {
      obj, isProtected, destroyed := given, false, false;
      new;
      StepKeepsBalance(engine.State(), Make(given));
      engine.objects := engine.objects + [this];
      assert engine.State().handles == old(engine.State().handles) + [View()];
    }

    constructor Move(engine: Engine, other: Object, ghost at: nat)
      requires engine.Valid() && at < |engine.objects| && engine.objects[at] == other && !other.destroyed
      modifies engine, other
      ensures engine.Valid() && engine.State() == Step(old(engine.State()), Op.Move(at))
      ensures obj == old(other.obj) && isProtected == old(other.isProtected) && !destroyed
      ensures other.obj == None && !other.isProtected && !other.destroyed && engine.protects == old(engine.protects)
      ensures engine.objects == old(engine.objects) + [this]
    {
      obj, isProtected, destroyed := other.obj, other.isProtected, false;
      new;
      StepKeepsBalance(engine.State(), Op.Move(at));
      other.obj := None;
      other.isProtected := false;
      engine.objects := engine.objects + [this];
      assert engine.State().handles == old(engine.State().handles)[at := NOTHING] + [View()];
    }

    /** Move assignment swaps, also when the other is this wrapper. */
    method SwapAssign(engine: Engine, other: Object, ghost i: nat, ghost j: nat)
      requires engine.Valid() && i < |engine.objects| && j < |engine.objects|
      requires engine.objects[i] == this && engine.objects[j] == other && !destroyed && !other.destroyed
      modifies engine, this, other
      ensures engine.Valid() && engine.State() == Step(old(engine.State()), Op.SwapAssign(i, j))
      ensures obj == old(other.obj) && isProtected == old(other.isProtected) && !destroyed
      ensures other.obj == old(obj) && other.isProtected == old(isProtected) && !other.destroyed
      ensures engine.protects == old(engine.protects)
      ensures engine.objects == old(engine.objects)
    {
      StepKeepsBalance(engine.State(), Op.SwapAssign(i, j));
      var held, wasProtected := obj, isProtected;
      obj, isProtected := other.obj, other.isProtected;
      other.obj, other.isProtected := held, wasProtected;
      ghost var was := old(engine.State().handles);
      assert engine.State().handles == was[i := was[j]][j := was[i]];
    }

    method MakeProtected(engine: Engine, ghost at: nat)
      requires engine.Valid() && at < |engine.objects| && engine.objects[at] == this && !destroyed
      modifies engine, this
      ensures engine.Valid() && engine.State() == Step(old(engine.State()), Op.MakeProtected(at))
      ensures engine.objects == old(engine.objects)
      ensures obj == old(obj) && !destroyed
      ensures obj.None? ==> isProtected == old(isProtected) && engine.protects == old(engine.protects)
      ensures obj.Some? ==> isProtected && obj.value in engine.protects
      ensures obj.Some? ==> OneDiffers(old(engine.protects), engine.protects, obj.value, if old(isProtected) then 0 else 1)
    {
      ghost var h := engine.State();
      assert h.handles[at] == View();
      ProtectingPins(h, at);
      StepKeepsBalance(engine.State(), Op.MakeProtected(at));
      if !isProtected && obj.Some? {
        engine.protects := engine.protects + multiset{obj.value};
        isProtected := true;
        assert engine.State().handles == old(engine.State().handles)[at := Around(obj, true)];
      }
    }

    method Destroy(engine: Engine, ghost at: nat)
      requires engine.Valid() && at < |engine.objects| && engine.objects[at] == this && !destroyed
      modifies engine, this
      ensures engine.Valid() && engine.State() == Step(old(engine.State()), Op.Destroy(at))
      ensures engine.objects == old(engine.objects) && destroyed
      ensures if old(isProtected && obj.Some?) then OneDiffers(old(engine.protects), engine.protects, old(obj).value, -1)
              else engine.protects == old(engine.protects)
    {
      ghost var h := engine.State();
      assert h.handles[at] == View();
      DestroyingReleases(h, at);
      StepKeepsBalance(engine.State(), Op.Destroy(at));
      if isProtected && obj.Some? {
        engine.protects := engine.protects - multiset{obj.value};
      }
      destroyed := true;
      assert engine.State().handles == old(engine.State().handles)[at := Gone];
    }
  }
}

/** Freezing everything that an object leads to, over a heap whose objects may form cycles. */
module DeepFreeze {
  import opened Graph

  // ------------------------------------------------------------ the heap

  type Ref = nat

  datatype Value = Primitive(n: int) | Ref(r: Ref)

  datatype Property =
    | Data(value: Value, writable: bool, enumerable: bool, configurable: bool)
    | Accessor(get: Value, set_: Value, enumerable: bool, configurable: bool)

  datatype Own = Own(key: string, desc: Property)

  /** Own properties are kept in the order in which their keys are listed. */
  datatype Obj = Obj(proto: Value, props: seq<Own>, extensible: bool)

  type Heap = map<Ref, Obj>

  function Target(v: Value): set<Ref> {
    if v.Ref? then {v.r} else {}
  }

  function DescTargets(desc: Property): set<Ref> {
    match desc
    case Data(value, _, _, _) => Target(value)
    case Accessor(get, set_, _, _) => Target(get) + Target(set_)
  }

  function Targets(props: seq<Own>): set<Ref> {
    if props == [] then {} else Targets(props[..|props| - 1]) + DescTargets(props[|props| - 1].desc)
  }

  /** The objects one step away: by prototype, value, getter and setter. */
  function Edges(o: Obj): set<Ref> {
    Target(o.proto) + Targets(o.props)
  }

  predicate WellFormed(heap: Heap) {
    forall r :: r in heap ==> Edges(heap[r]) <= heap.Keys
  }

  // ------------------------------------------------------------ reachability

  function Links(heap: Heap): (g: map<Ref, set<Ref>>)
    ensures g.Keys == heap.Keys
  {
    map r | r in heap :: Edges(heap[r])
  }

  ghost predicate Leads(heap: Heap, v: Value, r: Ref) {
    v.Ref? && Reaches(Links(heap), v.r, r)
  }

  /** Objects of the heap, and nothing leads out of them. */
  ghost predicate Sealed(heap: Heap, s: set<Ref>) {
    s <= heap.Keys && Closed(Links(heap), s)
  }

  // ------------------------------------------------------------ freezing

  function FrozenDesc(desc: Property): Property {
    match desc
    case Data(value, _, e, _) => Data(value, false, e, false)
    case Accessor(get, set_, e, _) => Accessor(get, set_, e, false)
  }

  function FrozenProps(props: seq<Own>): (frozen: seq<Own>)
    ensures |frozen| == |props|
  {
    seq(|props|, k requires 0 <= k < |props| => Own(props[k].key, FrozenDesc(props[k].desc)))
  }

  /** What `Object.freeze` makes of an object. */
  function Frozen(o: Obj): Obj {
    Obj(o.proto, FrozenProps(o.props), false)
  }

  predicate IsFrozen(o: Obj) {
    !o.extensible && forall own :: own in o.props ==> !own.desc.configurable && (own.desc.Data? ==> !own.desc.writable)
  }

  lemma {:induction false} FrozenTargets(props: seq<Own>)
    ensures Targets(FrozenProps(props)) == Targets(props)
    decreases |props|
  {
    if props != [] {
      var n := |props| - 1;
      FrozenTargets(props[..n]);
      assert FrozenProps(props)[..n] == FrozenProps(props[..n]);
    }
  }

  /** Every property keeps its key, its value or its functions, and whether it is enumerated. */
  predicate SameContents(a: Property, b: Property) {
    match a
    case Data(value, _, e, _) => b.Data? && b.value == value && b.enumerable == e
    case Accessor(get, set_, e, _) => b.Accessor? && b.get == get && b.set_ == set_ && b.enumerable == e
  }

  /** A frozen object can be changed no more, and holds what it held. */
  lemma FrozenKeepsEdges(o: Obj)
    ensures Edges(Frozen(o)) == Edges(o) && IsFrozen(Frozen(o))
    ensures Frozen(o).proto == o.proto && |Frozen(o).props| == |o.props|
    ensures forall k :: 0 <= k < |o.props| ==>
              Frozen(o).props[k].key == o.props[k].key && SameContents(o.props[k].desc, Frozen(o).props[k].desc)
  {
    FrozenTargets(o.props);
  }

  /** The heap with the objects of `s` frozen. */
  function FrozenIn(heap: Heap, s: set<Ref>): (after: Heap)
    ensures after.Keys == heap.Keys
  {
    map r | r in heap :: if r in s then Frozen(heap[r]) else heap[r]
  }

  /** Freezing changes no edge, and so nothing about what leads where. */
  lemma FrozenKeepsLinks(heap: Heap, s: set<Ref>)
    ensures Links(FrozenIn(heap, s)) == Links(heap)
    ensures WellFormed(FrozenIn(heap, s)) <==> WellFormed(heap)
  {
    var after := FrozenIn(heap, s);
    forall r | r in heap ensures Edges(after[r]) == Edges(heap[r]) { FrozenKeepsEdges(heap[r]); }
  }

  function Elements(s: seq<Ref>): set<Ref> {
    set r | r in s
  }

  lemma NothingQueued()
    ensures Elements([]) == {} && Distinct([])
  {
  }

  predicate Distinct(s: seq<Ref>) {
    forall j, k :: 0 <= j < k < |s| ==> s[j] != s[k]
  }

  class Freezer {
    var heap: Heap
    var frozenSet: set<Ref>
    var freezingSet: seq<Ref>   // in insertion order, without duplicates
    var next: Ref               // where the next object goes
    const functionPrototype: Ref
    const objectPrototype: Ref

    ghost predicate Valid()
      reads this
    {
      && WellFormed(heap) && Sealed(heap, frozenSet) && (forall r :: r in heap ==> r < next)
      && functionPrototype in heap && objectPrototype in heap
      && forall r :: r in frozenSet ==> IsFrozen(heap[r])
    }

    constructor (heap: Heap, next: Ref, functionPrototype: Ref, objectPrototype: Ref)
      requires WellFormed(heap) && (forall r :: r in heap ==> r < next)
      requires functionPrototype in heap && objectPrototype in heap
      ensures Valid() && this.heap == heap && frozenSet == {}
    {
      this.heap, frozenSet, freezingSet, this.next := heap, {}, [], next;
      this.functionPrototype, this.objectPrototype := functionPrototype, objectPrototype;
    }

    /** `enqueue` */
    method Enqueue(val: Value)
      requires Distinct(freezingSet)
      modifies `freezingSet
      ensures Distinct(freezingSet) && old(freezingSet) <= freezingSet
      ensures Elements(freezingSet) == Elements(old(freezingSet)) + (Target(val) - frozenSet)
    {
      if val.Primitive? { return; }
      if val.r in frozenSet || val.r in freezingSet { return; }
      freezingSet := freezingSet + [val.r];
    }

    method EnqueueDesc(desc: Property)
      requires Distinct(freezingSet)
      modifies `freezingSet
      ensures Distinct(freezingSet) && old(freezingSet) <= freezingSet
      ensures Elements(freezingSet) == Elements(old(freezingSet)) + (DescTargets(desc) - frozenSet)
    {
      if desc.Data? {
        Enqueue(desc.value);
      } else {
        Enqueue(desc.get);
        Enqueue(desc.set_);
      }
    }

    /** `doFreeze`: freezes one object, and only then looks at what it leads to. */
    method DoFreeze(obj: Ref)
      requires Distinct(freezingSet) && obj in heap
      modifies `heap, `freezingSet
      ensures heap == old(heap)[obj := Frozen(old(heap)[obj])]
      ensures Distinct(freezingSet) && old(freezingSet) <= freezingSet
      ensures Elements(freezingSet) == Elements(old(freezingSet)) + (Edges(old(heap)[obj]) - frozenSet)
    {
      hide Elements, Distinct, Frozen;
      FrozenKeepsEdges(heap[obj]);
      heap := heap[obj := Frozen(heap[obj])];
      var proto, descs := heap[obj].proto, heap[obj].props;
      Enqueue(proto);
      for k := 0 to |descs|
        invariant heap == old(heap)[obj := Frozen(old(heap)[obj])]
        invariant Distinct(freezingSet) && old(freezingSet) <= freezingSet
        invariant Elements(freezingSet)
               == Elements(old(freezingSet)) + ((Target(proto) + Targets(descs[..k])) - frozenSet)
      {
        EnqueueDesc(descs[k].desc);
        assert descs[..k + 1][..k] == descs[..k];
      }
      assert descs[..|descs|] == descs;
    }

    /** Part way through `dequeue`: what is queued is led to and not frozen before; the first `i` objects are
        frozen, and all that they lead to is queued. */
    ghost predicate Visiting(before: Heap, root: Value, i: nat)
      reads this
    {
      && i <= |freezingSet| && Distinct(freezingSet)
      && Elements(freezingSet) <= before.Keys && Elements(freezingSet) !! frozenSet
      && Target(root) <= frozenSet + Elements(freezingSet)
      && heap == FrozenIn(before, Elements(freezingSet[..i]))
      && (forall k :: 0 <= k < |freezingSet| ==> Leads(before, root, freezingSet[k]))
      && (forall k :: 0 <= k < i ==> Edges(before[freezingSet[k]]) <= frozenSet + Elements(freezingSet))
    }

    /** One object of `dequeue`. */
    method Visit(i: nat, ghost before: Heap, ghost root: Value)
      requires WellFormed(before) && Visiting(before, root, i) && i < |freezingSet|
      modifies `heap, `freezingSet
      ensures Visiting(before, root, i + 1) && old(freezingSet) <= freezingSet
    {
      hide Frozen, Reaches, Edges, FrozenIn, Distinct;
      ghost var queue := freezingSet;
      var obj := freezingSet[i];
      NextFrozen(before, freezingSet, i);
      assert heap[obj] == before[obj] && obj in heap by { NotYet(before, queue, i); }
      DoFreeze(obj);
      assert freezingSet[..i] == queue[..i] && freezingSet[..i + 1] == queue[..i + 1];
      forall k | 0 <= k < |freezingSet| ensures Leads(before, root, freezingSet[k]) {
        var r := freezingSet[k];
        assert r in Elements(freezingSet);
        if r in Elements(queue) {
        } else {
          assert r in Edges(before[obj]);
          ReachesStep(Links(before), root.r, obj, r);
        }
      }
    }

    /** `dequeue`: objects added while it runs are visited too, and there are only so many. */
    method Dequeue(ghost root: Value)
      requires Valid() && Distinct(freezingSet)
      requires Elements(freezingSet) == Target(root) - frozenSet && Target(root) <= heap.Keys
      modifies `heap, `freezingSet
      ensures Visiting(old(heap), root, |freezingSet|)
    {
      hide Frozen, Edges, Distinct;
      ghost var before := heap;
      if root.Ref? { ReachesSelf(Links(heap), root.r); }
      assert FrozenIn(before, Elements(freezingSet[..0])) == heap;
      assert forall k :: 0 <= k < |freezingSet| ==> freezingSet[k] in Elements(freezingSet);
      var i := 0;
      while i < |freezingSet|
        invariant Visiting(before, root, i)
        decreases before.Keys - Elements(freezingSet[..i])
      {
        NextFrozen(before, freezingSet, i);
        ghost var queue := freezingSet;
        Visit(i, before, root);
        assert freezingSet[..i + 1] == queue[..i + 1];
        i := i + 1;
      }
    }

    /** `commit` */
    method Commit()
      modifies `frozenSet
      ensures frozenSet == old(frozenSet) + Elements(freezingSet)
    {
      for k := 0 to |freezingSet|
        invariant frozenSet == old(frozenSet) + Elements(freezingSet[..k])
      {
        frozenSet := frozenSet + {freezingSet[k]};
      }
      assert freezingSet[..|freezingSet|] == freezingSet;
    }

    /** When the queue has been gone through, it and the frozen set have nothing that leads out of them. */
    lemma Visited(before: Heap, root: Value)
      requires WellFormed(before) && Sealed(before, frozenSet) && Visiting(before, root, |freezingSet|)
      requires forall r :: r in frozenSet ==> IsFrozen(before[r])
      ensures heap == FrozenIn(before, Elements(freezingSet)) && WellFormed(heap)
      ensures var all := frozenSet + Elements(freezingSet);
        && Sealed(before, all) && Sealed(heap, all) && Elements(freezingSet) == all - frozenSet
        && (forall r :: r in all ==> IsFrozen(heap[r]))
        && (forall r :: r in Elements(freezingSet) ==> Leads(before, root, r))
    {
      hide Frozen, Edges, Reaches;
      assert freezingSet[..|freezingSet|] == freezingSet;
      FrozenKeepsLinks(before, Elements(freezingSet));
      forall r | r in Elements(freezingSet) ensures IsFrozen(heap[r]) && Leads(before, root, r) {
        FrozenKeepsEdges(before[r]);
      }
    }

    /** `deepFreeze`: adds to the frozen set exactly what the root leads to, freezes just those objects, and
        leaves a set that nothing leads out of. */
    method DeepFreeze(root: Value) returns (same: Value)
      requires Valid() && Target(root) <= heap.Keys
      modifies this
      ensures Valid() && same == root
      ensures forall r :: r in frozenSet <==> r in old(frozenSet) || Leads(old(heap), root, r)
      ensures heap == FrozenIn(old(heap), frozenSet - old(frozenSet))
    {
      hide Reaches, WellFormed, IsFrozen, FrozenIn, Elements, Links, Closed;
      freezingSet := [];
      NothingQueued();
      Enqueue(root);
      Dequeue(root);
      Visited(old(heap), root);
      Commit();
      forall r | Leads(old(heap), root, r) ensures r in frozenSet {
        ClosedHolds(Links(old(heap)), frozenSet, root.r, r);
      }
      same := root;
    }

    /** `intrinsics.forEach(deepFreeze)` */
    method FreezeAll(roots: seq<Value>)
      requires Valid() && forall v :: v in roots ==> Target(v) <= heap.Keys
      modifies this
      ensures Valid()
      ensures forall r :: r in frozenSet <==> r in old(frozenSet) || AnyLeads(old(heap), roots, r)
      ensures heap == FrozenIn(old(heap), frozenSet - old(frozenSet))
    {
      hide Leads, FrozenIn, Valid, AnyLeads;
      ghost var before, was := heap, frozenSet;
      FreezeNone(before);
      assert frozenSet - was == {};
      for k := 0 to |roots|
        invariant Valid() && heap == FrozenIn(before, frozenSet - was) && was <= frozenSet
        invariant forall r :: r in frozenSet <==> r in was || AnyLeads(before, roots[..k], r)
      {
        ghost var earlier := frozenSet;
        FrozenKeepsLinks(before, frozenSet - was);
        var _ := DeepFreeze(roots[k]);
        forall r ensures r in frozenSet <==> r in was || AnyLeads(before, roots[..k + 1], r) {
          LeadsSnoc(before, roots, k, r);
          SameLead(before, earlier - was, roots[k], r);
        }
        FreezeMore(before, earlier - was, frozenSet - earlier);
        assert (earlier - was) + (frozenSet - earlier) == frozenSet - was;
      }
      assert roots[..|roots|] == roots;
    }

    /** A function declaration: the function, and the prototype object that points back to it. */
    method NewFunction(extra: seq<Own>) returns (f: Ref)
      modifies `heap, `next
      ensures f == old(next) && next == old(next) + 2
      ensures heap == old(heap)[f := Function(functionPrototype, f, extra)][f + 1 := PrototypeOf(objectPrototype, f)]
    {
      f := next;
      heap := heap[f := Function(functionPrototype, f, extra)][f + 1 := PrototypeOf(objectPrototype, f)];
      next := next + 2;
    }

    /** `enableDerivedOverride` for own property `k`: a configurable value moves behind a getter that holds it
        as a property, so that the traversal still finds it. */
    method EnableDerivedOverride(obj: Ref, k: nat)
      requires Valid() && obj in heap && k < |heap[obj].props|
      modifies `heap, `next
      ensures Valid() && Keeps(old(heap), heap) && obj in heap
      ensures heap[obj] == Overridden(old(heap)[obj], k, old(next))
      ensures var desc, f := old(heap)[obj].props[k].desc, old(next);
        desc.Data? && desc.configurable ==> f in heap && heap[f] == Function(functionPrototype, f, [Held(desc.value)])
      ensures forall r :: r in old(heap) && r != obj ==> heap[r] == old(heap)[r]
      ensures OnlyMoved(old(heap)[obj], heap[obj], k)
      ensures var own := old(heap)[obj].props[k];
        if own.desc.Data? && own.desc.configurable then Behind(own, heap[obj].props[k], old(heap), heap)
        else heap == old(heap)
    {
      hide Targets, Keeps, Edges, Reaches, Function, PrototypeOf, Overridden, WellFormed, Sealed, IsFrozen, Links;
      hide Behind, OnlyMoved;
      ghost var before, f := heap, next;
      var prop := heap[obj].props[k];
      if prop.desc.Data? && prop.desc.configurable {
        var getter := NewFunction([Held(prop.desc.value)]);
        var setter := NewFunction([]);
        var desc := Accessor(Ref(getter), Ref(setter), prop.desc.enumerable, prop.desc.configurable);
        heap := heap[obj := heap[obj].(props := heap[obj].props[k := Own(prop.key, desc)])];
        OverriddenIs(before[obj], heap[obj], k, f, desc);
        OverriddenBehind(before, heap, obj, k, f, functionPrototype, objectPrototype);
        OverrideIs(before, heap, obj, k, f, functionPrototype, objectPrototype);
        OverrideKeeps(before, heap, obj, k, f, functionPrototype, objectPrototype);
        OverrideValid(before, heap, obj, k, f, functionPrototype, objectPrototype, frozenSet);
      } else {
        NotOverridden(heap[obj], k, f);
        SameMoved(heap[obj], k);
        KeepsSelf(heap);
      }
    }

    /** `enableDerivedOverrides` */
    method EnableDerivedOverrides(v: Value)
      requires Valid() && Target(v) <= heap.Keys
      modifies `heap, `next
      ensures Valid() && Keeps(old(heap), heap)
      ensures v.Ref? ==> forall own :: own in heap[v.r].props && own.desc.configurable ==> own.desc.Accessor?
      ensures forall r :: r in old(heap) && v != Ref(r) ==> heap[r] == old(heap)[r]
      ensures v.Ref? ==> v.r in heap && AllMoved(old(heap)[v.r], heap[v.r], old(heap), heap)
    {
      hide Valid, Keeps, Overridden, Moved;
      KeepsSelf(heap);
      if v.Primitive? { return; }
      var obj, descs := v.r, heap[v.r].props;
      for k := 0 to |descs|
        invariant Valid() && Keeps(old(heap), heap) && old(heap).Keys <= heap.Keys
        invariant |heap[obj].props| == |descs| && heap[obj].props[k..] == descs[k..]
        invariant heap[obj].proto == old(heap)[obj].proto && heap[obj].extensible == old(heap)[obj].extensible
        invariant forall j :: 0 <= j < k ==> Moved(descs[j], heap[obj].props[j], old(heap), heap)
        invariant forall r :: r in old(heap) && r != obj ==> heap[r] == old(heap)[r]
      {
        ghost var past := heap;
        EnableDerivedOverride(obj, k);
        KeepsTwice(old(heap), past, heap);
        MovedMore(descs, old(heap), past, heap, obj, k);
      }
      forall own | own in heap[obj].props && own.desc.configurable ensures own.desc.Accessor? {
        var j :| 0 <= j < |descs| && heap[obj].props[j] == own;
        MovedIsAccessor(descs[j], own, old(heap), heap);
      }
    }

    /** What the module does when it is loaded: overrides on the prototypes first, then the freeze.  All that
        the roots led to before is frozen in the end. */
    method Lockdown(intrinsicPrototypes: seq<Value>, intrinsics: seq<Value>)
      requires Valid()
      requires forall v :: v in intrinsicPrototypes ==> Target(v) <= heap.Keys
      requires forall v :: v in intrinsics ==> Target(v) <= heap.Keys
      modifies this
      ensures Valid()
      ensures forall v, r :: v in intrinsics && Leads(old(heap), v, r) ==>
                r in frozenSet && r in heap && IsFrozen(heap[r])
    {
      hide Keeps, Reaches, Links, WellFormed, FrozenIn, Closed;
      KeepsSelf(heap);
      for k := 0 to |intrinsicPrototypes|
        invariant Valid() && Keeps(old(heap), heap) && old(heap).Keys <= heap.Keys
      {
        ghost var past := heap;
        EnableDerivedOverrides(intrinsicPrototypes[k]);
        KeepsTwice(old(heap), past, heap);
      }
      ghost var ready := heap;
      FreezeAll(intrinsics);
      forall v, r | v in intrinsics && Leads(old(heap), v, r) ensures r in frozenSet {
        KeepsLead(old(heap), ready, v, r);
        assert AnyLeads(ready, intrinsics, r);
      }
    }
  }

  // ------------------------------------------------------------ overrides

  function Function(functionPrototype: Ref, f: Ref, extra: seq<Own>): Obj {
    Obj(Ref(functionPrototype),
        [Own("length", Data(Primitive(0), false, false, true)), Own("name", Data(Primitive(0), false, false, true)),
         Own("prototype", Data(Ref(f + 1), true, false, false))] + extra,
        true)
  }

  function PrototypeOf(objectPrototype: Ref, f: Ref): Obj {
    Obj(Ref(objectPrototype), [Own("constructor", Data(Ref(f), true, false, true))], true)
  }

  /** Property `k` with its value behind the getter at `f`, whose setter is two places on. */
  function Overridden(o: Obj, k: nat, f: Ref): Obj
    requires k < |o.props|
  {
    var desc := o.props[k].desc;
    if desc.Data? && desc.configurable then
      o.(props := o.props[k := Own(o.props[k].key, Accessor(Ref(f), Ref(f + 2), desc.enumerable, true))])
    else o
  }

  lemma OverriddenIs(o: Obj, now: Obj, k: nat, f: Ref, desc: Property)
    requires k < |o.props| && o.props[k].desc.Data? && o.props[k].desc.configurable
    requires desc == Accessor(Ref(f), Ref(f + 2), o.props[k].desc.enumerable, o.props[k].desc.configurable)
    requires now == o.(props := o.props[k := Own(o.props[k].key, desc)])
    ensures now == Overridden(o, k, f) && OnlyMoved(o, now, k)
  {
  }

  /** Nothing of the object but property `k` has changed. */
  ghost predicate OnlyMoved(o: Obj, now: Obj, k: nat) {
    && now.proto == o.proto && now.extensible == o.extensible && |now.props| == |o.props|
    && forall j :: 0 <= j < |o.props| && j != k ==> now.props[j] == o.props[j]
  }

  lemma SameMoved(o: Obj, k: nat)
    ensures OnlyMoved(o, o, k)
  {
  }

  ghost predicate HoldsValue(o: Obj, value: Value) {
    exists own :: own in o.props && own.key == "value" && own.desc.Data? && own.desc.value == value
  }

  ghost predicate HoldsNoValue(o: Obj) {
    forall own :: own in o.props ==> own.key != "value"
  }

  /** The data property `own` has become the accessor property `now`: its getter is a new object that holds the
      value, and its setter another one that does not. */
  ghost predicate Behind(own: Own, now: Own, before: Heap, heap: Heap)
    requires own.desc.Data?
  {
    && now.key == own.key && now.desc.Accessor?
    && now.desc.enumerable == own.desc.enumerable && now.desc.configurable == own.desc.configurable
    && now.desc.get.Ref? && now.desc.set_.Ref? && now.desc.get != now.desc.set_
    && var getter, setter := now.desc.get.r, now.desc.set_.r;
    && getter !in before && setter !in before && getter in heap && setter in heap
    && HoldsValue(heap[getter], own.desc.value) && HoldsNoValue(heap[setter])
  }

  /** A configurable data property moves, and any other stays as it was. */
  ghost predicate Moved(own: Own, now: Own, before: Heap, heap: Heap) {
    if own.desc.Data? && own.desc.configurable then Behind(own, now, before, heap) else now == own
  }

  ghost predicate AllMoved(o: Obj, now: Obj, before: Heap, heap: Heap) {
    && now.proto == o.proto && now.extensible == o.extensible && |now.props| == |o.props|
    && forall j :: 0 <= j < |o.props| ==> Moved(o.props[j], now.props[j], before, heap)
  }

  lemma MovedIsAccessor(own: Own, now: Own, before: Heap, heap: Heap)
    requires Moved(own, now, before, heap) && now.desc.configurable
    ensures now.desc.Accessor?
  {
  }

  /** One property more, while the objects behind the others stay as they are. */
  lemma MovedMore(descs: seq<Own>, before: Heap, past: Heap, heap: Heap, obj: Ref, k: nat)
    requires obj in before && obj in past && obj in heap && before.Keys <= past.Keys <= heap.Keys
    requires k < |descs| == |past[obj].props| && past[obj].props[k] == descs[k]
    requires forall j :: 0 <= j < k ==> Moved(descs[j], past[obj].props[j], before, past)
    requires OnlyMoved(past[obj], heap[obj], k) && forall r :: r in past && r != obj ==> heap[r] == past[r]
    requires if descs[k].desc.Data? && descs[k].desc.configurable then Behind(descs[k], heap[obj].props[k], past, heap)
             else heap == past
    ensures forall j :: 0 <= j <= k ==> Moved(descs[j], heap[obj].props[j], before, heap)
  {
  }

  lemma OverriddenBehind(before: Heap, after: Heap, obj: Ref, k: nat, f: Ref, fp: Ref, op: Ref)
    requires obj in before && k < |before[obj].props|
    requires before[obj].props[k].desc.Data? && before[obj].props[k].desc.configurable
    requires forall r :: r in before ==> r < f
    requires after == before[f := Function(fp, f, [Held(before[obj].props[k].desc.value)])][f + 1 := PrototypeOf(op, f)]
      [f + 2 := Function(fp, f + 2, [])][f + 3 := PrototypeOf(op, f + 2)][obj := Overridden(before[obj], k, f)]
    ensures Behind(before[obj].props[k], after[obj].props[k], before, after)
  {
    hide PrototypeOf;
    var value := before[obj].props[k].desc.value;
    FunctionHolds(fp, f, value);
    FunctionHoldsNone(fp, f + 2);
    assert after[f] == Function(fp, f, [Held(value)]) && after[f + 2] == Function(fp, f + 2, []);
  }

  lemma FunctionHolds(fp: Ref, f: Ref, value: Value)
    ensures HoldsValue(Function(fp, f, [Held(value)]), value)
  {
    var o := Function(fp, f, [Held(value)]);
    assert o.props[3] == Held(value) && Held(value) in o.props;
  }

  lemma FunctionHoldsNone(fp: Ref, f: Ref)
    ensures HoldsNoValue(Function(fp, f, []))
  {
  }

  lemma NotOverridden(o: Obj, k: nat, f: Ref)
    requires k < |o.props| && !(o.props[k].desc.Data? && o.props[k].desc.configurable)
    ensures Overridden(o, k, f) == o
  {
  }

  /** `getter.value = value` */
  function Held(value: Value): Own {
    Own("value", Data(value, true, true, true))
  }

  /** Everything that led anywhere still does. */
  ghost predicate Keeps(before: Heap, after: Heap) {
    before.Keys <= after.Keys && forall a, b :: Reaches(Links(before), a, b) ==> Reaches(Links(after), a, b)
  }

  lemma KeepsSelf(heap: Heap)
    ensures Keeps(heap, heap)
  {
  }

  lemma KeepsTwice(a: Heap, b: Heap, c: Heap)
    requires Keeps(a, b) && Keeps(b, c)
    ensures Keeps(a, c) && a.Keys <= c.Keys && b.Keys <= c.Keys
  {
    hide Reaches;
  }

  lemma KeepsLead(before: Heap, after: Heap, v: Value, r: Ref)
    requires Keeps(before, after) && Leads(before, v, r)
    ensures Leads(after, v, r)
  {
    hide Reaches;
  }

  lemma {:induction false} TargetsHold(props: seq<Own>, k: nat)
    requires k < |props|
    ensures DescTargets(props[k].desc) <= Targets(props)
    decreases |props|
  {
    if k < |props| - 1 { TargetsHold(props[..|props| - 1], k); }
  }

  lemma {:induction false} TargetsFrom(props: seq<Own>, r: Ref) returns (k: nat)
    requires r in Targets(props)
    ensures k < |props| && r in DescTargets(props[k].desc)
    decreases |props|
  {
    var n := |props| - 1;
    if r in DescTargets(props[n].desc) { k := n; } else { k := TargetsFrom(props[..n], r); }
  }

  lemma {:induction false} TargetsAppend(a: seq<Own>, b: seq<Own>)
    ensures Targets(a + b) == Targets(a) + Targets(b)
    decreases |b|
  {
    if b == [] {
      assert a + b == a;
    } else {
      assert (a + b)[..|a + b| - 1] == a + b[..|b| - 1];
      TargetsAppend(a, b[..|b| - 1]);
    }
  }

  lemma TargetsOne(own: Own)
    ensures Targets([own]) == DescTargets(own.desc)
  {
    assert [own][..0] == [];
  }

  lemma NothingHeld()
    ensures Targets([]) == {}
  {
  }

  lemma TargetsOfFunction(functionPrototype: Ref, f: Ref, extra: seq<Own>)
    ensures Edges(Function(functionPrototype, f, extra)) == {functionPrototype, f + 1} + Targets(extra)
  {
    hide Targets;
    var a, b, c := Own("length", Data(Primitive(0), false, false, true)),
      Own("name", Data(Primitive(0), false, false, true)), Own("prototype", Data(Ref(f + 1), true, false, false));
    assert [a, b, c] == [a] + [b] + [c];
    TargetsAppend([a], [b]);
    TargetsAppend([a] + [b], [c]);
    TargetsOne(a);
    TargetsOne(b);
    TargetsOne(c);
    TargetsAppend([a, b, c], extra);
  }

  lemma TargetsOfPrototype(objectPrototype: Ref, f: Ref)
    ensures Edges(PrototypeOf(objectPrototype, f)) == {objectPrototype, f}
  {
    hide Targets;
    TargetsOne(Own("constructor", Data(Ref(f), true, false, true)));
  }

  /** An override takes nothing from an object's edges but the moved value, and adds the two functions. */
  lemma OverrideTargets(o: Obj, k: nat, f: Ref)
    requires k < |o.props| && o.props[k].desc.Data? && o.props[k].desc.configurable
    ensures var now := Edges(Overridden(o, k, f));
      && {f, f + 2} <= now <= Edges(o) + {f, f + 2}
      && Edges(o) <= now + Target(o.props[k].desc.value)
  {
    hide Targets;
    var after := Overridden(o, k, f).props;
    TargetsHold(after, k);
    forall r | r in Targets(after) ensures r in Targets(o.props) + {f, f + 2} {
      var j := TargetsFrom(after, r);
      if j != k { TargetsHold(o.props, j); }
    }
    forall r | r in Targets(o.props) ensures r in Targets(after) + Target(o.props[k].desc.value) {
      var j := TargetsFrom(o.props, r);
      if j != k { TargetsHold(after, j); }
    }
  }

  /** The heap after one override. */
  ghost predicate IsOverride(before: Heap, after: Heap, obj: Ref, k: nat, f: Ref, fp: Ref, op: Ref) {
    && obj in before && k < |before[obj].props| 
    && before[obj].props[k].desc.Data? && before[obj].props[k].desc.configurable
    && (forall r :: r in before ==> r < f) && WellFormed(before) && fp in before && op in before
    && after.Keys == before.Keys + {f, f + 1, f + 2, f + 3}
    && (forall r :: r in before && r != obj ==> after[r] == before[r])
    && after[obj] == Overridden(before[obj], k, f)
    && Edges(after[f]) == {fp, f + 1} + Target(before[obj].props[k].desc.value) && Edges(after[f + 1]) == {op, f}
    && Edges(after[f + 2]) == {fp, f + 3} && Edges(after[f + 3]) == {op, f + 2}
  }

  lemma OverrideIs(before: Heap, after: Heap, obj: Ref, k: nat, f: Ref, fp: Ref, op: Ref)
    requires obj in before && k < |before[obj].props|
    requires before[obj].props[k].desc.Data? && before[obj].props[k].desc.configurable
    requires (forall r :: r in before ==> r < f) && WellFormed(before) && fp in before && op in before
    requires after == before[f := Function(fp, f, [Held(before[obj].props[k].desc.value)])][f + 1 := PrototypeOf(op, f)]
      [f + 2 := Function(fp, f + 2, [])][f + 3 := PrototypeOf(op, f + 2)][obj := Overridden(before[obj], k, f)]
    ensures IsOverride(before, after, obj, k, f, fp, op)
  {
    hide WellFormed, Edges, Function, PrototypeOf, Targets, Overridden;
    var value := before[obj].props[k].desc.value;
    TargetsOfFunction(fp, f, [Held(value)]);
    TargetsOne(Held(value));
    TargetsOfFunction(fp, f + 2, []);
    NothingHeld();
    TargetsOfPrototype(op, f);
    TargetsOfPrototype(op, f + 2);
  }

  lemma SealedEdges(heap: Heap, s: set<Ref>)
    requires WellFormed(heap)
    ensures Sealed(heap, s) <==> s <= heap.Keys && forall r :: r in s ==> Edges(heap[r]) <= s
  {
    hide Edges;
    var g := Links(heap);
    if Sealed(heap, s) {
      forall r, t | r in s && t in Edges(heap[r]) ensures t in s { assert t in g[r] && t in g; }
    }
  }

  lemma OverrideValid(before: Heap, after: Heap, obj: Ref, k: nat, f: Ref, fp: Ref, op: Ref, s: set<Ref>)
    requires IsOverride(before, after, obj, k, f, fp, op) && Sealed(before, s)
    requires forall r :: r in s ==> IsFrozen(before[r])
    ensures WellFormed(after) && Sealed(after, s) && (forall r :: r in after ==> r < f + 4)
    ensures forall r :: r in s ==> IsFrozen(after[r])
  {
    hide Targets, Overridden, Edges;
    var o := before[obj];
    OverrideTargets(o, k, f);
    MovedValue(o, k);
    SealedEdges(before, s);
    assert obj !in s by { assert o.props[k] in o.props; }
    assert Edges(o) <= before.Keys;
  }

  lemma MovedValue(o: Obj, k: nat)
    requires k < |o.props| && o.props[k].desc.Data?
    ensures Target(o.props[k].desc.value) <= Edges(o)
  {
    TargetsHold(o.props, k);
  }

  /** An edge of the heap before is a way in the heap after. */
  lemma OverrideEdge(before: Heap, after: Heap, obj: Ref, k: nat, f: Ref, fp: Ref, op: Ref, a: Ref, b: Ref)
    requires IsOverride(before, after, obj, k, f, fp, op) && a in before && b in Edges(before[a])
    ensures Reaches(Links(after), a, b)
  {
    hide Targets, Overridden, Reaches;
    ReachesSelf(Links(after), a);
    if a == obj {
      OverrideTargets(before[obj], k, f);
      if b !in Edges(after[obj]) {
        ReachesStep(Links(after), a, a, f);
        ReachesStep(Links(after), a, f, b);
        return;
      }
    }
    ReachesStep(Links(after), a, a, b);
  }

  lemma {:induction false} OverrideTrail(before: Heap, after: Heap, obj: Ref, k: nat, f: Ref, fp: Ref, op: Ref,
                                         a: Ref, b: Ref, p: seq<Ref>)
    requires IsOverride(before, after, obj, k, f, fp, op) && TrailFrom(Links(before), a, b, p)
    ensures Reaches(Links(after), a, b)
    decreases |p|
  {
    hide IsOverride, Reaches, Edges;
    assert before.Keys <= after.Keys by { OverrideKeys(before, after, obj, k, f, fp, op); }
    if |p| == 1 {
      ReachesSelf(Links(after), a);
    } else {
      assert p[1] in Edges(before[p[0]]);
      var q := p[1..];
      assert forall k :: 0 <= k < |q| ==> q[k] == p[k + 1];
      assert TrailFrom(Links(before), p[1], b, q);
      OverrideEdge(before, after, obj, k, f, fp, op, a, p[1]);
      OverrideTrail(before, after, obj, k, f, fp, op, p[1], b, q);
      ReachesTransitive(Links(after), a, p[1], b);
    }
  }

  lemma OverrideKeys(before: Heap, after: Heap, obj: Ref, k: nat, f: Ref, fp: Ref, op: Ref)
    requires IsOverride(before, after, obj, k, f, fp, op)
    ensures before.Keys <= after.Keys
  {
  }

  lemma OverrideKeeps(before: Heap, after: Heap, obj: Ref, k: nat, f: Ref, fp: Ref, op: Ref)
    requires IsOverride(before, after, obj, k, f, fp, op)
    ensures Keeps(before, after)
  {
    OverrideKeys(before, after, obj, k, f, fp, op);
    forall a, b | Reaches(Links(before), a, b) ensures Reaches(Links(after), a, b) {
      var p :| TrailFrom(Links(before), a, b, p);
      OverrideTrail(before, after, obj, k, f, fp, op, a, b, p);
    }
  }

  /** And nothing more leads anywhere, but for what the two functions inherit. */
  lemma OverrideAddsNoMore(before: Heap, after: Heap, obj: Ref, k: nat, f: Ref, fp: Ref, op: Ref, a: Ref, b: Ref)
    requires IsOverride(before, after, obj, k, f, fp, op) && a in before && b in before && Reaches(Links(after), a, b)
    ensures Reaches(Links(before), a, b)
         || (Reaches(Links(before), a, obj) && (Reaches(Links(before), fp, b) || Reaches(Links(before), op, b)))
  {
    hide Targets, Overridden, Reaches, Edges;
    var own: set<Ref> := Region(Links(before), a);
    var more: set<Ref> := Region(Links(before), fp) + Region(Links(before), op);
    RegionClosed(Links(before), a);
    RegionClosed(Links(before), fp);
    RegionClosed(Links(before), op);
    if obj in own {
      OverrideTargets(before[obj], k, f);
      MovedValue(before[obj], k);
      var all: set<Ref> := own + more + {f, f + 1, f + 2, f + 3};
      ClosedOver(before, after, obj, k, f, fp, op, own, more);
      ClosedHolds(Links(after), all, a, b);
    } else {
      assert Sealed(after, own);
      ClosedHolds(Links(after), own, a, b);
    }
  }

  lemma ClosedOver(before: Heap, after: Heap, obj: Ref, k: nat, f: Ref, fp: Ref, op: Ref, own: set<Ref>, more: set<Ref>)
    requires IsOverride(before, after, obj, k, f, fp, op) && Sealed(before, own) && Sealed(before, more)
    requires obj in own && fp in more && op in more
    ensures Sealed(after, own + more + {f, f + 1, f + 2, f + 3})
  {
    hide Targets, Overridden, Edges;
    OverrideTargets(before[obj], k, f);
    MovedValue(before[obj], k);
  }

  ghost predicate AnyLeads(heap: Heap, roots: seq<Value>, r: Ref) {
    exists v :: v in roots && Leads(heap, v, r)
  }

  lemma LeadsSnoc(heap: Heap, roots: seq<Value>, k: nat, r: Ref)
    requires k < |roots|
    ensures AnyLeads(heap, roots[..k + 1], r) <==> AnyLeads(heap, roots[..k], r) || Leads(heap, roots[k], r)
    ensures !AnyLeads(heap, roots[..0], r)
  {
    hide Leads;
    assert roots[..k + 1] == roots[..k] + [roots[k]];
  }

  lemma SameLead(heap: Heap, s: set<Ref>, v: Value, r: Ref)
    ensures Leads(FrozenIn(heap, s), v, r) <==> Leads(heap, v, r)
  {
    FrozenKeepsLinks(heap, s);
  }

  lemma FreezeNone(heap: Heap)
    ensures FrozenIn(heap, {}) == heap
    ensures forall r :: !AnyLeads(heap, [], r)
  {
  }

  /** The next object in line has not been touched. */
  lemma NotYet(heap: Heap, queue: seq<Ref>, i: nat)
    requires i < |queue| && Distinct(queue) && Elements(queue) <= heap.Keys
    ensures var now := FrozenIn(heap, Elements(queue[..i])); queue[i] in now && now[queue[i]] == heap[queue[i]]
  {
    assert queue[i] in Elements(queue);
  }

  lemma NextFrozen(heap: Heap, queue: seq<Ref>, i: nat)
    requires i < |queue| && Distinct(queue) && Elements(queue) <= heap.Keys
    ensures queue[i] in queue[..i + 1] && queue[i] !in queue[..i] && queue[i] in heap
    ensures Elements(queue[..i + 1]) == Elements(queue[..i]) + {queue[i]}
    ensures FrozenIn(heap, Elements(queue[..i + 1])) ==
            FrozenIn(heap, Elements(queue[..i]))[queue[i] := Frozen(heap[queue[i]])]
  {
    assert queue[..i + 1] == queue[..i] + [queue[i]];
    assert queue[i] in Elements(queue);
  }

  lemma FreezeMore(heap: Heap, s: set<Ref>, t: set<Ref>)
    requires s !! t
    ensures FrozenIn(FrozenIn(heap, s), t) == FrozenIn(heap, s + t)
  {
  }
}

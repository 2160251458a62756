/**
  Merging the multibinding pairs the expander collected into one set of
  elements per type, and telling the allocator about every element that will
  have to be constructed.
 */
module Multibindings {
  import opened Entries

  /** One element of a multibinding, as the injector later walks it: an object, or how to build one. */
  datatype NormalizedMultibinding =
    | ConstructedElem(object: ObjectPtr)
    | CreateElem(create: CreateFn)

  datatype NormalizedMultibindingSet = NormalizedMultibindingSet(getMultibindingsVector: VectorFn, elems: seq<NormalizedMultibinding>)

  type MultibindingMap = map<TypeId, NormalizedMultibindingSet>

  /** The element a multibinding contributes: the object pointer, or the `create` function alone. */
  function Normalize(b: Binding): NormalizedMultibinding
  {
    match b.recipe
    case Constructed(p) => ConstructedElem(p)
    case ToConstruct(_, f, _) => CreateElem(f)
  }

  /** The types some pair contributes an element to. */
  function ElementTypes(pairs: seq<MultibindingPair>): set<TypeId>
  {
    set k | 0 <= k < |pairs| :: pairs[k].element.typeId
  }

  /** Positions of the pairs whose element is of type `t`. */
  function Contributions(pairs: seq<MultibindingPair>, t: TypeId): set<nat>
  {
    set k: nat | k < |pairs| && pairs[k].element.typeId == t
  }

  /** Positions of the pairs whose element is of type `t` and is still to be constructed with allocation mode `a`. */
  function Requests(pairs: seq<MultibindingPair>, t: TypeId, a: Alloc): set<nat>
  {
    set k: nat | k < |pairs| && pairs[k].element.typeId == t && pairs[k].element.recipe.ToConstruct? && pairs[k].element.recipe.alloc == a
  }

  /** The normalized elements of type `t`, in the order of the pairs. */
  function ElemsFor(pairs: seq<MultibindingPair>, t: TypeId): seq<NormalizedMultibinding>
    decreases |pairs|
  {
    if |pairs| == 0 then []
    else
      var last := pairs[|pairs| - 1];
      ElemsFor(pairs[..|pairs| - 1], t) + (if last.element.typeId == t then [Normalize(last.element)] else [])
  }

  /** The position of the last pair contributing to `t`, or -1 when there is none. */
  function LastContribution(pairs: seq<MultibindingPair>, t: TypeId): (k: int)
    ensures -1 <= k < |pairs|
    ensures k >= 0 ==> pairs[k].element.typeId == t
    ensures forall j :: k < j < |pairs| ==> pairs[j].element.typeId != t
    decreases |pairs|
  {
    if |pairs| == 0 then -1
    else if pairs[|pairs| - 1].element.typeId == t then |pairs| - 1
    else LastContribution(pairs[..|pairs| - 1], t)
  }

  /** The elements a type had before the merge. */
  function Before(ms: MultibindingMap, t: TypeId): seq<NormalizedMultibinding>
  {
    if t in ms then ms[t].elems else []
  }

  /** The vector getter a type ends up with: the one paired with its last element, else the old one. */
  function FinalGetter(ms: MultibindingMap, pairs: seq<MultibindingPair>, t: TypeId): VectorFn
    requires t in ms || t in ElementTypes(pairs)
  {
    var k := LastContribution(pairs, t);
    if k >= 0 then pairs[k].creator.getMultibindingsVector
    else
      assert t !in ElementTypes(pairs);
      ms[t].getMultibindingsVector
  }

  /** An element is contributed to `t` exactly when some pair of type `t` normalizes to it. */
  lemma {:induction false} ElemsForMembers(pairs: seq<MultibindingPair>, t: TypeId, x: NormalizedMultibinding)
    ensures x in ElemsFor(pairs, t) <==> exists k :: k in Contributions(pairs, t) && Normalize(pairs[k].element) == x
    decreases |pairs|
  {
    if |pairs| > 0 {
      var n := |pairs| - 1;
      var init := pairs[..n];
      ElemsForMembers(init, t, x);
      if x in ElemsFor(init, t) {
        var k :| k in Contributions(init, t) && Normalize(init[k].element) == x;
        assert k in Contributions(pairs, t);
      }
      if exists k :: k in Contributions(pairs, t) && Normalize(pairs[k].element) == x {
        var k :| k in Contributions(pairs, t) && Normalize(pairs[k].element) == x;
        if k < n {
          assert k in Contributions(init, t);
        }
      }
    }
  }

  /** Appending one pair adds its position to a position set exactly when it qualifies. */
  lemma ContributionsSnoc(pairs: seq<MultibindingPair>, p: MultibindingPair, t: TypeId)
    ensures Contributions(pairs + [p], t) == Contributions(pairs, t) + (if p.element.typeId == t then {|pairs|} else {})
    ensures |pairs| !in Contributions(pairs, t)
  {
  }

  lemma RequestsSnoc(pairs: seq<MultibindingPair>, p: MultibindingPair, t: TypeId, a: Alloc)
    ensures Requests(pairs + [p], t, a) ==
            Requests(pairs, t, a) + (if p.element.typeId == t && p.element.recipe.ToConstruct? && p.element.recipe.alloc == a then {|pairs|} else {})
    ensures |pairs| !in Requests(pairs, t, a)
  {
  }

  /** A type receives one element per pair of that type. */
  lemma {:induction false} ElemsForCount(pairs: seq<MultibindingPair>, t: TypeId)
    ensures |ElemsFor(pairs, t)| == |Contributions(pairs, t)|
    decreases |pairs|
  {
    if |pairs| > 0 {
      var n := |pairs| - 1;
      assert pairs == pairs[..n] + [pairs[n]];
      ContributionsSnoc(pairs[..n], pairs[n], t);
      ElemsForCount(pairs[..n], t);
    }
  }

  /** Effect of one more pair on the reference functions, used by the loop. */
  lemma PrefixStep(pairs: seq<MultibindingPair>, i: nat, t: TypeId)
    requires i < |pairs|
    ensures ElemsFor(pairs[..i + 1], t) == ElemsFor(pairs[..i], t) + (if pairs[i].element.typeId == t then [Normalize(pairs[i].element)] else [])
    ensures LastContribution(pairs[..i + 1], t) == if pairs[i].element.typeId == t then i else LastContribution(pairs[..i], t)
    ensures ElementTypes(pairs[..i + 1]) == ElementTypes(pairs[..i]) + {pairs[i].element.typeId}
    ensures forall a :: |Requests(pairs[..i + 1], t, a)| == |Requests(pairs[..i], t, a)| +
              (if pairs[i].element.typeId == t && pairs[i].element.recipe.ToConstruct? && pairs[i].element.recipe.alloc == a then 1 else 0)
  {
    var p := pairs[..i + 1];
    assert p[..i] == pairs[..i];
    assert p == pairs[..i] + [pairs[i]];
    forall a: Alloc
      ensures |Requests(p, t, a)| == |Requests(pairs[..i], t, a)| +
                (if pairs[i].element.typeId == t && pairs[i].element.recipe.ToConstruct? && pairs[i].element.recipe.alloc == a then 1 else 0)
    {
      RequestsSnoc(pairs[..i], pairs[i], t, a);
    }
    forall x | x in ElementTypes(p)
      ensures x in ElementTypes(pairs[..i]) + {pairs[i].element.typeId}
    {
      var k :| 0 <= k < |p| && p[k].element.typeId == x;
      if k < i {
        assert pairs[..i][k] == p[k];
      }
    }
    forall x | x in ElementTypes(pairs[..i])
      ensures x in ElementTypes(p)
    {
      var k :| 0 <= k < i && pairs[..i][k].element.typeId == x;
      assert p[k] == pairs[..i][k];
    }
    assert p[i] == pairs[i];
  }

  /** One iteration of the merge: the pair's element appended to its type, the getter overwritten, the allocator told. */
  method AddPair(r: MultibindingMap, a: AllocatorData, p: MultibindingPair) returns (r': MultibindingMap, a': AllocatorData)
    ensures var t := p.element.typeId;
            r' == r[t := NormalizedMultibindingSet(p.creator.getMultibindingsVector, Before(r, t) + [Normalize(p.element)])]
    ensures a' == Account(a, p.element)
  {
    var t := p.element.typeId;
    a' := a;
    var b := if t in r then r[t] else NormalizedMultibindingSet(0, []);
    b := b.(getMultibindingsVector := p.creator.getMultibindingsVector);
    match p.element.recipe {
      case Constructed(ptr) =>
        b := b.(elems := b.elems + [ConstructedElem(ptr)]);
      case ToConstruct(NoAllocation, f, _) =>
        a' := a'.(externals := a'.externals + multiset{t});
        b := b.(elems := b.elems + [CreateElem(f)]);
      case ToConstruct(NeedsAllocation, f, _) =>
        a' := a'.(ownStorage := a'.ownStorage + multiset{t});
        b := b.(elems := b.elems + [CreateElem(f)]);
    }
    r' := r[t := b];
  }

  lemma MergedElems(ms: MultibindingMap, pairs: seq<MultibindingPair>, i: nat, r: MultibindingMap, r': MultibindingMap)
    requires i < |pairs|
    requires r.Keys == ms.Keys + ElementTypes(pairs[..i])
    requires forall t :: t in r ==> r[t].elems == Before(ms, t) + ElemsFor(pairs[..i], t)
    requires var t := pairs[i].element.typeId;
             r' == r[t := NormalizedMultibindingSet(pairs[i].creator.getMultibindingsVector, Before(r, t) + [Normalize(pairs[i].element)])]
    ensures forall u :: u in r' ==> r'[u].elems == Before(ms, u) + ElemsFor(pairs[..i + 1], u)
  {
    forall u | u in r'
      ensures r'[u].elems == Before(ms, u) + ElemsFor(pairs[..i + 1], u)
    {
      MergedElemsAt(ms, pairs, i, r, r', u);
    }
  }

  lemma MergedAlloc(alloc: AllocatorData, pairs: seq<MultibindingPair>, i: nat, a: AllocatorData, a': AllocatorData)
    requires i < |pairs|
    requires forall t :: a.ownStorage[t] == alloc.ownStorage[t] + |Requests(pairs[..i], t, NeedsAllocation)|
    requires forall t :: a.externals[t] == alloc.externals[t] + |Requests(pairs[..i], t, NoAllocation)|
    requires a' == Account(a, pairs[i].element)
    ensures forall t :: a'.ownStorage[t] == alloc.ownStorage[t] + |Requests(pairs[..i + 1], t, NeedsAllocation)|
    ensures forall t :: a'.externals[t] == alloc.externals[t] + |Requests(pairs[..i + 1], t, NoAllocation)|
  {
    forall u
      ensures a'.ownStorage[u] == alloc.ownStorage[u] + |Requests(pairs[..i + 1], u, NeedsAllocation)|
      ensures a'.externals[u] == alloc.externals[u] + |Requests(pairs[..i + 1], u, NoAllocation)|
    {
      MergedAllocAt(alloc, pairs, i, a, a', u);
    }
  }

  lemma MergedAllocAt(alloc: AllocatorData, pairs: seq<MultibindingPair>, i: nat, a: AllocatorData, a': AllocatorData, u: TypeId)
    requires i < |pairs|
    requires a.ownStorage[u] == alloc.ownStorage[u] + |Requests(pairs[..i], u, NeedsAllocation)|
    requires a.externals[u] == alloc.externals[u] + |Requests(pairs[..i], u, NoAllocation)|
    requires a' == Account(a, pairs[i].element)
    ensures a'.ownStorage[u] == alloc.ownStorage[u] + |Requests(pairs[..i + 1], u, NeedsAllocation)|
    ensures a'.externals[u] == alloc.externals[u] + |Requests(pairs[..i + 1], u, NoAllocation)|
  {
    PrefixStep(pairs, i, u);
  }

  lemma MergedElemsAt(ms: MultibindingMap, pairs: seq<MultibindingPair>, i: nat, r: MultibindingMap, r': MultibindingMap, u: TypeId)
    requires i < |pairs|
    requires r.Keys == ms.Keys + ElementTypes(pairs[..i])
    requires forall t :: t in r ==> r[t].elems == Before(ms, t) + ElemsFor(pairs[..i], t)
    requires var t := pairs[i].element.typeId;
             r' == r[t := NormalizedMultibindingSet(pairs[i].creator.getMultibindingsVector, Before(r, t) + [Normalize(pairs[i].element)])]
    requires u in r'
    ensures r'[u].elems == Before(ms, u) + ElemsFor(pairs[..i + 1], u)
  {
    var t := pairs[i].element.typeId;
    PrefixStep(pairs, i, u);
    if u != t {
      assert u in r;
    } else if t !in r {
      assert t !in ElementTypes(pairs[..i]);
      EmptyElemsFor(pairs[..i], t);
    }
  }

  /** A type no pair contributes to receives no elements. */
  lemma {:induction false} EmptyElemsFor(pairs: seq<MultibindingPair>, t: TypeId)
    requires t !in ElementTypes(pairs)
    ensures ElemsFor(pairs, t) == []
    decreases |pairs|
  {
    if |pairs| > 0 {
      var n := |pairs| - 1;
      assert pairs[n].element.typeId in ElementTypes(pairs);
      assert ElementTypes(pairs[..n]) <= ElementTypes(pairs) by {
        forall x | x in ElementTypes(pairs[..n]) ensures x in ElementTypes(pairs) {
          var k :| 0 <= k < n && pairs[..n][k].element.typeId == x;
          assert pairs[k] == pairs[..n][k];
        }
      }
      EmptyElemsFor(pairs[..n], t);
    }
  }

  lemma MergedGetters(ms: MultibindingMap, pairs: seq<MultibindingPair>, i: nat, r: MultibindingMap, r': MultibindingMap)
    requires i < |pairs|
    requires r.Keys == ms.Keys + ElementTypes(pairs[..i])
    requires forall t :: t in r ==> r[t].getMultibindingsVector == FinalGetter(ms, pairs[..i], t)
    requires var t := pairs[i].element.typeId;
             r' == r[t := NormalizedMultibindingSet(pairs[i].creator.getMultibindingsVector, Before(r, t) + [Normalize(pairs[i].element)])]
    ensures r'.Keys == ms.Keys + ElementTypes(pairs[..i + 1])
    ensures forall u :: u in r' ==> r'[u].getMultibindingsVector == FinalGetter(ms, pairs[..i + 1], u)
  {
    var t := pairs[i].element.typeId;
    PrefixStep(pairs, i, t);
    forall u | u in r'
      ensures r'[u].getMultibindingsVector == FinalGetter(ms, pairs[..i + 1], u)
    {
      PrefixStep(pairs, i, u);
      assert pairs[..i + 1][i] == pairs[i];
    }
  }

  /**
    Folds every pair into the multibinding map in order: each type gets its
    elements appended, its vector getter overwritten by the pair's creator,
    and the allocator is told once per element still to be constructed.
   */
  method AddMultibindings(ms: MultibindingMap, alloc: AllocatorData, pairs: seq<MultibindingPair>)
    returns (r: MultibindingMap, a: AllocatorData)
    ensures r.Keys == ms.Keys + ElementTypes(pairs)
    ensures forall t :: t in r ==> r[t].elems == Before(ms, t) + ElemsFor(pairs, t)
    ensures forall t :: t in r ==> r[t].getMultibindingsVector == FinalGetter(ms, pairs, t)
    ensures forall t :: a.ownStorage[t] == alloc.ownStorage[t] + |Requests(pairs, t, NeedsAllocation)|
    ensures forall t :: a.externals[t] == alloc.externals[t] + |Requests(pairs, t, NoAllocation)|
  {
    r, a := ms, alloc;
    var i := 0;
    assert pairs[..0] == [];
    while i < |pairs|
      invariant 0 <= i <= |pairs|
      invariant r.Keys == ms.Keys + ElementTypes(pairs[..i])
      invariant forall t :: t in r ==> r[t].elems == Before(ms, t) + ElemsFor(pairs[..i], t)
      invariant forall t :: t in r ==> r[t].getMultibindingsVector == FinalGetter(ms, pairs[..i], t)
      invariant forall t :: a.ownStorage[t] == alloc.ownStorage[t] + |Requests(pairs[..i], t, NeedsAllocation)|
      invariant forall t :: a.externals[t] == alloc.externals[t] + |Requests(pairs[..i], t, NoAllocation)|
    {
      var r', a' := AddPair(r, a, pairs[i]);
      MergedElems(ms, pairs, i, r, r');
      MergedGetters(ms, pairs, i, r, r');
      MergedAlloc(alloc, pairs, i, a, a');
      r, a := r', a';
      i := i + 1;
    }
    assert pairs[..i] == pairs;
  }
}

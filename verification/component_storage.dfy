/**
  Building the normalized component storage from the binding vectors: the
  bindings are sorted by type, duplicates are collapsed (all bindings of one
  type must be equal), the multibinding records are grouped per type, and the
  storage the injector will need is totalled.

  Binding data and the per-element part of a multibinding record are opaque
  here: they are only copied and compared for equality.
 */
module ComponentStorage {
  import opened Entries
  import opened Sums

  /** A multibinding record: the getter of the singletons vector, plus the element's own data. */
  datatype MultibindingData<E> = MultibindingData(getSingletonsVector: VectorFn, elem: E)

  /** All records of one multibinding type, with the getter taken from the first of them. */
  datatype NormalizedMultibindingData<E> = NormalizedMultibindingData(getSingletonsVector: VectorFn, elems: seq<MultibindingData<E>>)

  datatype Storage<D, E> = Storage(
    typeRegistry: seq<(TypeId, D)>,
    multibindingRegistry: map<TypeId, NormalizedMultibindingData<E>>,
    totalSize: nat)

  /** The fatal error: one type bound more than once, with different bindings. */
  datatype StorageError = MultipleBindings(typeId: TypeId)

  predicate SortedByType<X>(v: seq<(TypeId, X)>)
  {
    forall j, k :: 0 <= j < k < |v| ==> v[j].0 <= v[k].0
  }

  predicate StrictlySortedByType<X>(v: seq<(TypeId, X)>)
  {
    forall j, k :: 0 <= j < k < |v| ==> v[j].0 < v[k].0
  }

  function TypesOf<X>(v: seq<(TypeId, X)>): set<TypeId>
  {
    set k | 0 <= k < |v| :: v[k].0
  }

  /** Type `t` has two different bindings in `v`. */
  predicate Conflict<D(==)>(v: seq<(TypeId, D)>, t: TypeId)
  {
    exists a, b :: a in v && b in v && a.0 == t && b.0 == t && a.1 != b.1
  }

  /** The records of type `t`, in the order of `v`. */
  function RecordsOf<M>(v: seq<(TypeId, M)>, t: TypeId): seq<M>
    decreases |v|
  {
    if |v| == 0 then []
    else
      var n := |v| - 1;
      RecordsOf(v[..n], t) + (if v[n].0 == t then [v[n].1] else [])
  }

  /** The records of type `t` are, counted with multiplicity, the entries of `v` of type `t`. */
  lemma {:induction false} RecordsOfCount<M>(v: seq<(TypeId, M)>, t: TypeId, d: M)
    ensures multiset(RecordsOf(v, t))[d] == multiset(v)[(t, d)]
    decreases |v|
  {
    if |v| > 0 {
      var n := |v| - 1;
      assert v == v[..n] + [v[n]];
      RecordsOfCount(v[..n], t, d);
    }
  }

  /** Positions of the entries of type `t`. */
  function Positions<X>(v: seq<(TypeId, X)>, t: TypeId): set<nat>
  {
    set k: nat | k < |v| && v[k].0 == t
  }

  /** There is one record of type `t` per entry of type `t`. */
  lemma {:induction false} RecordsOfLength<M>(v: seq<(TypeId, M)>, t: TypeId)
    ensures |RecordsOf(v, t)| == |Positions(v, t)|
    decreases |v|
  {
    if |v| > 0 {
      var n := |v| - 1;
      var init := v[..n];
      RecordsOfLength(init, t);
      PositionsSnoc(init, v[n], t);
      assert init + [v[n]] == v;
    }
  }

  lemma PositionsSnoc<X>(v: seq<(TypeId, X)>, e: (TypeId, X), t: TypeId)
    ensures Positions(v + [e], t) == Positions(v, t) + (if e.0 == t then {|v|} else {})
    ensures |v| !in Positions(v, t)
  {
  }

  /** A type that does not occur in `v` has no records there. */
  lemma {:induction false} RecordsOfAbsent<M>(v: seq<(TypeId, M)>, t: TypeId)
    requires forall k :: 0 <= k < |v| ==> v[k].0 != t
    ensures RecordsOf(v, t) == []
    decreases |v|
  {
    if |v| > 0 {
      RecordsOfAbsent(v[..|v| - 1], t);
    }
  }

  lemma RecordsOfSnoc<M>(v: seq<(TypeId, M)>, i: nat, t: TypeId)
    requires i < |v|
    ensures RecordsOf(v[..i + 1], t) == RecordsOf(v[..i], t) + (if v[i].0 == t then [v[i].1] else [])
  {
    assert v[..i + 1][..i] == v[..i];
  }

  /** Storage for one multibinding type: its maximum size times the number of its elements. */
  function Weight<E>(mm: map<TypeId, NormalizedMultibindingData<E>>, space: TypeId -> nat): TypeId -> nat
  {
    t => if t in mm then space(t) * |mm[t].elems| else 0
  }

  /**
    Collapse runs of equal types in a vector sorted by type, keeping the first
    binding of each run; a run holding two different bindings is fatal.
   */
  method Deduplicate<D(==)>(sorted: seq<(TypeId, D)>) returns (r: Result<seq<(TypeId, D)>, StorageError>)
    requires SortedByType(sorted)
    ensures r.Ok? <==> forall t :: !Conflict(sorted, t)
    ensures r.Err? ==> Conflict(sorted, r.error.typeId) && forall u :: u < r.error.typeId ==> !Conflict(sorted, u)
    ensures r.Ok? ==> StrictlySortedByType(r.value) && forall e :: e in r.value <==> e in sorted
  {
    var out: seq<(TypeId, D)> := [];
    var i := 0;
    while i < |sorted|
      invariant 0 <= i <= |sorted|
      invariant 0 < i < |sorted| ==> sorted[i - 1].0 < sorted[i].0
      invariant StrictlySortedByType(out)
      invariant i > 0 ==> |out| > 0 && out[|out| - 1].0 == sorted[i - 1].0
      invariant i == 0 ==> out == []
      invariant forall e :: e in out <==> e in sorted[..i]
      invariant forall j, k :: 0 <= j < i && 0 <= k < i && sorted[j].0 == sorted[k].0 ==> sorted[j].1 == sorted[k].1
    {
      var start := i;
      var t, x := sorted[i].0, sorted[i].1;
      var before := out;
      out := out + [sorted[i]];
      i := i + 1;
      while i < |sorted| && sorted[i].0 == t
        invariant start < i <= |sorted|
        invariant forall k :: start <= k < i ==> sorted[k] == (t, x)
      {
        if sorted[i].1 != x {
          r := Err(MultipleBindings(t));
          FirstConflict(sorted, start, i);
          return;
        }
        i := i + 1;
      }
      GroupDone(sorted, start, i, before);
    }
    assert sorted[..i] == sorted;
    r := Ok(out);
  }

  /** Conflicts before the run at `start` were ruled out, and `sorted[k]` clashes with the run's first binding. */
  lemma FirstConflict<D>(sorted: seq<(TypeId, D)>, start: nat, k: nat)
    requires SortedByType(sorted) && start < k < |sorted|
    requires 0 < start ==> sorted[start - 1].0 < sorted[start].0
    requires forall j, j' :: 0 <= j < start && 0 <= j' < start && sorted[j].0 == sorted[j'].0 ==> sorted[j].1 == sorted[j'].1
    requires sorted[k].0 == sorted[start].0 && sorted[k].1 != sorted[start].1
    ensures Conflict(sorted, sorted[start].0)
    ensures forall u :: u < sorted[start].0 ==> !Conflict(sorted, u)
  {
  }

  /** After a run without clashes, the dedup invariant holds at the next run. */
  lemma GroupDone<D>(sorted: seq<(TypeId, D)>, start: nat, i: nat, before: seq<(TypeId, D)>)
    requires SortedByType(sorted) && start < i <= |sorted|
    requires 0 < start ==> sorted[start - 1].0 < sorted[start].0
    requires forall k :: start <= k < i ==> sorted[k] == sorted[start]
    requires i < |sorted| ==> sorted[i].0 != sorted[start].0
    requires forall j, k :: 0 <= j < start && 0 <= k < start && sorted[j].0 == sorted[k].0 ==> sorted[j].1 == sorted[k].1
    requires forall e :: e in before <==> e in sorted[..start]
    ensures i < |sorted| ==> sorted[i - 1].0 < sorted[i].0
    ensures forall e :: e in before + [sorted[start]] <==> e in sorted[..i]
    ensures forall j, k :: 0 <= j < i && 0 <= k < i && sorted[j].0 == sorted[k].0 ==> sorted[j].1 == sorted[k].1
  {
  }

  /** Every type keeps one binding, equal to all its original ones, in strictly increasing type order. */
  lemma DeduplicatedMeaning<D>(input: seq<(TypeId, D)>, out: seq<(TypeId, D)>)
    requires forall t :: !Conflict(input, t)
    requires StrictlySortedByType(out) && forall e :: e in out <==> e in input
    ensures TypesOf(out) == TypesOf(input)
    ensures forall k, e :: 0 <= k < |out| && e in input && e.0 == out[k].0 ==> e == out[k]
  {
    forall t | t in TypesOf(input)
      ensures t in TypesOf(out)
    {
      var k :| 0 <= k < |input| && input[k].0 == t;
      assert input[k] in out;
    }
    forall t | t in TypesOf(out)
      ensures t in TypesOf(input)
    {
      var k :| 0 <= k < |out| && out[k].0 == t;
      assert out[k] in input;
    }
    forall k, e | 0 <= k < |out| && e in input && e.0 == out[k].0
      ensures e == out[k]
    {
      assert out[k] in input;
      assert !Conflict(input, e.0);
    }
  }

  /** The storage of the deduplicated bindings: each type's maximum size once. */
  method BindingsSize<D>(out: seq<(TypeId, D)>, space: TypeId -> nat) returns (total: nat)
    requires StrictlySortedByType(out)
    ensures total == SetSum(TypesOf(out), space)
  {
    total := 0;
    var i := 0;
    while i < |out|
      invariant 0 <= i <= |out|
      invariant total == SetSum(TypesOf(out[..i]), space)
    {
      assert out[i].0 !in TypesOf(out[..i]);
      SetSumAdd(TypesOf(out[..i]), space, out[i].0);
      total := total + space(out[i].0);
      assert TypesOf(out[..i + 1]) == TypesOf(out[..i]) + {out[i].0} by {
        assert forall k :: 0 <= k < i ==> out[..i + 1][k] == out[..i][k];
        assert out[..i + 1][i] == out[i];
      }
      i := i + 1;
    }
    assert out[..i] == out;
  }

  /** `k` is the position of the first record of type `t`. */
  predicate FirstOfType<X>(v: seq<(TypeId, X)>, t: TypeId, k: int)
  {
    0 <= k < |v| && v[k].0 == t && forall j :: 0 <= j < k ==> v[j].0 != t
  }

  /** What the grouping loop knows after the first `i` records. */
  ghost predicate Grouped<E>(sorted: seq<(TypeId, MultibindingData<E>)>, i: nat, mm: map<TypeId, NormalizedMultibindingData<E>>)
    requires i <= |sorted|
  {
    && mm.Keys == TypesOf(sorted[..i])
    && (forall t :: t in mm ==> mm[t].elems == RecordsOf(sorted[..i], t))
    && (forall t :: t in mm ==> exists k :: FirstOfType(sorted, t, k) && mm[t].getSingletonsVector == sorted[k].1.getSingletonsVector)
  }

  /**
    Group a vector of multibinding records sorted by type into one entry per
    type: the getter of the run's first record and all the run's records.
   */
  method GroupMultibindings<E>(sorted: seq<(TypeId, MultibindingData<E>)>) returns (mm: map<TypeId, NormalizedMultibindingData<E>>)
    requires SortedByType(sorted)
    ensures mm.Keys == TypesOf(sorted)
    ensures forall t :: t in mm ==> mm[t].elems == RecordsOf(sorted, t)
    ensures forall t :: t in mm ==> exists k :: FirstOfType(sorted, t, k) && mm[t].getSingletonsVector == sorted[k].1.getSingletonsVector
  {
    mm := map[];
    var i := 0;
    assert sorted[..0] == [];
    while i < |sorted|
      invariant 0 <= i <= |sorted|
      invariant 0 < i < |sorted| ==> sorted[i - 1].0 < sorted[i].0
      invariant Grouped(sorted, i, mm)
    {
      var start := i;
      var t := sorted[i].0;
      var b := NormalizedMultibindingData(sorted[i].1.getSingletonsVector, []);
      NewRun(sorted, start);
      while i < |sorted| && sorted[i].0 == t
        invariant start <= i <= |sorted|
        invariant forall k :: start <= k < i ==> sorted[k].0 == t
        invariant b.getSingletonsVector == sorted[start].1.getSingletonsVector
        invariant b.elems == RecordsOf(sorted[..i], t)
      {
        RecordsOfSnoc(sorted, i, t);
        b := b.(elems := b.elems + [sorted[i].1]);
        i := i + 1;
      }
      RunDone(sorted, start, i, mm, b);
      mm := mm[t := b];
    }
    assert sorted[..i] == sorted;
  }

  /** The run starting at `start` is of a type not seen before it. */
  lemma NewRun<E>(sorted: seq<(TypeId, MultibindingData<E>)>, start: nat)
    requires SortedByType(sorted) && start < |sorted|
    requires 0 < start ==> sorted[start - 1].0 < sorted[start].0
    ensures sorted[start].0 !in TypesOf(sorted[..start])
    ensures RecordsOf(sorted[..start], sorted[start].0) == []
    ensures FirstOfType(sorted, sorted[start].0, start)
  {
    RecordsOfAbsent(sorted[..start], sorted[start].0);
  }

  /** Records of another type than the run's are not affected by the run. */
  lemma {:induction false} RunKeepsOthers<M>(sorted: seq<(TypeId, M)>, start: nat, i: nat, u: TypeId)
    requires start <= i <= |sorted|
    requires forall k :: start <= k < i ==> sorted[k].0 != u
    ensures RecordsOf(sorted[..i], u) == RecordsOf(sorted[..start], u)
    decreases i - start
  {
    if i > start {
      RecordsOfSnoc(sorted, i - 1, u);
      RunKeepsOthers(sorted, start, i - 1, u);
    }
  }

  /** A whole run of type `t` adds `t` to the map, with all the run's records. */
  lemma RunDone<E>(sorted: seq<(TypeId, MultibindingData<E>)>, start: nat, i: nat,
                   mm: map<TypeId, NormalizedMultibindingData<E>>, b: NormalizedMultibindingData<E>)
    requires SortedByType(sorted) && start < i <= |sorted|
    requires 0 < start ==> sorted[start - 1].0 < sorted[start].0
    requires forall k :: start <= k < i ==> sorted[k].0 == sorted[start].0
    requires i < |sorted| ==> sorted[i].0 != sorted[start].0
    requires Grouped(sorted, start, mm)
    requires b.getSingletonsVector == sorted[start].1.getSingletonsVector
    requires b.elems == RecordsOf(sorted[..i], sorted[start].0)
    ensures i < |sorted| ==> sorted[i - 1].0 < sorted[i].0
    ensures Grouped(sorted, i, mm[sorted[start].0 := b])
  {
    var t := sorted[start].0;
    var mm' := mm[t := b];
    NewRun(sorted, start);
    RunTypes(sorted, start, i);
    forall u | u in mm' && u != t
      ensures mm'[u].elems == RecordsOf(sorted[..i], u)
    {
      RunKeepsOthers(sorted, start, i, u);
    }
    forall u | u in mm'
      ensures exists k :: FirstOfType(sorted, u, k) && mm'[u].getSingletonsVector == sorted[k].1.getSingletonsVector
    {
      if u == t {
        assert FirstOfType(sorted, u, start) && mm'[u].getSingletonsVector == sorted[start].1.getSingletonsVector;
      } else {
        assert u in mm;
      }
    }
  }

  /** The types up to the end of a run: those before it, and the run's type. */
  lemma RunTypes<X>(sorted: seq<(TypeId, X)>, start: nat, i: nat)
    requires start < i <= |sorted|
    requires forall k :: start <= k < i ==> sorted[k].0 == sorted[start].0
    ensures TypesOf(sorted[..i]) == TypesOf(sorted[..start]) + {sorted[start].0}
  {
  }

  /** The storage of the grouped multibindings: each type's maximum size once per element. */
  method MultibindingsSize<E>(mm: map<TypeId, NormalizedMultibindingData<E>>, space: TypeId -> nat) returns (total: nat)
    ensures total == SetSum(mm.Keys, Weight(mm, space))
  {
    total := 0;
    var todo := mm.Keys;
    while todo != {}
      invariant todo <= mm.Keys
      invariant total == SetSum(mm.Keys - todo, Weight(mm, space))
      decreases todo
    {
      var t := Pick(todo);
      SetSumAdd(mm.Keys - todo, Weight(mm, space), t);
      assert mm.Keys - todo + {t} == mm.Keys - (todo - {t});
      total := total + space(t) * |mm[t].elems|;
      todo := todo - {t};
    }
    assert mm.Keys - todo == mm.Keys;
  }

  /** The deduplicated registry: one binding per bound type, in increasing type order, each equal to the input's. */
  predicate RegistryOf<D(==)>(bindings: seq<(TypeId, D)>, registry: seq<(TypeId, D)>)
  {
    && StrictlySortedByType(registry)
    && TypesOf(registry) == TypesOf(bindings)
    && (forall e :: e in registry ==> e in bindings)
    && (forall e :: e in bindings ==> e in registry)
  }

  /**
    The grouped multibindings: one entry per type with records, holding all
    of that type's records (with multiplicity) and the getter of one of them.
   */
  ghost predicate MultibindingRegistryOf<E(!new)>(multibindings: seq<(TypeId, MultibindingData<E>)>, mm: map<TypeId, NormalizedMultibindingData<E>>)
  {
    && mm.Keys == TypesOf(multibindings)
    && (forall t, d :: t in mm ==> multiset(mm[t].elems)[d] == multiset(multibindings)[(t, d)])
    && (forall t :: t in mm ==> |mm[t].elems| == |Positions(multibindings, t)|)
    && (forall t :: t in mm ==> exists d :: (t, d) in multibindings && d.getSingletonsVector == mm[t].getSingletonsVector)
  }

  /** Grouping the sorted multibinding records gives each type exactly its records from the unsorted input. */
  method BuildMultibindingRegistry<E(!new)>(multibindings: seq<(TypeId, MultibindingData<E>)>, sorted: seq<(TypeId, MultibindingData<E>)>)
    returns (mm: map<TypeId, NormalizedMultibindingData<E>>)
    requires multiset(sorted) == multiset(multibindings) && SortedByType(sorted)
    ensures MultibindingRegistryOf(multibindings, mm)
  {
    mm := GroupMultibindings(sorted);
    SameTypes(multibindings, sorted);
    forall t, d | t in mm
      ensures multiset(mm[t].elems)[d] == multiset(multibindings)[(t, d)]
    {
      RecordsOfCount(sorted, t, d);
    }
    forall t | t in mm
      ensures |mm[t].elems| == |Positions(multibindings, t)|
    {
      SameRecords(multibindings, sorted, t);
      RecordsOfLength(multibindings, t);
    }
    forall t | t in mm
      ensures exists d :: (t, d) in multibindings && d.getSingletonsVector == mm[t].getSingletonsVector
    {
      var k :| FirstOfType(sorted, t, k) && mm[t].getSingletonsVector == sorted[k].1.getSingletonsVector;
      assert sorted[k] in multiset(multibindings);
    }
  }

  /**
    The storage constructor. `sortedBindings` and `sortedMultibindings` are
    the inputs after sorting by type (the sort itself is a library call, so
    only its result is described). Fails exactly when some type has two
    different bindings, naming the least such type; otherwise every type
    keeps one binding, the multibinding records are grouped per type, and
    the total size covers each bound type once and each multibinding
    element once.
   */
  method NewStorage<D(==), E(!new)>(
    bindings: seq<(TypeId, D)>, sortedBindings: seq<(TypeId, D)>,
    multibindings: seq<(TypeId, MultibindingData<E>)>, sortedMultibindings: seq<(TypeId, MultibindingData<E>)>,
    space: TypeId -> nat)
    returns (r: Result<Storage<D, E>, StorageError>)
    requires multiset(sortedBindings) == multiset(bindings) && SortedByType(sortedBindings)
    requires multiset(sortedMultibindings) == multiset(multibindings) && SortedByType(sortedMultibindings)
    ensures r.Ok? <==> forall t :: !Conflict(bindings, t)
    ensures r.Err? ==> Conflict(bindings, r.error.typeId) && forall u :: u < r.error.typeId ==> !Conflict(bindings, u)
    ensures r.Ok? ==> RegistryOf(bindings, r.value.typeRegistry)
    ensures r.Ok? ==> MultibindingRegistryOf(multibindings, r.value.multibindingRegistry)
    ensures r.Ok? ==>
              r.value.totalSize == SetSum(TypesOf(bindings), space) + SetSum(r.value.multibindingRegistry.Keys, Weight(r.value.multibindingRegistry, space))
  {
    SamePairs(bindings, sortedBindings);
    var dedup := Deduplicate(sortedBindings);
    if dedup.Err? {
      return Err(dedup.error);
    }
    var registry := dedup.value;
    DeduplicatedMeaning(sortedBindings, registry);
    SameTypes(bindings, sortedBindings);
    var total := BindingsSize(registry, space);
    var mm := BuildMultibindingRegistry(multibindings, sortedMultibindings);
    var multiTotal := MultibindingsSize(mm, space);
    r := Ok(Storage(registry, mm, total + multiTotal));
  }

  /** Reordering a vector does not change how many records a type has. */
  lemma SameRecords<M>(a: seq<(TypeId, M)>, b: seq<(TypeId, M)>, t: TypeId)
    requires multiset(a) == multiset(b)
    ensures |RecordsOf(a, t)| == |RecordsOf(b, t)|
  {
    var x, y := RecordsOf(a, t), RecordsOf(b, t);
    forall d
      ensures multiset(x)[d] == multiset(y)[d]
    {
      RecordsOfCount(a, t, d);
      RecordsOfCount(b, t, d);
    }
    SameCountsSameLength(x, y);
  }

  lemma SameCountsSameLength<T>(x: seq<T>, y: seq<T>)
    requires forall d :: multiset(x)[d] == multiset(y)[d]
    ensures |x| == |y|
  {
    assert multiset(x) == multiset(y);
    assert |multiset(x)| == |x|;
  }

  /** A permutation has the same members and the same conflicts. */
  lemma SamePairs<X>(a: seq<(TypeId, X)>, b: seq<(TypeId, X)>)
    requires multiset(a) == multiset(b)
    ensures forall e :: e in a <==> e in b
    ensures forall t :: Conflict(a, t) <==> Conflict(b, t)
  {
    forall e
      ensures e in a <==> e in b
    {
      assert e in a <==> e in multiset(a);
      assert e in b <==> e in multiset(b);
    }
  }

  lemma SameTypes<X>(a: seq<(TypeId, X)>, b: seq<(TypeId, X)>)
    requires multiset(a) == multiset(b)
    ensures TypesOf(a) == TypesOf(b)
  {
    SamePairs(a, b);
    forall t | t in TypesOf(a) ensures t in TypesOf(b) {
      var k :| 0 <= k < |a| && a[k].0 == t;
      assert a[k] in b;
    }
    forall t | t in TypesOf(b) ensures t in TypesOf(a) {
      var k :| 0 <= k < |b| && b[k].0 == t;
      assert b[k] in a;
    }
  }
}

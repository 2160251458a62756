/**
  The two entry points of binding normalization: expand the installation
  graph, then either compress the binding map or copy it out as it is.
 */
module Normalization {
  import opened Entries
  import opened Expander
  import opened Installation
  import opened Compressor

  /** What a successful normalization hands to the injector. */
  datatype Normalized = Normalized(
    bindings: seq<Binding>,
    multibindings: seq<MultibindingPair>,
    undo: map<TypeId, UndoInfo>,
    allocator: AllocatorData)

  predicate DistinctTypes(v: seq<Binding>)
  {
    forall j, k :: 0 <= j < k < |v| ==> v[j].typeId != v[k].typeId
  }

  /** A binding vector with one binding per type, read back as a map keyed by type. */
  function ByType(v: seq<Binding>): (m: map<TypeId, Binding>)
    requires DistinctTypes(v)
    ensures KeyedByType(m)
    ensures forall t :: t in m <==> exists b :: b in v && b.typeId == t
    ensures forall b :: b in v ==> m[b.typeId] == b
  {
    assert forall b, b' :: b in v && b' in v && b.typeId == b'.typeId ==> b == b' by {
      forall b, b' | b in v && b' in v && b.typeId == b'.typeId
        ensures b == b'
      {
        var j :| 0 <= j < |v| && v[j] == b;
        var k :| 0 <= k < |v| && v[k] == b';
        assert j == k || j < k || k < j;
      }
    }
    map b | b in v :: b.typeId := b
  }

  /** A vector holding exactly the values of a map keyed by type, one per type, reads back as that map. */
  lemma ByTypeOfValues(v: seq<Binding>, r: map<TypeId, Binding>)
    requires KeyedByType(r) && DistinctTypes(v)
    requires forall b :: b in v <==> b in r.Values
    ensures ByType(v) == r
  {
    var m := ByType(v);
    forall t | t in r
      ensures t in m && m[t] == r[t]
    {
      assert r[t] in r.Values;
    }
    forall t | t in m
      ensures t in r
    {
      var b :| b in v && b.typeId == t;
      var k := KeyOf(r, b);
    }
    SameEntries(m, r);
  }

  /**
    Whether the compression stage may run on what a successful expansion
    produced: the surviving hints pair each implementation with its own
    interface, and both are bindings still to be constructed.
   */
  predicate CompressionApplies(table: Table, toplevelEntries: seq<Entry>, allocator: AllocatorData, toplevel: TypeId, exposed: seq<TypeId>)
    requires ValidTable(table) && ValidEntries(table, toplevelEntries)
  {
    var h := NormalizeBindingsHelper(table, toplevelEntries, allocator, toplevel);
    h.Ok? ==> Ready(h.value.bindings, Survivors(h.value.bindings, h.value.compressions, h.value.multibindings, exposed))
  }

  /**
    Normalization with binding compression. It fails exactly when the
    expansion fails, with the same error; otherwise the multibinding pairs
    and the allocator counts are the expansion's, the vector holds exactly
    the expanded bindings with every surviving hint applied, the undo
    records are one per applied hint, and the two together give back the
    expanded binding map.
   */
  method NormalizeBindings(table: Table, toplevelEntries: seq<Entry>, allocator: AllocatorData, toplevel: TypeId, exposed: seq<TypeId>)
    returns (r: Result<Normalized, NormalizationError>)
    requires ValidTable(table) && ValidEntries(table, toplevelEntries)
    requires CompressionApplies(table, toplevelEntries, allocator, toplevel, exposed)
    ensures var h := NormalizeBindingsHelper(table, toplevelEntries, allocator, toplevel);
            && (r.Err? <==> h.Err?)
            && (h.Err? ==> r.error == h.error)
            && (h.Ok? ==>
                  var s := Survivors(h.value.bindings, h.value.compressions, h.value.multibindings, exposed);
                  && r.value.multibindings == h.value.multibindings
                  && r.value.allocator == h.value.allocator
                  && DistinctTypes(r.value.bindings)
                  && ByType(r.value.bindings) == CompressedBindings(h.value.bindings, s, s.Keys)
                  && r.value.undo == UndoTable(h.value.bindings, s, s.Keys)
                  && UndoReady(ByType(r.value.bindings), r.value.undo)
                  && Uncompress(ByType(r.value.bindings), r.value.undo) == h.value.bindings)
  {
    var h := NormalizeBindingsHelper(table, toplevelEntries, allocator, toplevel);
    match h {
      case Err(e) =>
        r := Err(e);
      case Ok(e) =>
        var m, hints := e.bindings, e.compressions;
        var s := Survivors(m, hints, e.multibindings, exposed);
        var v, undo := PerformBindingCompression(m, hints, e.multibindings, exposed);
        CompressedBindingsMeaning(m, s);
        ByTypeOfValues(v, CompressedBindings(m, s, s.Keys));
        CompressionRoundTrip(m, s, s.Keys);
        r := Ok(Normalized(v, e.multibindings, undo, e.allocator));
    }
  }

  /**
    Normalization without binding compression: the same outcome as the
    expansion, with the binding map copied into a vector unchanged and no
    undo records.
   */
  method NormalizeBindingsWithoutBindingCompression(table: Table, toplevelEntries: seq<Entry>, allocator: AllocatorData, toplevel: TypeId)
    returns (r: Result<Normalized, NormalizationError>)
    requires ValidTable(table) && ValidEntries(table, toplevelEntries)
    ensures var h := NormalizeBindingsHelper(table, toplevelEntries, allocator, toplevel);
            && (r.Err? <==> h.Err?)
            && (h.Err? ==> r.error == h.error)
            && (h.Ok? ==>
                  && r.value.multibindings == h.value.multibindings
                  && r.value.allocator == h.value.allocator
                  && r.value.undo == map[]
                  && DistinctTypes(r.value.bindings)
                  && ByType(r.value.bindings) == h.value.bindings)
  {
    var h := NormalizeBindingsHelper(table, toplevelEntries, allocator, toplevel);
    match h {
      case Err(e) =>
        r := Err(e);
      case Ok(e) =>
        var v := BindingsVector(e.bindings);
        ByTypeOfValues(v, e.bindings);
        r := Ok(Normalized(v, e.multibindings, map[], e.allocator));
    }
  }
}

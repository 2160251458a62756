/**
  Binding compression: a binding `I -> C` whose `C` is needed by nobody but
  `I` can be collapsed into a single binding that builds `C` straight into
  the slot of `I`. Three passes strike out the hints that cannot be applied;
  each survivor is then rewritten, recording what it destroyed so that it can
  be undone.

  The hint map is keyed by C; each hint names its I and the `create` function
  that builds I by constructing C.
 */
module Compressor {
  import opened Entries

  type Hints = map<TypeId, CompressionInfo>

  /** `hints` with the keys in `drop` struck out. */
  function Without(hints: Hints, drop: set<TypeId>): (r: Hints)
    ensures forall c :: c in r <==> c in hints && c !in drop
    ensures forall c :: c in r ==> r[c] == hints[c]
  {
    map c | c in hints && c !in drop :: hints[c]
  }

  /** The dependencies of one binding or multibinding element that still has to be constructed. */
  function DepsOf(b: Binding): set<TypeId>
  {
    if b.recipe.ToConstruct? then set d | d in b.recipe.deps else {}
  }

  /** Everything some multibinding element still to be constructed depends on. */
  function MultibindingDeps(pairs: seq<MultibindingPair>): set<TypeId>
    decreases |pairs|
  {
    if |pairs| == 0 then {}
    else MultibindingDeps(pairs[..|pairs| - 1]) + DepsOf(pairs[|pairs| - 1].element)
  }

  /**
    The candidates some bound type depends on although it is not the
    candidate's own I.
   */
  function Conflicts(bindings: map<TypeId, Binding>, hints: Hints, xs: set<TypeId>): set<TypeId>
  {
    set x, c | x in xs && x in bindings && c in DepsOf(bindings[x]) && c in hints && hints[c].iTypeId != x :: c
  }

  /** The hints left after the three disqualification passes, as one definition. */
  function Survivors(bindings: map<TypeId, Binding>, hints: Hints, pairs: seq<MultibindingPair>, exposed: seq<TypeId>): Hints
  {
    var afterMultibindings := Without(hints, MultibindingDeps(pairs));
    var afterExposed := Without(afterMultibindings, set t | t in exposed);
    Without(afterExposed, Conflicts(bindings, afterExposed, bindings.Keys))
  }

  lemma {:induction false} MultibindingDepsIff(pairs: seq<MultibindingPair>, c: TypeId)
    ensures c in MultibindingDeps(pairs) <==> exists k :: 0 <= k < |pairs| && c in DepsOf(pairs[k].element)
    decreases |pairs|
  {
    if |pairs| > 0 {
      var init := pairs[..|pairs| - 1];
      MultibindingDepsIff(init, c);
      if c in MultibindingDeps(init) {
        var k :| 0 <= k < |init| && c in DepsOf(init[k].element);
        assert pairs[k] == init[k];
      }
      if exists k :: 0 <= k < |pairs| && c in DepsOf(pairs[k].element) {
        var k :| 0 <= k < |pairs| && c in DepsOf(pairs[k].element);
        if k < |init| {
          assert pairs[k] == init[k];
        }
      }
    }
  }

  /**
    A candidate C survives exactly when it is no dependency of a multibinding
    element still to be constructed, it is not exposed, and every bound type
    that still has to be constructed and depends on C is C's own I. Its hint
    is kept unchanged.
   */
  lemma SurvivorsIff(bindings: map<TypeId, Binding>, hints: Hints, pairs: seq<MultibindingPair>, exposed: seq<TypeId>, c: TypeId)
    ensures var s := Survivors(bindings, hints, pairs, exposed);
            c in s <==>
              && c in hints
              && (forall k :: 0 <= k < |pairs| ==> c !in DepsOf(pairs[k].element))
              && c !in exposed
              && (forall x :: x in bindings && c in DepsOf(bindings[x]) ==> hints[c].iTypeId == x)
    ensures var s := Survivors(bindings, hints, pairs, exposed);
            c in s ==> s[c] == hints[c]
  {
    MultibindingDepsIff(pairs, c);
  }

  /** The deps of `deps[..j]` that are candidates of some other I than `x`. */
  function ForeignDeps(hints: Hints, x: TypeId, deps: seq<TypeId>): set<TypeId>
  {
    set c | c in deps && c in hints && hints[c].iTypeId != x
  }

  /** First pass: no candidate may be a dependency of a multibinding element still to be constructed. */
  method DropMultibindingDeps(hints: Hints, pairs: seq<MultibindingPair>) returns (h: Hints)
    ensures h == Without(hints, MultibindingDeps(pairs))
  {
    h := hints;
    var i := 0;
    while i < |pairs|
      invariant 0 <= i <= |pairs|
      invariant h == Without(hints, MultibindingDeps(pairs[..i]))
    {
      assert pairs[..i + 1][..i] == pairs[..i];
      var element := pairs[i].element;
      if element.recipe.ToConstruct? {
        var deps := element.recipe.deps;
        var j := 0;
        while j < |deps|
          invariant 0 <= j <= |deps|
          invariant h == Without(hints, MultibindingDeps(pairs[..i]) + set d | d in deps[..j])
        {
          assert deps[..j + 1] == deps[..j] + [deps[j]];
          h := h - {deps[j]};
          j := j + 1;
        }
        assert deps[..j] == deps;
      }
      i := i + 1;
    }
    assert pairs[..i] == pairs;
  }

  /** Second pass: an exposed type is never compressed away. */
  method DropExposed(hints: Hints, exposed: seq<TypeId>) returns (h: Hints)
    ensures h == Without(hints, set t | t in exposed)
  {
    h := hints;
    var i := 0;
    while i < |exposed|
      invariant 0 <= i <= |exposed|
      invariant h == Without(hints, set t | t in exposed[..i])
    {
      assert exposed[..i + 1] == exposed[..i] + [exposed[i]];
      h := h - {exposed[i]};
      i := i + 1;
    }
    assert exposed[..i] == exposed;
  }

  /**
    Third pass: a candidate some other bound type depends on is struck out.
    The bound types are visited in an arbitrary order, and the outcome is the
    same for every order.
   */
  method DropConflicts(bindings: map<TypeId, Binding>, hints: Hints) returns (h: Hints)
    ensures h == Without(hints, Conflicts(bindings, hints, bindings.Keys))
  {
    h := hints;
    var todo := bindings.Keys;
    while todo != {}
      invariant todo <= bindings.Keys
      invariant h == Without(hints, Conflicts(bindings, hints, bindings.Keys - todo))
      decreases todo
    {
      h, todo := VisitBinding(bindings, hints, h, todo);
    }
  }

  /** One iteration of the third pass: visit some bound type not visited yet. */
  method VisitBinding(bindings: map<TypeId, Binding>, hints: Hints, h0: Hints, todo0: set<TypeId>)
    returns (h: Hints, todo: set<TypeId>)
    requires todo0 != {} && todo0 <= bindings.Keys
    requires h0 == Without(hints, Conflicts(bindings, hints, bindings.Keys - todo0))
    ensures todo < todo0
    ensures h == Without(hints, Conflicts(bindings, hints, bindings.Keys - todo))
  {
    var x := Pick(todo0);
    ghost var done := bindings.Keys - todo0;
    var entry := bindings[x];
    h := h0;
    if entry.recipe.ToConstruct? {
      h := DropForeignDeps(hints, Conflicts(bindings, hints, done), h, x, entry.recipe.deps);
    }
    ConflictsAdd(bindings, hints, done, x);
    todo := todo0 - {x};
    assert bindings.Keys - todo == done + {x};
  }

  /** The inner loop of the third pass: the deps of `x` that are candidates for another I than `x` go. */
  method DropForeignDeps(hints: Hints, ghost drop: set<TypeId>, h0: Hints, x: TypeId, deps: seq<TypeId>) returns (h: Hints)
    requires h0 == Without(hints, drop)
    ensures h == Without(hints, drop + ForeignDeps(hints, x, deps))
  {
    h := h0;
    var j := 0;
    assert drop + ForeignDeps(hints, x, deps[..0]) == drop;
    while j < |deps|
      invariant 0 <= j <= |deps|
      invariant h == Without(hints, drop + ForeignDeps(hints, x, deps[..j]))
    {
      var c := deps[j];
      StrikeForeign(hints, drop, x, deps, j, h);
      if c in h && h[c].iTypeId != x {
        h := h - {c};
      }
      j := j + 1;
    }
    assert deps[..j] == deps;
  }

  /** One step of the inner loop of the third pass. */
  lemma StrikeForeign(hints: Hints, drop: set<TypeId>, x: TypeId, deps: seq<TypeId>, j: nat, h: Hints)
    requires j < |deps| && h == Without(hints, drop + ForeignDeps(hints, x, deps[..j]))
    ensures var c := deps[j];
            (if c in h && h[c].iTypeId != x then h - {c} else h) == Without(hints, drop + ForeignDeps(hints, x, deps[..j + 1]))
  {
  }

  lemma ConflictsAdd(bindings: map<TypeId, Binding>, hints: Hints, done: set<TypeId>, x: TypeId)
    requires x in bindings
    ensures Conflicts(bindings, hints, done + {x}) == Conflicts(bindings, hints, done) +
              (if bindings[x].recipe.ToConstruct? then ForeignDeps(hints, x, bindings[x].recipe.deps) else {})
  {
    var extra := if bindings[x].recipe.ToConstruct? then ForeignDeps(hints, x, bindings[x].recipe.deps) else {};
    forall c | c in Conflicts(bindings, hints, done + {x})
      ensures c in Conflicts(bindings, hints, done) + extra
    {
      var y :| y in done + {x} && y in bindings && c in DepsOf(bindings[y]) && c in hints && hints[c].iTypeId != y;
      if y != x {
        assert c in Conflicts(bindings, hints, done);
      }
    }
    forall c | c in extra
      ensures c in Conflicts(bindings, hints, done + {x})
    {
      assert x in done + {x} && c in DepsOf(bindings[x]);
    }
  }

  /** The three passes in the order the source runs them. */
  method SelectSurvivors(bindings: map<TypeId, Binding>, hints: Hints, pairs: seq<MultibindingPair>, exposed: seq<TypeId>)
    returns (s: Hints)
    ensures s == Survivors(bindings, hints, pairs, exposed)
  {
    var h1 := DropMultibindingDeps(hints, pairs);
    var h2 := DropExposed(h1, exposed);
    s := DropConflicts(bindings, h2);
  }

  /** What the compression of a binding still to be constructed keeps of it. */
  function Data(b: Binding): ConstructionData
    requires b.recipe.ToConstruct?
  {
    ConstructionData(b.recipe.create, b.recipe.deps)
  }

  /** The interfaces the hints in `s` would compress into. */
  function Interfaces(s: Hints): set<TypeId>
  {
    set c | c in s :: s[c].iTypeId
  }

  /**
    What the rewrite loop needs of every surviving hint: both ends are bound,
    C still has to be constructed, I is a binding to be constructed that
    allocates nothing of its own (it only forwards to C), no C is also some
    survivor's I, and no two survivors share an I.
   */
  predicate Ready(m: map<TypeId, Binding>, s: Hints)
  {
    && KeyedByType(m)
    && (forall c :: c in s ==>
          && c in m && m[c].recipe.ToConstruct?
          && s[c].iTypeId in m && m[s[c].iTypeId].recipe.ToConstruct? && m[s[c].iTypeId].recipe.alloc == NoAllocation)
    && (forall c, c' :: c in s && c' in s ==> s[c].iTypeId != c')
    && (forall c, c' :: c in s && c' in s && c != c' ==> s[c].iTypeId != s[c'].iTypeId)
  }

  /** For each interface, the C compressed into it. */
  function CompressorOf(s: Hints): (inv: map<TypeId, TypeId>)
    requires forall c, c' :: c in s && c' in s && c != c' ==> s[c].iTypeId != s[c'].iTypeId
    ensures inv.Keys == Interfaces(s)
    ensures forall i :: i in inv ==> inv[i] in s && s[inv[i]].iTypeId == i
  {
    map c | c in s :: s[c].iTypeId := c
  }

  /** The binding of I once C has been folded into it: C's allocation and deps, the compressed `create`. */
  function Rewritten(m: map<TypeId, Binding>, s: Hints, c: TypeId): Binding
    requires c in s && c in m && m[c].recipe.ToConstruct?
  {
    Binding(s[c].iTypeId, ToConstruct(m[c].recipe.alloc, s[c].createWithCompression, m[c].recipe.deps))
  }

  /**
    The binding map once the hints of `s` whose C is in `done` have been
    applied: each such C is erased and its I rewritten; every other entry is
    left as it was.
   */
  function CompressedBindings(m: map<TypeId, Binding>, s: Hints, done: set<TypeId>): map<TypeId, Binding>
    requires Ready(m, s) && done <= s.Keys
  {
    var inv := CompressorOf(s);
    map t | t in m && t !in done :: if t in inv && inv[t] in done then Rewritten(m, s, inv[t]) else m[t]
  }

  /** The undo records of the hints of `s` whose C is in `done`, keyed by C. */
  function UndoTable(m: map<TypeId, Binding>, s: Hints, done: set<TypeId>): map<TypeId, UndoInfo>
    requires Ready(m, s) && done <= s.Keys
  {
    map c | c in done :: UndoInfo(s[c].iTypeId, Data(m[s[c].iTypeId]), Data(m[c]))
  }

  /** What undoing needs: every recorded I is still bound, every recorded C is gone, and no I is recorded twice. */
  predicate UndoReady(r: map<TypeId, Binding>, undo: map<TypeId, UndoInfo>)
  {
    && (forall c :: c in undo ==> c !in r && undo[c].iTypeId in r && r[undo[c].iTypeId].recipe.ToConstruct?)
    && (forall c, c' :: c in undo && c' in undo && c != c' ==> undo[c].iTypeId != undo[c'].iTypeId)
  }

  function UndoOwner(undo: map<TypeId, UndoInfo>): (inv: map<TypeId, TypeId>)
    requires forall c, c' :: c in undo && c' in undo && c != c' ==> undo[c].iTypeId != undo[c'].iTypeId
    ensures forall i :: i in inv <==> exists c :: c in undo && undo[c].iTypeId == i
    ensures forall i :: i in inv ==> inv[i] in undo && undo[inv[i]].iTypeId == i
  {
    map c | c in undo :: undo[c].iTypeId := c
  }

  /**
    Undo every recorded compression: I gets back its own `create` and deps
    and allocates nothing again; C is bound again to its own `create` and
    deps, with the allocation I took over from it.
   */
  function Uncompress(r: map<TypeId, Binding>, undo: map<TypeId, UndoInfo>): map<TypeId, Binding>
    requires UndoReady(r, undo)
  {
    var owner := UndoOwner(undo);
    var interfaces := map t | t in r ::
      if t in owner then Binding(t, ToConstruct(NoAllocation, undo[owner[t]].iBinding.create, undo[owner[t]].iBinding.deps))
      else r[t];
    var implementations := map c | c in undo ::
      Binding(c, ToConstruct(r[undo[c].iTypeId].recipe.alloc, undo[c].cBinding.create, undo[c].cBinding.deps));
    interfaces + implementations
  }

  lemma SameEntries<K, V>(u: map<K, V>, m: map<K, V>)
    requires u.Keys == m.Keys && forall t :: t in m ==> u[t] == m[t]
    ensures u == m
  {
  }

  /**
    The undo records keep exactly what the compression destroyed: undoing
    them gives back the binding map the compression started from, however
    many of the hints have been applied.
   */
  lemma CompressionRoundTrip(m: map<TypeId, Binding>, s: Hints, done: set<TypeId>)
    requires Ready(m, s) && done <= s.Keys
    ensures UndoReady(CompressedBindings(m, s, done), UndoTable(m, s, done))
    ensures Uncompress(CompressedBindings(m, s, done), UndoTable(m, s, done)) == m
  {
    CompressedUndoReady(m, s, done);
    var u := Uncompress(CompressedBindings(m, s, done), UndoTable(m, s, done));
    forall t
      ensures t in u <==> t in m
      ensures t in m ==> u[t] == m[t]
    {
      Restores(m, s, done, t);
    }
    SameEntries(u, m);
  }

  lemma CompressedUndoReady(m: map<TypeId, Binding>, s: Hints, done: set<TypeId>)
    requires Ready(m, s) && done <= s.Keys
    ensures UndoReady(CompressedBindings(m, s, done), UndoTable(m, s, done))
  {
  }

  lemma Restores(m: map<TypeId, Binding>, s: Hints, done: set<TypeId>, t: TypeId)
    requires Ready(m, s) && done <= s.Keys
    requires UndoReady(CompressedBindings(m, s, done), UndoTable(m, s, done))
    ensures var u := Uncompress(CompressedBindings(m, s, done), UndoTable(m, s, done));
            (t in u <==> t in m) && (t in m ==> u[t] == m[t])
  {
    var inv := CompressorOf(s);
    if t in done {
      RestoresImplementation(m, s, done, t);
    } else if t in inv && inv[t] in done {
      RestoresInterface(m, s, done, t);
    } else {
      RestoresUntouched(m, s, done, t);
    }
  }

  lemma RestoresImplementation(m: map<TypeId, Binding>, s: Hints, done: set<TypeId>, c: TypeId)
    requires Ready(m, s) && done <= s.Keys && c in done
    requires UndoReady(CompressedBindings(m, s, done), UndoTable(m, s, done))
    ensures var u := Uncompress(CompressedBindings(m, s, done), UndoTable(m, s, done));
            c in u && c in m && u[c] == m[c]
  {
    var r := CompressedBindings(m, s, done);
    var undo := UndoTable(m, s, done);
    var inv := CompressorOf(s);
    var i := s[c].iTypeId;
    assert i in inv && inv[i] == c;
    assert i !in s;
    assert r[i] == Rewritten(m, s, c);
    assert undo[c] == UndoInfo(i, Data(m[i]), Data(m[c]));
    UncompressImplementation(r, undo, c);
    assert m[c] == Binding(c, ToConstruct(m[c].recipe.alloc, m[c].recipe.create, m[c].recipe.deps));
  }

  lemma UncompressImplementation(r: map<TypeId, Binding>, undo: map<TypeId, UndoInfo>, c: TypeId)
    requires UndoReady(r, undo) && c in undo
    ensures var u := Uncompress(r, undo);
            c in u && u[c] == Binding(c, ToConstruct(r[undo[c].iTypeId].recipe.alloc, undo[c].cBinding.create, undo[c].cBinding.deps))
  {
  }

  lemma RestoresInterface(m: map<TypeId, Binding>, s: Hints, done: set<TypeId>, i: TypeId)
    requires Ready(m, s) && done <= s.Keys
    requires var inv := CompressorOf(s); i in inv && inv[i] in done
    requires UndoReady(CompressedBindings(m, s, done), UndoTable(m, s, done))
    ensures var u := Uncompress(CompressedBindings(m, s, done), UndoTable(m, s, done));
            i in u && i in m && u[i] == m[i]
  {
    var r := CompressedBindings(m, s, done);
    var undo := UndoTable(m, s, done);
    var c := CompressorOf(s)[i];
    var owner := UndoOwner(undo);
    assert i in owner && owner[i] == c;
    assert i !in s;
    assert i in r;
    UncompressInterface(r, undo, i);
    assert m[i] == Binding(i, ToConstruct(NoAllocation, m[i].recipe.create, m[i].recipe.deps));
  }

  lemma UncompressInterface(r: map<TypeId, Binding>, undo: map<TypeId, UndoInfo>, i: TypeId)
    requires UndoReady(r, undo) && i in r && i !in undo && i in UndoOwner(undo)
    ensures var u := Uncompress(r, undo);
            var info := undo[UndoOwner(undo)[i]];
            i in u && u[i] == Binding(i, ToConstruct(NoAllocation, info.iBinding.create, info.iBinding.deps))
  {
  }

  lemma RestoresUntouched(m: map<TypeId, Binding>, s: Hints, done: set<TypeId>, t: TypeId)
    requires Ready(m, s) && done <= s.Keys && t !in done
    requires var inv := CompressorOf(s); !(t in inv && inv[t] in done)
    requires UndoReady(CompressedBindings(m, s, done), UndoTable(m, s, done))
    ensures var u := Uncompress(CompressedBindings(m, s, done), UndoTable(m, s, done));
            (t in u <==> t in m) && (t in m ==> u[t] == m[t])
  {
    OwnerIsCompressor(m, s, done);
    var r := CompressedBindings(m, s, done);
    var undo := UndoTable(m, s, done);
    var owner := UndoOwner(undo);
    assert t !in undo && t !in owner;
    assert t in r <==> t in m;
    assert t in r ==> r[t] == m[t];
    UncompressElsewhere(r, undo, t);
  }

  /** Away from the recorded compressions, undoing changes nothing. */
  lemma UncompressElsewhere(r: map<TypeId, Binding>, undo: map<TypeId, UndoInfo>, t: TypeId)
    requires UndoReady(r, undo) && t !in undo && t !in UndoOwner(undo)
    ensures var u := Uncompress(r, undo);
            (t in u <==> t in r) && (t in r ==> u[t] == r[t])
  {
  }

  /** The C an undo record is filed under is the C the hints compress into its I. */
  lemma OwnerIsCompressor(m: map<TypeId, Binding>, s: Hints, done: set<TypeId>)
    requires Ready(m, s) && done <= s.Keys
    requires UndoReady(CompressedBindings(m, s, done), UndoTable(m, s, done))
    ensures var owner := UndoOwner(UndoTable(m, s, done));
            var inv := CompressorOf(s);
            forall i :: i in owner ==> i in inv && inv[i] == owner[i] && owner[i] in done
  {
  }

  /** Before any hint is applied the map is the original one. */
  lemma NothingCompressed(m: map<TypeId, Binding>, s: Hints)
    requires Ready(m, s)
    ensures CompressedBindings(m, s, {}) == m
    ensures UndoTable(m, s, {}) == map[]
  {
  }

  /** Until its own hint is applied, neither end of a hint has been touched. */
  lemma EndsUntouched(m: map<TypeId, Binding>, s: Hints, done: set<TypeId>, c: TypeId)
    requires Ready(m, s) && done <= s.Keys && c in s && c !in done
    ensures var r := CompressedBindings(m, s, done);
            var i := s[c].iTypeId;
            c in r && r[c] == m[c] && i in r && r[i] == m[i]
  {
  }

  /** Applying one more hint: its I is overwritten by the rewritten binding and its C is erased. */
  lemma CompressOneMore(m: map<TypeId, Binding>, s: Hints, done: set<TypeId>, c: TypeId)
    requires Ready(m, s) && done <= s.Keys && c in s && c !in done
    ensures CompressedBindings(m, s, done + {c}) ==
              CompressedBindings(m, s, done)[s[c].iTypeId := Rewritten(m, s, c)] - {c}
  {
  }

  /**
    Apply every surviving hint, in an arbitrary order: record what the
    compression destroys under C, give I the allocation and deps of C and the
    compressed `create`, and erase C. The outcome is the same for every order.
   */
  method Compress(m: map<TypeId, Binding>, s: Hints) returns (r: map<TypeId, Binding>, undo: map<TypeId, UndoInfo>)
    requires Ready(m, s)
    ensures r == CompressedBindings(m, s, s.Keys)
    ensures undo == UndoTable(m, s, s.Keys)
  {
    r, undo := m, map[];
    var todo := s.Keys;
    NothingCompressed(m, s);
    assert s.Keys - todo == {};
    while todo != {}
      invariant todo <= s.Keys
      invariant r == CompressedBindings(m, s, s.Keys - todo)
      invariant undo == UndoTable(m, s, s.Keys - todo)
      decreases todo
    {
      r, undo, todo := ApplyHint(m, s, r, undo, todo);
    }
    assert s.Keys - todo == s.Keys;
  }

  /** One iteration of the rewrite loop, reading both ends from the current map as the loop does. */
  method ApplyHint(m: map<TypeId, Binding>, s: Hints, r0: map<TypeId, Binding>, undo0: map<TypeId, UndoInfo>, todo0: set<TypeId>)
    returns (r: map<TypeId, Binding>, undo: map<TypeId, UndoInfo>, todo: set<TypeId>)
    requires Ready(m, s) && todo0 != {} && todo0 <= s.Keys
    requires r0 == CompressedBindings(m, s, s.Keys - todo0)
    requires undo0 == UndoTable(m, s, s.Keys - todo0)
    ensures todo < todo0
    ensures r == CompressedBindings(m, s, s.Keys - todo)
    ensures undo == UndoTable(m, s, s.Keys - todo)
  {
    var c := Pick(todo0);
    ghost var done := s.Keys - todo0;
    var i := s[c].iTypeId;
    EndsUntouched(m, s, done, c);
    var iBinding, cBinding := r0[i], r0[c];
    undo := undo0[c := UndoInfo(i, Data(iBinding), Data(cBinding))];
    var rewritten := Binding(i, ToConstruct(cBinding.recipe.alloc, s[c].createWithCompression, cBinding.recipe.deps));
    r := r0[i := rewritten] - {c};
    assert rewritten == Rewritten(m, s, c);
    CompressOneMore(m, s, done, c);
    UndoOneMore(m, s, done, c);
    todo := todo0 - {c};
    assert s.Keys - todo == done + {c};
  }

  /** Applying one more hint records one more undo entry, for its C. */
  lemma UndoOneMore(m: map<TypeId, Binding>, s: Hints, done: set<TypeId>, c: TypeId)
    requires Ready(m, s) && done <= s.Keys && c in s && c !in done
    ensures UndoTable(m, s, done + {c}) == UndoTable(m, s, done)[c := UndoInfo(s[c].iTypeId, Data(m[s[c].iTypeId]), Data(m[c]))]
  {
  }

  /**
    What the compression does to the binding map, entry by entry: every
    surviving C is gone, every surviving I now holds its rewritten binding, and
    every other entry is exactly as it was. Every entry stays filed under its
    own type.
   */
  lemma CompressedBindingsMeaning(m: map<TypeId, Binding>, s: Hints)
    requires Ready(m, s)
    ensures var r := CompressedBindings(m, s, s.Keys);
            && (forall t :: t in r <==> t in m && t !in s)
            && (forall c :: c in s ==> s[c].iTypeId in r && r[s[c].iTypeId] == Rewritten(m, s, c))
            && (forall t :: t in r && t !in Interfaces(s) ==> r[t] == m[t])
            && KeyedByType(r)
  {
  }

  lemma KeyOf<K, V>(r: map<K, V>, b: V) returns (t: K)
    requires b in r.Values
    ensures t in r && r[t] == b
  {
    t :| t in r && r[t] == b;
  }

  /** Copy the values of a binding map into a vector, in the map's (arbitrary) iteration order. */
  method BindingsVector(r: map<TypeId, Binding>) returns (v: seq<Binding>)
    requires KeyedByType(r)
    ensures |v| == |r|
    ensures forall b :: b in v <==> b in r.Values
    ensures forall j, k :: 0 <= j < k < |v| ==> v[j].typeId != v[k].typeId
  {
    v := [];
    var todo := r.Keys;
    while todo != {}
      invariant todo <= r.Keys
      invariant |v| + |todo| == |r.Keys|
      invariant forall k :: 0 <= k < |v| ==> v[k].typeId in r && v[k].typeId !in todo && r[v[k].typeId] == v[k]
      invariant forall t :: t in r && t !in todo ==> r[t] in v
      invariant forall j, k :: 0 <= j < k < |v| ==> v[j].typeId != v[k].typeId
      decreases todo
    {
      var t := Pick(todo);
      v := v + [r[t]];
      todo := todo - {t};
    }
    assert |r.Keys| == |r|;
    forall b
      ensures b in v <==> b in r.Values
    {
      if b in v {
        var k :| 0 <= k < |v| && v[k] == b;
        assert r[v[k].typeId] == b;
      }
      if b in r.Values {
        var t := KeyOf(r, b);
      }
    }
  }

  /**
    The whole compression stage: select the survivors, apply them, and copy
    what is left of the binding map into the result vector.
   */
  method PerformBindingCompression(m: map<TypeId, Binding>, hints: Hints, pairs: seq<MultibindingPair>, exposed: seq<TypeId>)
    returns (v: seq<Binding>, undo: map<TypeId, UndoInfo>)
    requires Ready(m, Survivors(m, hints, pairs, exposed))
    ensures var s := Survivors(m, hints, pairs, exposed);
            && undo == UndoTable(m, s, s.Keys)
            && |v| == |CompressedBindings(m, s, s.Keys)|
            && (forall b :: b in v <==> b in CompressedBindings(m, s, s.Keys).Values)
    ensures forall j, k :: 0 <= j < k < |v| ==> v[j].typeId != v[k].typeId
  {
    var s := SelectSurvivors(m, hints, pairs, exposed);
    var r;
    r, undo := Compress(m, s);
    CompressedBindingsMeaning(m, s);
    v := BindingsVector(r);
  }
}

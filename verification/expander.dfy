/**
  The worklist expander: pops composition records off an explicit LIFO stack
  until it is empty, expanding lazy components depth first, collecting the
  binding map, the compression hints and the multibinding pairs, and stopping
  at the first inconsistent binding or installation loop.
 */
module Expander {
  import opened Entries
  import opened StackShape

  /**
    What each lazy component's `addBindings` pushes, in push order (the last
    record ends up on top of the stack).
   */
  type Table = map<ModuleId, seq<Entry>>

  predicate LaziesKnown(table: Table, s: seq<Entry>)
  {
    forall i :: 0 <= i < |s| && s[i].LazyComponent? ==> s[i].id in table
  }

  /** Records a component may push: pairs intact, no end markers, only components the table knows. */
  predicate ValidEntries(table: Table, s: seq<Entry>)
  {
    Paired(s) && Markers(s) == [] && LaziesKnown(table, s)
  }

  predicate ValidTable(table: Table)
  {
    forall m :: m in table ==> ValidEntries(table, table[m])
  }

  /** The expander's whole state between two iterations of its loop. */
  datatype Expansion = Expansion(
    stack: seq<Entry>,
    bindings: map<TypeId, Binding>,
    compressions: map<TypeId, CompressionInfo>,
    multibindings: seq<MultibindingPair>,
    inProgress: set<ModuleId>,
    expanded: set<ModuleId>,
    allocator: AllocatorData)

  function MarkerSet(s: seq<Entry>): set<ModuleId>
  {
    set m | m in Markers(s)
  }

  /**
    The lifecycle invariant: the components in progress are exactly those
    whose end marker is on the stack, each at most once, and none of them is
    already fully expanded.
   */
  predicate Inv(table: Table, s: Expansion)
  {
    && ValidTable(table)
    && Paired(s.stack)
    && LaziesKnown(table, s.stack)
    && s.inProgress == MarkerSet(s.stack)
    && Distinct(Markers(s.stack))
    && s.inProgress !! s.expanded
    && KeyedByType(s.bindings)
  }

  /** Components of the table that have not been started yet. */
  function Pending(table: Table, s: Expansion): nat
  {
    |table.Keys - s.inProgress - s.expanded|
  }

  function Initial(toplevel: seq<Entry>, allocator: AllocatorData): Expansion
  {
    Expansion(toplevel, map[], map[], [], {}, {}, allocator)
  }

  /** Bindings already in the map stay there untouched: the first binding seen for a type wins. */
  predicate KeepsBindings(before: map<TypeId, Binding>, after: map<TypeId, Binding>)
  {
    forall t :: t in before ==> t in after && after[t] == before[t]
  }

  /** One iteration of the expander's loop: dispatch on the record on top of the stack. */
  function Step(table: Table, toplevel: TypeId, s: Expansion): Result<Expansion, NormalizationError>
    requires |s.stack| > 0 && Paired(s.stack) && LaziesKnown(table, s.stack)
  {
    var n := |s.stack|;
    var rest := s.stack[..n - 1];
    match s.stack[n - 1]
    case BindingEntry(b) =>
      var allocator := Account(s.allocator, b);
      if b.typeId !in s.bindings then
        Ok(s.(stack := rest, bindings := s.bindings[b.typeId := b], allocator := allocator))
      else if Consistent(s.bindings[b.typeId].recipe, b.recipe) then
        Ok(s.(stack := rest, allocator := allocator))
      else
        Err(InconsistentBinding(b.typeId))
    case CompressedEntry(i, c, create) =>
      Ok(s.(stack := rest, compressions := s.compressions[c := CompressionInfo(i, create)]))
    case MultibindingEntry(element) =>
      var pair := MultibindingPair(element, s.stack[n - 2].creator);
      Ok(s.(stack := s.stack[..n - 2], multibindings := s.multibindings + [pair]))
    case VectorCreatorEntry(creator) =>
      var pair := MultibindingPair(s.stack[n - 2].element, creator);
      Ok(s.(stack := s.stack[..n - 2], multibindings := s.multibindings + [pair]))
    case EndMarker(m) =>
      Ok(s.(stack := rest, inProgress := s.inProgress - {m}, expanded := s.expanded + {m}))
    case LazyComponent(m) =>
      if m in s.expanded then
        Ok(s.(stack := rest))
      else if m in s.inProgress then
        Err(InstallLoop(toplevel, Markers(s.stack), m))
      else
        Ok(s.(stack := rest + [EndMarker(m)] + table[m], inProgress := s.inProgress + {m}))
  }

  /**
    A concrete binding: the first one seen for its type is inserted, a
    consistent duplicate collapses onto it, an inconsistent one is fatal;
    either way the allocator is told once per occurrence.
   */
  lemma BindingStep(table: Table, toplevel: TypeId, s: Expansion)
    requires |s.stack| > 0 && Paired(s.stack) && LaziesKnown(table, s.stack)
    requires s.stack[|s.stack| - 1].BindingEntry?
    ensures var r := Step(table, toplevel, s);
            var b := s.stack[|s.stack| - 1].binding;
            && (r.Ok? <==> (b.typeId in s.bindings ==> Consistent(s.bindings[b.typeId].recipe, b.recipe)))
            && (r.Err? ==> r.error == InconsistentBinding(b.typeId))
            && (r.Ok? ==>
                  && r.value.stack == s.stack[..|s.stack| - 1]
                  && r.value.bindings.Keys == s.bindings.Keys + {b.typeId}
                  && KeepsBindings(s.bindings, r.value.bindings)
                  && (b.typeId !in s.bindings ==> r.value.bindings[b.typeId] == b)
                  && r.value.allocator == Account(s.allocator, b)
                  && r.value == s.(stack := r.value.stack, bindings := r.value.bindings, allocator := r.value.allocator))
  {
  }

  /** A compression hint is handed on; the last hint seen for a given C wins. */
  lemma CompressedStep(table: Table, toplevel: TypeId, s: Expansion)
    requires |s.stack| > 0 && Paired(s.stack) && LaziesKnown(table, s.stack)
    requires s.stack[|s.stack| - 1].CompressedEntry?
    ensures var e := s.stack[|s.stack| - 1];
            Step(table, toplevel, s) ==
              Ok(s.(stack := s.stack[..|s.stack| - 1],
                    compressions := s.compressions[e.cTypeId := CompressionInfo(e.iTypeId, e.createWithCompression)]))
  {
  }

  /** A multibinding and its vector creator leave the stack together, as one pair, whichever is on top. */
  lemma MultibindingStep(table: Table, toplevel: TypeId, s: Expansion)
    requires |s.stack| > 0 && Paired(s.stack) && LaziesKnown(table, s.stack)
    requires s.stack[|s.stack| - 1].MultibindingEntry? || s.stack[|s.stack| - 1].VectorCreatorEntry?
    ensures |s.stack| >= 2
    ensures var n := |s.stack|;
            var pair := if s.stack[n - 1].MultibindingEntry?
                        then MultibindingPair(s.stack[n - 1].element, s.stack[n - 2].creator)
                        else MultibindingPair(s.stack[n - 2].element, s.stack[n - 1].creator);
            Step(table, toplevel, s) == Ok(s.(stack := s.stack[..n - 2], multibindings := s.multibindings + [pair]))
  {
  }

  /** Popping an end marker moves its component from in progress to fully expanded. */
  lemma EndMarkerStep(table: Table, toplevel: TypeId, s: Expansion)
    requires |s.stack| > 0 && Paired(s.stack) && LaziesKnown(table, s.stack)
    requires s.stack[|s.stack| - 1].EndMarker?
    ensures var m := s.stack[|s.stack| - 1].id;
            Step(table, toplevel, s) ==
              Ok(s.(stack := s.stack[..|s.stack| - 1], inProgress := s.inProgress - {m}, expanded := s.expanded + {m}))
  {
  }

  /**
    A lazy component already fully expanded is dropped and nothing else
    changes; one already in progress is an installation loop reported with the
    end markers on the stack; any other is turned into its end marker with its
    own records pushed above it.
   */
  lemma LazyStep(table: Table, toplevel: TypeId, s: Expansion)
    requires |s.stack| > 0 && Paired(s.stack) && LaziesKnown(table, s.stack)
    requires s.stack[|s.stack| - 1].LazyComponent?
    ensures var m := s.stack[|s.stack| - 1].id;
            var n := |s.stack|;
            var r := Step(table, toplevel, s);
            && (m in s.expanded ==> r == Ok(s.(stack := s.stack[..n - 1])))
            && (m !in s.expanded && m in s.inProgress ==> r == Err(InstallLoop(toplevel, Markers(s.stack), m)))
            && (m !in s.expanded && m !in s.inProgress ==>
                  r == Ok(s.(stack := s.stack[..n - 1] + [EndMarker(m)] + table[m], inProgress := s.inProgress + {m})))
  {
  }

  /**
    Every step keeps the lifecycle invariant and makes progress in the
    lexicographic order: components not yet started, then stack length.
   */
  lemma StepKeepsInv(table: Table, toplevel: TypeId, s: Expansion)
    requires Inv(table, s) && |s.stack| > 0
    ensures var r := Step(table, toplevel, s);
            r.Ok? ==>
              && Inv(table, r.value)
              && (|| Pending(table, r.value) < Pending(table, s)
                  || (Pending(table, r.value) == Pending(table, s) && |r.value.stack| < |s.stack|))
  {
    var n := |s.stack|;
    var r := Step(table, toplevel, s);
    var top := s.stack[n - 1];
    if r.Ok? {
      var next := r.value;
      if top.LazyComponent? && top.id !in s.expanded {
        ExpandKeepsInv(table, s, top.id, next);
      } else if top.EndMarker? {
        MarkerPopKeepsInv(table, s, next);
      } else {
        PopKeepsInv(table, s, next);
      }
    }
  }

  /**
    A step consumes only the top unit of the stack, and whatever it pushes in
    its place is itself paired.
   */
  lemma StepShape(table: Table, toplevel: TypeId, s: Expansion)
    requires ValidTable(table) && |s.stack| > 0 && Paired(s.stack) && LaziesKnown(table, s.stack)
    ensures var r := Step(table, toplevel, s);
            var keep := |s.stack| - TopUnit(s.stack);
            r.Ok? ==>
              && 0 <= keep <= |r.value.stack|
              && r.value.stack[..keep] == s.stack[..keep]
              && Paired(r.value.stack[keep..])
  {
    if s.stack[|s.stack| - 1].LazyComponent? {
      LazyStepShape(table, toplevel, s);
    } else {
      PopStepShape(table, toplevel, s);
      var r := Step(table, toplevel, s);
      if r.Ok? {
        EmptyTailPaired(r.value.stack, |s.stack| - TopUnit(s.stack));
      }
    }
  }

  lemma LazyStepShape(table: Table, toplevel: TypeId, s: Expansion)
    requires ValidTable(table) && |s.stack| > 0 && Paired(s.stack) && LaziesKnown(table, s.stack)
    requires s.stack[|s.stack| - 1].LazyComponent?
    ensures var r := Step(table, toplevel, s);
            var keep := |s.stack| - 1;
            r.Ok? ==>
              && keep <= |r.value.stack|
              && r.value.stack[..keep] == s.stack[..keep]
              && Paired(r.value.stack[keep..])
  {
    var keep := |s.stack| - 1;
    var m := s.stack[keep].id;
    LazyStep(table, toplevel, s);
    var r := Step(table, toplevel, s);
    if r.Ok? {
      if m !in s.expanded {
        PushedPaired(table, m);
        assert r.value.stack[keep..] == [EndMarker(m)] + table[m];
      } else {
        EmptyTailPaired(r.value.stack, keep);
      }
    }
  }

  /** Every step except an expansion only pops its top unit. */
  lemma PopStepShape(table: Table, toplevel: TypeId, s: Expansion)
    requires |s.stack| > 0 && Paired(s.stack) && LaziesKnown(table, s.stack) && !s.stack[|s.stack| - 1].LazyComponent?
    ensures var r := Step(table, toplevel, s);
            r.Ok? ==> TopUnit(s.stack) <= |s.stack| && r.value.stack == s.stack[..|s.stack| - TopUnit(s.stack)]
  {
  }

  /** No component a step has seen is forgotten, and nothing collected so far is dropped. */
  lemma StepGrows(table: Table, toplevel: TypeId, s: Expansion)
    requires Inv(table, s) && |s.stack| > 0
    ensures var r := Step(table, toplevel, s);
            r.Ok? ==>
              && s.expanded <= r.value.expanded
              && s.inProgress + s.expanded <= r.value.inProgress + r.value.expanded
              && s.multibindings <= r.value.multibindings
              && KeepsBindings(s.bindings, r.value.bindings)
  {
  }

  lemma EmptyTailPaired(s: seq<Entry>, k: nat)
    requires |s| == k
    ensures Paired(s[k..])
  {
  }

  /** An installation loop names a component whose end marker is on the stack, and each marker once. */
  lemma StepLoopTrace(table: Table, toplevel: TypeId, s: Expansion)
    requires Inv(table, s) && |s.stack| > 0
    ensures var r := Step(table, toplevel, s);
            r.Err? && r.error.InstallLoop? ==> r.error.repeated in r.error.trace && Distinct(r.error.trace)
  {
  }

  /** Popping a unit that holds no end marker leaves the lifecycle sets alone. */
  lemma PopKeepsInv(table: Table, s: Expansion, next: Expansion)
    requires Inv(table, s) && |s.stack| > 0 && !s.stack[|s.stack| - 1].EndMarker?
    requires next.stack == s.stack[..|s.stack| - TopUnit(s.stack)]
    requires next.inProgress == s.inProgress && next.expanded == s.expanded
    requires KeyedByType(next.bindings)
    ensures Inv(table, next)
  {
    PopShape(s.stack);
    assert Markers(next.stack) == Markers(s.stack);
    assert LaziesKnown(table, next.stack) by {
      forall i | 0 <= i < |next.stack| && next.stack[i].LazyComponent?
        ensures next.stack[i].id in table
      {
        assert next.stack[i] == s.stack[i];
      }
    }
  }

  lemma MarkerPopKeepsInv(table: Table, s: Expansion, next: Expansion)
    requires Inv(table, s) && |s.stack| > 0 && s.stack[|s.stack| - 1].EndMarker?
    requires var m := s.stack[|s.stack| - 1].id;
             next == s.(stack := s.stack[..|s.stack| - 1], inProgress := s.inProgress - {m}, expanded := s.expanded + {m})
    ensures Inv(table, next) && Pending(table, next) == Pending(table, s)
  {
    var m := s.stack[|s.stack| - 1].id;
    PopShape(s.stack);
    DistinctSnoc(Markers(next.stack), m);
    assert next.inProgress == MarkerSet(next.stack);
    assert table.Keys - next.inProgress - next.expanded == table.Keys - s.inProgress - s.expanded;
    assert LaziesKnown(table, next.stack) by {
      forall i | 0 <= i < |next.stack| && next.stack[i].LazyComponent?
        ensures next.stack[i].id in table
      {
        assert next.stack[i] == s.stack[i];
      }
    }
  }

  lemma ExpandKeepsInv(table: Table, s: Expansion, m: ModuleId, next: Expansion)
    requires Inv(table, s) && |s.stack| > 0 && s.stack[|s.stack| - 1] == LazyComponent(m)
    requires m !in s.expanded && m !in s.inProgress
    requires next == s.(stack := s.stack[..|s.stack| - 1] + [EndMarker(m)] + table[m], inProgress := s.inProgress + {m})
    ensures Inv(table, next) && Pending(table, next) < Pending(table, s)
  {
    var rest := s.stack[..|s.stack| - 1];
    PopShape(s.stack);
    assert LaziesKnown(table, rest) by {
      forall i | 0 <= i < |rest| && rest[i].LazyComponent?
        ensures rest[i].id in table
      {
        assert rest[i] == s.stack[i];
      }
    }
    ExpandShape(table, rest, m);
    StartingShrinksPending(table, s, next, m);
  }

  lemma StartingShrinksPending(table: Table, s: Expansion, next: Expansion, m: ModuleId)
    requires m in table && m !in s.inProgress && m !in s.expanded
    requires next.inProgress == s.inProgress + {m} && next.expanded == s.expanded
    ensures Pending(table, next) < Pending(table, s)
  {
    assert table.Keys - s.inProgress - s.expanded == (table.Keys - next.inProgress - next.expanded) + {m};
  }

  /** What an expansion pushes is itself paired. */
  lemma PushedPaired(table: Table, m: ModuleId)
    requires ValidTable(table) && m in table
    ensures Paired([EndMarker(m)] + table[m])
  {
    var marker := [EndMarker(m)];
    assert Paired(marker) by {
      assert marker[..0] == [];
    }
    PairedAppend(marker, table[m]);
  }

  /** The stack after expanding `m` on top of `rest`. */
  lemma ExpandShape(table: Table, rest: seq<Entry>, m: ModuleId)
    requires ValidTable(table) && m in table && Paired(rest) && LaziesKnown(table, rest)
    requires Distinct(Markers(rest)) && m !in Markers(rest)
    ensures Paired(rest + [EndMarker(m)] + table[m])
    ensures LaziesKnown(table, rest + [EndMarker(m)] + table[m])
    ensures Markers(rest + [EndMarker(m)] + table[m]) == Markers(rest) + [m]
    ensures Distinct(Markers(rest + [EndMarker(m)] + table[m]))
    ensures MarkerSet(rest + [EndMarker(m)] + table[m]) == MarkerSet(rest) + {m}
  {
    ExpandPaired(table, rest, m);
    ExpandMarkers(table, rest, m);
    DistinctSnoc(Markers(rest), m);
  }

  lemma ExpandPaired(table: Table, rest: seq<Entry>, m: ModuleId)
    requires ValidTable(table) && m in table && Paired(rest) && LaziesKnown(table, rest)
    ensures Paired(rest + [EndMarker(m)] + table[m])
    ensures LaziesKnown(table, rest + [EndMarker(m)] + table[m])
  {
    var marker := [EndMarker(m)];
    assert Paired(marker) by {
      assert marker[..0] == [];
    }
    PairedAppend(rest, marker);
    PairedAppend(rest + marker, table[m]);
  }

  lemma ExpandMarkers(table: Table, rest: seq<Entry>, m: ModuleId)
    requires m in table && Markers(table[m]) == []
    ensures Markers(rest + [EndMarker(m)] + table[m]) == Markers(rest) + [m]
  {
    var marker := [EndMarker(m)];
    assert Markers(marker) == [m] by {
      assert marker[..0] == [];
    }
    MarkersAppend(rest, marker);
    MarkersAppend(rest + marker, table[m]);
  }

  /**
    The expander's loop: step until the stack is empty or a fatal error is
    found. On normal termination no component is left in progress.
   */
  function Run(table: Table, toplevel: TypeId, s: Expansion): (r: Result<Expansion, NormalizationError>)
    requires Inv(table, s)
    ensures r.Ok? ==> r.value.stack == [] && r.value.inProgress == {} && Inv(table, r.value)
    ensures r.Ok? ==> s.inProgress + s.expanded <= r.value.expanded
    ensures r.Ok? ==> KeepsBindings(s.bindings, r.value.bindings)
    ensures r.Ok? ==> s.multibindings <= r.value.multibindings
    ensures r.Err? && r.error.InstallLoop? ==> r.error.repeated in r.error.trace && Distinct(r.error.trace)
    decreases Pending(table, s), |s.stack|
  {
    if |s.stack| == 0 then
      Ok(s)
    else
      StepKeepsInv(table, toplevel, s);
      StepGrows(table, toplevel, s);
      StepLoopTrace(table, toplevel, s);
      match Step(table, toplevel, s)
      case Err(e) => Err(e)
      case Ok(next) => Run(table, toplevel, next)
  }
}

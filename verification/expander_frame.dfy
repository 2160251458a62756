/**
  Frame reasoning about the expander: a segment on top of the stack is
  processed the same way whatever lies beneath it, as long as the records
  beneath carry the same end markers. From that follows that installing a
  component twice is the same as installing it once.
 */
module ExpanderFrame {
  import opened Entries
  import opened StackShape
  import opened Expander

  /** The stack of `s` is `base` with a paired segment on top of it. */
  predicate OnBase(table: Table, base: seq<Entry>, s: Expansion)
  {
    && Inv(table, s)
    && |base| <= |s.stack|
    && s.stack[..|base|] == base
    && Paired(base)
    && Paired(s.stack[|base|..])
  }

  /** The expander run only until the stack is back down to `base`. */
  function RunAbove(table: Table, toplevel: TypeId, base: seq<Entry>, s: Expansion): (r: Result<Expansion, NormalizationError>)
    requires OnBase(table, base, s)
    ensures r.Ok? ==> Inv(table, r.value) && r.value.stack == base
    ensures r.Ok? ==> s.inProgress + s.expanded <= r.value.inProgress + r.value.expanded
    decreases Pending(table, s), |s.stack|
  {
    if |s.stack| == |base| then
      Ok(s)
    else
      StepKeepsInv(table, toplevel, s);
      StepGrows(table, toplevel, s);
      StepStaysOnBase(table, toplevel, base, s);
      match Step(table, toplevel, s)
      case Err(e) => Err(e)
      case Ok(next) => RunAbove(table, toplevel, base, next)
  }

  /** A step taken above `base` leaves `base` in place. */
  lemma StepStaysOnBase(table: Table, toplevel: TypeId, base: seq<Entry>, s: Expansion)
    requires OnBase(table, base, s) && |base| < |s.stack|
    ensures var r := Step(table, toplevel, s);
            r.Ok? ==> OnBase(table, base, r.value)
  {
    StepKeepsInv(table, toplevel, s);
    StepKeepsBase(table, toplevel, base, s);
  }

  lemma StepKeepsBase(table: Table, toplevel: TypeId, base: seq<Entry>, s: Expansion)
    requires ValidTable(table) && Paired(s.stack) && LaziesKnown(table, s.stack)
    requires |base| < |s.stack| && s.stack[..|base|] == base && Paired(s.stack[|base|..])
    ensures var r := Step(table, toplevel, s);
            r.Ok? ==> |base| <= |r.value.stack| && r.value.stack[..|base|] == base && Paired(r.value.stack[|base|..])
  {
    var r := Step(table, toplevel, s);
    TopUnitAbove(base, s.stack);
    StepShape(table, toplevel, s);
    if r.Ok? {
      BaseSurvives(base, s.stack, |s.stack| - TopUnit(s.stack), r.value.stack);
    }
  }

  /** The top unit of a stack standing on a paired base lies above the base. */
  lemma TopUnitAbove(base: seq<Entry>, stack: seq<Entry>)
    requires |base| < |stack| && stack[..|base|] == base && Paired(stack[|base|..])
    ensures |base| <= |stack| - TopUnit(stack)
    ensures Paired(stack[|base|..|stack| - TopUnit(stack)])
  {
    var x := stack[|base|..];
    assert stack == base + x;
    TopUnitWithin(base, x);
    PopShape(x);
    assert stack[|base|..|stack| - TopUnit(stack)] == x[..|x| - TopUnit(x)];
  }

  lemma BaseSurvives(base: seq<Entry>, stack: seq<Entry>, keep: nat, after: seq<Entry>)
    requires |base| <= keep <= |stack| && keep <= |after|
    requires stack[..|base|] == base && after[..keep] == stack[..keep]
    requires Paired(stack[|base|..keep]) && Paired(after[keep..])
    ensures after[..|base|] == base
    ensures Paired(after[|base|..])
  {
    assert after[..|base|] == after[..keep][..|base|];
    assert after[|base|..keep] == stack[|base|..keep];
    assert after[|base|..] == after[|base|..keep] + after[keep..];
    PairedAppend(after[|base|..keep], after[keep..]);
  }

  /** Running to the end is running down to `base` and then on from there. */
  lemma {:induction false} RunSplit(table: Table, toplevel: TypeId, base: seq<Entry>, s: Expansion)
    requires OnBase(table, base, s)
    ensures Run(table, toplevel, s) ==
              match RunAbove(table, toplevel, base, s)
              case Err(e) => Err(e)
              case Ok(mid) => Run(table, toplevel, mid)
    decreases Pending(table, s), |s.stack|
  {
    if |s.stack| > |base| {
      StepKeepsInv(table, toplevel, s);
      StepStaysOnBase(table, toplevel, base, s);
      match Step(table, toplevel, s)
      case Err(e) =>
      case Ok(next) => RunSplit(table, toplevel, base, next);
    }
  }

  /**
    One step on the same top segment over two bases with the same end markers
    gives the same outcome, up to the base.
   */
  lemma StepFrame(table: Table, toplevel: TypeId, b1: seq<Entry>, s1: Expansion, b2: seq<Entry>, s2: Expansion)
    requires Paired(s1.stack) && LaziesKnown(table, s1.stack) && Paired(s2.stack) && LaziesKnown(table, s2.stack)
    requires |b1| < |s1.stack| && s1.stack[..|b1|] == b1 && Paired(s1.stack[|b1|..])
    requires |b2| <= |s2.stack| && s2.stack[..|b2|] == b2
    requires Markers(b1) == Markers(b2)
    requires s1.stack[|b1|..] == s2.stack[|b2|..]
    requires s1.(stack := []) == s2.(stack := [])
    ensures var r1 := Step(table, toplevel, s1);
            var r2 := Step(table, toplevel, s2);
            && r1.Err? == r2.Err?
            && (r1.Err? ==> r1.error == r2.error)
            && (r1.Ok? ==>
                  && r1.value.(stack := []) == r2.value.(stack := [])
                  && |b1| <= |r1.value.stack| && |b2| <= |r2.value.stack|
                  && r1.value.stack[|b1|..] == r2.value.stack[|b2|..])
  {
    var x := s1.stack[|b1|..];
    assert s1.stack == b1 + x;
    assert s2.stack == b2 + x;
    if x[|x| - 1].LazyComponent? {
      MarkersAppend(b1, x);
      MarkersAppend(b2, x);
      LazyFrame(table, toplevel, b1, s1, b2, s2, x);
    } else {
      PopFrameAbove(table, toplevel, b1, s1, b2, s2, x);
    }
  }

  lemma PopFrameAbove(table: Table, toplevel: TypeId, b1: seq<Entry>, s1: Expansion, b2: seq<Entry>, s2: Expansion, x: seq<Entry>)
    requires |x| > 0 && Paired(x) && !x[|x| - 1].LazyComponent?
    requires s1.stack == b1 + x && s2.stack == b2 + x
    requires Paired(s1.stack) && LaziesKnown(table, s1.stack)
    requires Paired(s2.stack) && LaziesKnown(table, s2.stack)
    requires s1.(stack := []) == s2.(stack := [])
    ensures var r1 := Step(table, toplevel, s1);
            var r2 := Step(table, toplevel, s2);
            && r1.Err? == r2.Err?
            && (r1.Err? ==> r1.error == r2.error)
            && (r1.Ok? ==>
                  && r1.value.(stack := []) == r2.value.(stack := [])
                  && |b1| <= |r1.value.stack| && |b2| <= |r2.value.stack|
                  && r1.value.stack[|b1|..] == r2.value.stack[|b2|..])
  {
    TopUnitWithin(b1, x);
    TopUnitWithin(b2, x);
    TopOfAppend(b1, x);
    TopOfAppend(b2, x);
    PopFrame(table, toplevel, s1, s2);
    PopAbove(table, toplevel, b1, s1, x);
    PopAbove(table, toplevel, b2, s2, x);
  }

  /** The top records of a stack are those of the segment that ends at its top. */
  lemma TopOfAppend(b: seq<Entry>, x: seq<Entry>)
    requires |x| > 0
    ensures (b + x)[|b + x| - 1] == x[|x| - 1]
    ensures |x| >= 2 ==> (b + x)[|b + x| - 2] == x[|x| - 2]
  {
  }

  /** Popping the top unit of a segment above a base leaves the base and the rest of the segment. */
  lemma PopAbove(table: Table, toplevel: TypeId, b: seq<Entry>, s: Expansion, x: seq<Entry>)
    requires |x| > 0 && Paired(x) && !x[|x| - 1].LazyComponent?
    requires s.stack == b + x && Paired(s.stack) && LaziesKnown(table, s.stack)
    ensures TopUnit(x) <= |x|
    ensures var r := Step(table, toplevel, s);
            r.Ok? ==> |b| <= |r.value.stack| && r.value.stack[|b|..] == x[..|x| - TopUnit(x)]
  {
    TopUnitWithin(b, x);
    PopStepShape(table, toplevel, s);
    CutAbove(b, x, TopUnit(x));
  }

  lemma CutAbove(b: seq<Entry>, x: seq<Entry>, u: nat)
    requires u <= |x|
    ensures |b| <= |b + x| - u
    ensures (b + x)[..|b + x| - u][|b|..] == x[..|x| - u]
  {
  }

  /** A step that only pops sees nothing of the stack below its top unit. */
  lemma PopFrame(table: Table, toplevel: TypeId, s1: Expansion, s2: Expansion)
    requires |s1.stack| > 0 && Paired(s1.stack) && LaziesKnown(table, s1.stack)
    requires |s2.stack| > 0 && Paired(s2.stack) && LaziesKnown(table, s2.stack)
    requires s1.stack[|s1.stack| - 1] == s2.stack[|s2.stack| - 1]
    requires !s1.stack[|s1.stack| - 1].LazyComponent?
    requires TopUnit(s1.stack) == 2 ==> |s1.stack| >= 2 && |s2.stack| >= 2 && s1.stack[|s1.stack| - 2] == s2.stack[|s2.stack| - 2]
    requires s1.(stack := []) == s2.(stack := [])
    ensures var r1 := Step(table, toplevel, s1);
            var r2 := Step(table, toplevel, s2);
            && r1.Err? == r2.Err?
            && (r1.Err? ==> r1.error == r2.error)
            && (r1.Ok? ==> r1.value.(stack := []) == r2.value.(stack := []))
  {
  }

  /** A lazy component on top sees the stack below only through its end markers. */
  lemma LazyFrame(table: Table, toplevel: TypeId, b1: seq<Entry>, s1: Expansion, b2: seq<Entry>, s2: Expansion, x: seq<Entry>)
    requires |x| > 0 && x[|x| - 1].LazyComponent?
    requires s1.stack == b1 + x && s2.stack == b2 + x
    requires Paired(s1.stack) && LaziesKnown(table, s1.stack)
    requires Paired(s2.stack) && LaziesKnown(table, s2.stack)
    requires Markers(s1.stack) == Markers(s2.stack)
    requires s1.(stack := []) == s2.(stack := [])
    ensures var r1 := Step(table, toplevel, s1);
            var r2 := Step(table, toplevel, s2);
            && r1.Err? == r2.Err?
            && (r1.Err? ==> r1.error == r2.error)
            && (r1.Ok? ==>
                  && r1.value.(stack := []) == r2.value.(stack := [])
                  && |b1| <= |r1.value.stack| && |b2| <= |r2.value.stack|
                  && r1.value.stack[|b1|..] == r2.value.stack[|b2|..])
  {
    LazyAbove(table, toplevel, b1, s1, x);
    LazyAbove(table, toplevel, b2, s2, x);
  }

  /** The outcome of expanding a lazy component on top of a segment above a base. */
  lemma LazyAbove(table: Table, toplevel: TypeId, b: seq<Entry>, s: Expansion, x: seq<Entry>)
    requires |x| > 0 && x[|x| - 1].LazyComponent?
    requires s.stack == b + x && Paired(s.stack) && LaziesKnown(table, s.stack)
    ensures var m := x[|x| - 1].id;
            var isNew := m !in s.expanded && m !in s.inProgress;
            var r := Step(table, toplevel, s);
            && (r.Err? <==> m !in s.expanded && m in s.inProgress)
            && (r.Err? ==> r.error == InstallLoop(toplevel, Markers(s.stack), m))
            && (r.Ok? ==>
                  && r.value.(stack := []) == (if isNew then s.(stack := [], inProgress := s.inProgress + {m}) else s.(stack := []))
                  && |b| <= |r.value.stack|
                  && r.value.stack[|b|..] == x[..|x| - 1] + (if isNew then [EndMarker(m)] + table[m] else []))
  {
  }

  /** What happens above the base depends on the base only through its end markers. */
  lemma {:induction false} RunAboveFrame(table: Table, toplevel: TypeId, b1: seq<Entry>, s1: Expansion, b2: seq<Entry>, s2: Expansion)
    requires OnBase(table, b1, s1) && OnBase(table, b2, s2)
    requires Markers(b1) == Markers(b2)
    requires s1.stack[|b1|..] == s2.stack[|b2|..]
    requires s1.(stack := []) == s2.(stack := [])
    ensures var r1 := RunAbove(table, toplevel, b1, s1);
            var r2 := RunAbove(table, toplevel, b2, s2);
            && r1.Err? == r2.Err?
            && (r1.Err? ==> r1.error == r2.error)
            && (r1.Ok? ==> r1.value.(stack := []) == r2.value.(stack := []))
    decreases Pending(table, s1), |s1.stack|
  {
    if |s1.stack| > |b1| {
      assert |s2.stack| > |b2|;
      StepKeepsInv(table, toplevel, s1);
      StepStaysOnBase(table, toplevel, b1, s1);
      StepStaysOnBase(table, toplevel, b2, s2);
      StepFrame(table, toplevel, b1, s1, b2, s2);
      var r1 := Step(table, toplevel, s1);
      var r2 := Step(table, toplevel, s2);
      if r1.Ok? {
        RunAboveFrame(table, toplevel, b1, r1.value, b2, r2.value);
      }
    } else {
      assert |s2.stack| == |b2|;
    }
  }

  /** Running above the base from a lone lazy component leaves that component fully expanded. */
  lemma RunAboveExpands(table: Table, toplevel: TypeId, base: seq<Entry>, s: Expansion, m: ModuleId)
    requires OnBase(table, base, s) && s.stack == base + [LazyComponent(m)]
    ensures var r := RunAbove(table, toplevel, base, s);
            r.Ok? ==> m in r.value.expanded
  {
  }

  /**
    Installing the same component twice in a row gives exactly the result of
    installing it once: the second occurrence finds it fully expanded and is
    dropped without touching anything.
   */
  lemma InstallTwiceIsIdempotent(table: Table, toplevel: TypeId, s: Expansion, m: ModuleId)
    requires Inv(table, s.(stack := s.stack + [LazyComponent(m)]))
    requires Inv(table, s.(stack := s.stack + [LazyComponent(m), LazyComponent(m)]))
    ensures Run(table, toplevel, s.(stack := s.stack + [LazyComponent(m), LazyComponent(m)]))
         == Run(table, toplevel, s.(stack := s.stack + [LazyComponent(m)]))
  {
    var b := s.stack;
    var lazy := LazyComponent(m);
    var twice := s.(stack := b + [lazy, lazy]);
    var once := s.(stack := b + [lazy]);
    assert twice.stack[..|b| + 1] == b + [lazy];
    assert once.stack[..|b|] == b;
    assert Paired(b + [lazy]);
    assert Paired(b);
    assert Paired([lazy]) by {
      assert [lazy][..0] == [];
    }
    assert twice.stack[|b| + 1..] == [lazy] == once.stack[|b|..];
    assert Markers(b + [lazy]) == Markers(b);
    SecondCopyAfterFirst(table, toplevel, b, m, twice, once);
  }

  /** The two runs split at the same point, and from there the second copy is dropped. */
  lemma SecondCopyAfterFirst(table: Table, toplevel: TypeId, b: seq<Entry>, m: ModuleId, twice: Expansion, once: Expansion)
    requires OnBase(table, b + [LazyComponent(m)], twice) && OnBase(table, b, once)
    requires twice.stack == b + [LazyComponent(m), LazyComponent(m)] && once == twice.(stack := b + [LazyComponent(m)])
    requires Markers(b + [LazyComponent(m)]) == Markers(b)
    ensures Run(table, toplevel, twice) == Run(table, toplevel, once)
  {
    var lazy := LazyComponent(m);
    assert twice.stack[|b| + 1..] == [lazy] == once.stack[|b|..];
    RunSplit(table, toplevel, b + [lazy], twice);
    RunSplit(table, toplevel, b, once);
    RunAboveFrame(table, toplevel, b + [lazy], twice, b, once);
    RunAboveExpands(table, toplevel, b + [lazy], twice, m);
    var r2 := RunAbove(table, toplevel, b + [lazy], twice);
    var r1 := RunAbove(table, toplevel, b, once);
    if r2.Ok? {
      var mid2 := r2.value;
      var mid1 := r1.value;
      assert mid1 == mid2.(stack := b);
      assert mid2.stack[..|mid2.stack| - 1] == b;
      LazyStep(table, toplevel, mid2);
    }
  }
}

/**
  What the expander computes, stated against the installation graph rather
  than against its own loop: the components it expands are exactly those
  reachable from the top level, the binding map, the hints, the multibinding
  pairs and the storage requests are drawn from the records those components
  push (each component counted once), and the two errors are backed by
  evidence in the graph.
 */
module Installation {
  import opened Entries
  import opened StackShape
  import opened Expander
  import opened Sums

  /** `b` is among the lazy components that `a`'s `addBindings` pushes. */
  predicate Link(table: Table, a: ModuleId, b: ModuleId)
  {
    a in table && LazyComponent(b) in table[a]
  }

  /** A chain of installations starting from a lazy component the top level pushes. */
  predicate InstallPath(table: Table, top: seq<Entry>, p: seq<ModuleId>)
  {
    && |p| > 0
    && LazyComponent(p[0]) in top
    && forall k :: 0 <= k < |p| - 1 ==> Link(table, p[k], p[k + 1])
  }

  /** The components reached by some chain of installations from the top level. */
  ghost function Reachable(table: Table, top: seq<Entry>): set<ModuleId>
  {
    set m | m in table.Keys && exists p :: InstallPath(table, top, p) && p[|p| - 1] == m
  }

  /** A set holding the top-level lazy components and every component one of its members pushes. */
  predicate Closed(table: Table, top: seq<Entry>, c: set<ModuleId>)
  {
    && (forall e :: e in top && e.LazyComponent? && e.id in table ==> e.id in c)
    && (forall a, b :: a in c && Link(table, a, b) && b in table ==> b in c)
  }

  lemma ReachableClosed(table: Table, top: seq<Entry>)
    ensures Closed(table, top, Reachable(table, top))
  {
    var r := Reachable(table, top);
    forall e | e in top && e.LazyComponent? && e.id in table
      ensures e.id in r
    {
      assert InstallPath(table, top, [e.id]);
    }
    forall a, b | a in r && Link(table, a, b) && b in table
      ensures b in r
    {
      var p :| InstallPath(table, top, p) && p[|p| - 1] == a;
      var q := p + [b];
      assert forall k :: 0 <= k < |p| ==> q[k] == p[k];
      assert InstallPath(table, top, q);
    }
  }

  /** `Reachable` is the least closed set. */
  lemma ReachableLeast(table: Table, top: seq<Entry>, c: set<ModuleId>)
    requires Closed(table, top, c)
    ensures Reachable(table, top) <= c
  {
    forall m | m in Reachable(table, top)
      ensures m in c
    {
      var p :| InstallPath(table, top, p) && p[|p| - 1] == m;
      PathEndsIn(table, top, c, p);
    }
  }

  lemma {:induction false} PathEndsIn(table: Table, top: seq<Entry>, c: set<ModuleId>, p: seq<ModuleId>)
    requires Closed(table, top, c) && InstallPath(table, top, p) && p[|p| - 1] in table
    ensures p[|p| - 1] in c
    decreases |p|
  {
    var n := |p|;
    if n > 1 {
      var q := p[..n - 1];
      assert forall k :: 0 <= k < n - 1 ==> q[k] == p[k];
      assert Link(table, p[n - 2], p[n - 1]);
      PathEndsIn(table, top, c, q);
    } else {
      assert LazyComponent(p[0]) in top;
    }
  }

  /** A record the top level pushes, or one pushed by the `addBindings` of a component in `started`. */
  predicate Introduced(table: Table, top: seq<Entry>, started: set<ModuleId>, e: Entry)
  {
    e in top || exists m :: m in started && m in table && e in table[m]
  }

  /** A record pushed by the top level or by a reachable component. */
  ghost predicate Installed(table: Table, top: seq<Entry>, e: Entry)
  {
    Introduced(table, top, Reachable(table, top), e)
  }

  /** Components whose expansion has begun. */
  function Started(s: Expansion): set<ModuleId>
  {
    s.inProgress + s.expanded
  }

  /**
    The records a stack position was pushed from: the top level when no end
    marker lies beneath it, otherwise the records of the component whose end
    marker is nearest beneath it.
   */
  function SourceOf(table: Table, top: seq<Entry>, below: seq<Entry>): seq<Entry>
  {
    var ms := Markers(below);
    if ms == [] then top
    else if ms[|ms| - 1] in table then table[ms[|ms| - 1]]
    else []
  }

  /** Position `i` of the stack, unless it is an end marker, holds a record of its source. */
  predicate SourcedAt(table: Table, top: seq<Entry>, stack: seq<Entry>, i: nat)
    requires i < |stack|
  {
    !stack[i].EndMarker? ==> stack[i] in SourceOf(table, top, stack[..i])
  }

  predicate Sourced(table: Table, top: seq<Entry>, stack: seq<Entry>)
  {
    forall i :: 0 <= i < |stack| ==> SourcedAt(table, top, stack, i)
  }

  /** Each component in progress was pushed by the one in progress beneath it, the first by the top level. */
  predicate Chain(table: Table, top: seq<Entry>, ms: seq<ModuleId>)
  {
    && (|ms| > 0 ==> LazyComponent(ms[0]) in top)
    && (forall k :: 0 <= k < |ms| ==> ms[k] in table)
    && (forall k :: 0 <= k < |ms| - 1 ==> Link(table, ms[k], ms[k + 1]))
  }

  /** Every lazy component introduced so far is still on the stack or has been started. */
  ghost predicate LaziesTracked(table: Table, top: seq<Entry>, s: Expansion)
  {
    forall e :: Introduced(table, top, Started(s), e) && e.LazyComponent? ==> e in s.stack || e.id in Started(s)
  }

  /**
    The binding map holds introduced bindings only, and every introduced
    binding already popped has its type in the map, consistently with the
    binding stored there.
   */
  ghost predicate BindingsTracked(table: Table, top: seq<Entry>, s: Expansion)
  {
    && (forall t :: t in s.bindings ==> Introduced(table, top, Started(s), BindingEntry(s.bindings[t])))
    && (forall e :: Introduced(table, top, Started(s), e) && e.BindingEntry? && e !in s.stack ==>
          e.binding.typeId in s.bindings && Consistent(s.bindings[e.binding.typeId].recipe, e.binding.recipe))
  }

  /** The record a stored hint for C was popped from. */
  function HintEntry(c: TypeId, info: CompressionInfo): Entry
  {
    CompressedEntry(info.iTypeId, c, info.createWithCompression)
  }

  /** Stored hints come from introduced records, and every introduced hint already popped is stored for its C. */
  ghost predicate HintsTracked(table: Table, top: seq<Entry>, s: Expansion)
  {
    && (forall c :: c in s.compressions ==> Introduced(table, top, Started(s), HintEntry(c, s.compressions[c])))
    && (forall e :: Introduced(table, top, Started(s), e) && e.CompressedEntry? && e !in s.stack ==> e.cTypeId in s.compressions)
  }

  /** Both halves of every pair are introduced records. */
  ghost predicate PairsIntroduced(table: Table, top: seq<Entry>, started: set<ModuleId>, pairs: seq<MultibindingPair>)
  {
    forall k :: 0 <= k < |pairs| ==>
      && Introduced(table, top, started, MultibindingEntry(pairs[k].element))
      && Introduced(table, top, started, VectorCreatorEntry(pairs[k].creator))
  }

  ghost predicate PairsTracked(table: Table, top: seq<Entry>, s: Expansion)
  {
    PairsIntroduced(table, top, Started(s), s.multibindings)
  }

  /** How many records of `s` satisfy `p`. */
  function Count(s: seq<Entry>, p: Entry -> bool): nat
    decreases |s|
  {
    if |s| == 0 then 0 else Count(s[..|s| - 1], p) + (if p(s[|s| - 1]) then 1 else 0)
  }

  lemma {:induction false} CountAppend(a: seq<Entry>, b: seq<Entry>, p: Entry -> bool)
    ensures Count(a + b, p) == Count(a, p) + Count(b, p)
    decreases |b|
  {
    if |b| == 0 {
      assert a + b == a;
    } else {
      var n := |b|;
      assert (a + b)[..|a + b| - 1] == a + b[..n - 1];
      assert (a + b)[|a + b| - 1] == b[n - 1];
      CountAppend(a, b[..n - 1], p);
    }
  }

  /** Per component, how many of the records its `addBindings` pushes satisfy `p`. */
  function Pushed(table: Table, p: Entry -> bool): ModuleId -> nat
  {
    m => if m in table then Count(table[m], p) else 0
  }

  /** A binding of `t` still to be constructed, with allocation mode `a`: one storage request when popped. */
  predicate IsRequest(t: TypeId, a: Alloc, e: Entry)
  {
    e.BindingEntry? && e.binding.typeId == t && e.binding.recipe.ToConstruct? && e.binding.recipe.alloc == a
  }

  function Requesting(t: TypeId, a: Alloc): Entry -> bool
  {
    e => IsRequest(t, a, e)
  }

  function IsElement(e: Entry): bool
  {
    e.MultibindingEntry?
  }

  /** The allocator's per-type counter for allocation mode `a`. */
  function Requested(data: AllocatorData, a: Alloc): multiset<TypeId>
  {
    if a.NeedsAllocation? then data.ownStorage else data.externals
  }

  /** Popping a binding adds one request to exactly the counter its type and mode name. */
  lemma AccountRequested(data: AllocatorData, b: Binding, t: TypeId, a: Alloc)
    ensures Requested(Account(data, b), a)[t] == Requested(data, a)[t] + (if IsRequest(t, a, BindingEntry(b)) then 1 else 0)
  {
  }

  /**
    Requests counted so far plus those still on the stack equal the initial
    counter plus the requests introduced by the top level and by every
    started component, each component once.
   */
  ghost predicate CountsAt(table: Table, top: seq<Entry>, alloc0: AllocatorData, s: Expansion, t: TypeId, a: Alloc)
  {
    Requested(s.allocator, a)[t] + Count(s.stack, Requesting(t, a))
      == Requested(alloc0, a)[t] + Count(top, Requesting(t, a)) + SetSum(Started(s), Pushed(table, Requesting(t, a)))
  }

  ghost predicate Counted(table: Table, top: seq<Entry>, alloc0: AllocatorData, s: Expansion)
  {
    && (forall t, a :: CountsAt(table, top, alloc0, s, t, a))
    && |s.multibindings| + Count(s.stack, IsElement) == Count(top, IsElement) + SetSum(Started(s), Pushed(table, IsElement))
  }

  /**
    The multibinding pairs a sequence of records forms, read from the top:
    each element with the vector creator adjacent to it.
   */
  function Units(s: seq<Entry>): multiset<MultibindingPair>
    decreases |s|
  {
    if |s| == 0 then multiset{}
    else
      var n := |s|;
      var x := s[n - 1];
      if n >= 2 && x.MultibindingEntry? && s[n - 2].VectorCreatorEntry? then
        Units(s[..n - 2]) + multiset{MultibindingPair(x.element, s[n - 2].creator)}
      else if n >= 2 && x.VectorCreatorEntry? && s[n - 2].MultibindingEntry? then
        Units(s[..n - 2]) + multiset{MultibindingPair(s[n - 2].element, x.creator)}
      else
        Units(s[..n - 1])
  }

  /** Per component, how often its `addBindings` pushes the pair `q`. */
  function PushedUnits(table: Table, q: MultibindingPair): ModuleId -> nat
  {
    m => if m in table then Units(table[m])[q] else 0
  }

  /**
    Pairs collected so far plus those still on the stack equal the pairs the
    top level and every started component push, each component once.
   */
  ghost predicate PairCountAt(table: Table, top: seq<Entry>, s: Expansion, q: MultibindingPair)
  {
    multiset(s.multibindings)[q] + Units(s.stack)[q] == Units(top)[q] + SetSum(Started(s), PushedUnits(table, q))
  }

  ghost predicate PairsCounted(table: Table, top: seq<Entry>, s: Expansion)
  {
    forall q :: PairCountAt(table, top, s, q)
  }

  /** Where the records on the stack come from, and which components have been reached. */
  ghost predicate TracksStack(table: Table, top: seq<Entry>, s: Expansion)
  {
    && Sourced(table, top, s.stack)
    && Chain(table, top, Markers(s.stack))
    && Started(s) <= Reachable(table, top)
    && LaziesTracked(table, top, s)
  }

  /** What has been collected so far, against the records introduced so far. */
  ghost predicate TracksCollected(table: Table, top: seq<Entry>, alloc0: AllocatorData, s: Expansion)
  {
    && BindingsTracked(table, top, s)
    && HintsTracked(table, top, s)
    && PairsTracked(table, top, s)
    && Counted(table, top, alloc0, s)
  }

  /** What the expander state says about the installation graph, on top of `Inv`. */
  ghost predicate Tracks(table: Table, top: seq<Entry>, alloc0: AllocatorData, s: Expansion)
  {
    TracksStack(table, top, s) && TracksCollected(table, top, alloc0, s) && PairsCounted(table, top, s)
  }

  /** Two introduced bindings of `t` that are not the same binding. */
  ghost predicate ConflictAmong(table: Table, top: seq<Entry>, started: set<ModuleId>, t: TypeId)
  {
    exists b1, b2 ::
      && Introduced(table, top, started, BindingEntry(b1))
      && Introduced(table, top, started, BindingEntry(b2))
      && b1.typeId == t && b2.typeId == t
      && !Consistent(b1.recipe, b2.recipe)
  }

  /** Two installed bindings of `t` that are not the same binding. */
  ghost predicate Conflict(table: Table, top: seq<Entry>, t: TypeId)
  {
    ConflictAmong(table, top, Reachable(table, top), t)
  }

  /**
    The evidence behind an installation loop: the trace is a chain of
    installations from the top level, and its last component pushes the
    repeated one, which already lies on the chain.
   */
  predicate LoopChain(table: Table, top: seq<Entry>, trace: seq<ModuleId>, m: ModuleId)
  {
    && Chain(table, top, trace)
    && |trace| > 0
    && Link(table, trace[|trace| - 1], m)
    && m in trace
  }

  lemma MarkersPrefix(s: seq<Entry>, k: nat)
    requires k <= |s|
    ensures Markers(s[..k]) <= Markers(s)
  {
    var a, b := s[..k], s[k..];
    assert a + b == s;
    MarkersAppend(a, b);
    var ms := Markers(a) + Markers(b);
    assert Markers(a) == ms[..|Markers(a)|];
  }

  lemma MarkerPush(rest: seq<Entry>, m: ModuleId)
    ensures Markers(rest + [EndMarker(m)]) == Markers(rest) + [m]
  {
    assert (rest + [EndMarker(m)])[..|rest|] == rest;
  }

  /** Every record on the stack other than an end marker has been introduced. */
  lemma StackIntroduced(table: Table, top: seq<Entry>, s: Expansion, i: int)
    requires s.inProgress == MarkerSet(s.stack) && Sourced(table, top, s.stack)
    requires 0 <= i < |s.stack| && !s.stack[i].EndMarker?
    ensures Introduced(table, top, Started(s), s.stack[i])
  {
    assert SourcedAt(table, top, s.stack, i);
    var ms := Markers(s.stack[..i]);
    if ms != [] {
      MarkersPrefix(s.stack, i);
      assert ms[|ms| - 1] in Markers(s.stack);
    }
  }

  /** Only the records of the top unit leave the stack when it is popped. */
  lemma Popped(stack: seq<Entry>, e: Entry)
    requires |stack| > 0 && TopUnit(stack) <= |stack|
    requires e in stack && e !in stack[..|stack| - TopUnit(stack)]
    ensures e == stack[|stack| - 1] || (TopUnit(stack) == 2 && e == stack[|stack| - 2])
  {
    var i :| 0 <= i < |stack| && stack[i] == e;
  }

  /** What an expansion keeps of the stack and what it pushes are both on the new stack. */
  lemma Expanded(rest: seq<Entry>, m: ModuleId, pushed: seq<Entry>, e: Entry)
    ensures e in rest ==> e in rest + [EndMarker(m)] + pushed
    ensures e in pushed ==> e in rest + [EndMarker(m)] + pushed
  {
    var next := rest + [EndMarker(m)] + pushed;
    if e in rest {
      var i :| 0 <= i < |rest| && rest[i] == e;
      assert next[i] == e;
    }
    if e in pushed {
      var i :| 0 <= i < |pushed| && pushed[i] == e;
      assert next[|rest| + 1 + i] == e;
    }
  }

  /** One more introduced record after `m` starts is either old or one of `m`'s own. */
  lemma IntroducedByStart(table: Table, top: seq<Entry>, started: set<ModuleId>, m: ModuleId, e: Entry)
    requires Introduced(table, top, started + {m}, e)
    ensures Introduced(table, top, started, e) || (m in table && e in table[m])
  {
  }

  /** `after` is `before` with `b` collected: stored if its type is new, otherwise consistent with the binding stored. */
  predicate Collects(before: map<TypeId, Binding>, b: Binding, after: map<TypeId, Binding>)
  {
    && after.Keys == before.Keys + {b.typeId}
    && KeepsBindings(before, after)
    && (b.typeId !in before ==> after[b.typeId] == b)
    && (b.typeId in before ==> Consistent(before[b.typeId].recipe, b.recipe))
  }

  /** `after` is `before` with one pair added, made of the two records on top of `stack`. */
  predicate PairPop(stack: seq<Entry>, before: seq<MultibindingPair>, after: seq<MultibindingPair>)
    requires |stack| >= 2
  {
    && |after| == |before| + 1
    && after[..|before|] == before
    && var e1 := MultibindingEntry(after[|before|].element);
       var e2 := VectorCreatorEntry(after[|before|].creator);
       || (e1 == stack[|stack| - 1] && e2 == stack[|stack| - 2])
       || (e1 == stack[|stack| - 2] && e2 == stack[|stack| - 1])
  }

  /** `next` is `s` with the lazy component on top expanded: it is started, and nothing is collected. */
  predicate Expands(table: Table, s: Expansion, next: Expansion)
  {
    && |s.stack| > 0
    && s.stack[|s.stack| - 1].LazyComponent?
    && var m := s.stack[|s.stack| - 1].id;
       && m in table && m !in Started(s)
       && next.stack == s.stack[..|s.stack| - 1] + [EndMarker(m)] + table[m]
       && Started(next) == Started(s) + {m}
       && next.bindings == s.bindings && next.compressions == s.compressions
       && next.multibindings == s.multibindings && next.allocator == s.allocator
  }

  /** `next` is `s` with its top unit popped and nothing started; a lazy component popped this way was started already. */
  predicate PopsUnit(s: Expansion, next: Expansion)
  {
    && |s.stack| > 0
    && TopUnit(s.stack) <= |s.stack|
    && next.stack == s.stack[..|s.stack| - TopUnit(s.stack)]
    && Started(next) == Started(s)
    && (s.stack[|s.stack| - 1].LazyComponent? ==> s.stack[|s.stack| - 1].id in Started(s))
    && (TopUnit(s.stack) == 2 ==> s.stack[|s.stack| - 2].MultibindingEntry? || s.stack[|s.stack| - 2].VectorCreatorEntry?)
  }

  /** The binding map and the allocator take in a popped binding, and change for nothing else. */
  predicate PopsBindings(s: Expansion, next: Expansion)
    requires |s.stack| > 0
  {
    var x := s.stack[|s.stack| - 1];
    if x.BindingEntry? then Collects(s.bindings, x.binding, next.bindings) && next.allocator == Account(s.allocator, x.binding)
    else next.bindings == s.bindings && next.allocator == s.allocator
  }

  /** The hint map takes in a popped hint, the last one for a given C winning, and changes for nothing else. */
  predicate PopsHints(s: Expansion, next: Expansion)
    requires |s.stack| > 0
  {
    var x := s.stack[|s.stack| - 1];
    next.compressions ==
      if x.CompressedEntry? then s.compressions[x.cTypeId := CompressionInfo(x.iTypeId, x.createWithCompression)]
      else s.compressions
  }

  /** The pairs grow by one when a multibinding unit is popped, and stay put otherwise. */
  predicate PopsPairs(s: Expansion, next: Expansion)
    requires |s.stack| > 0 && TopUnit(s.stack) <= |s.stack|
  {
    if TopUnit(s.stack) == 1 then next.multibindings == s.multibindings
    else PairPop(s.stack, s.multibindings, next.multibindings)
  }

  /** `next` is `s` with its top unit popped, each collection taking in only records of its own kind. */
  predicate Pops(s: Expansion, next: Expansion)
  {
    && PopsUnit(s, next)
    && PopsBindings(s, next)
    && PopsHints(s, next)
    && PopsPairs(s, next)
  }

  /** A successful step is an expansion of a component not yet started or a pop of the top unit. */
  lemma StepOutline(table: Table, toplevel: TypeId, s: Expansion)
    requires Inv(table, s) && |s.stack| > 0
    ensures var r := Step(table, toplevel, s);
            var x := s.stack[|s.stack| - 1];
            r.Ok? ==> if x.LazyComponent? && x.id !in s.expanded then Expands(table, s, r.value) else Pops(s, r.value)
  {
    var x := s.stack[|s.stack| - 1];
    if x.LazyComponent? {
      if x.id in s.expanded {
        DropOutline(table, toplevel, s);
      } else {
        ExpandOutline(table, toplevel, s);
      }
    } else if x.EndMarker? {
      MarkerOutline(table, toplevel, s);
    } else if x.BindingEntry? {
      BindingOutline(table, toplevel, s);
    } else if x.CompressedEntry? {
      HintOutline(table, toplevel, s);
    } else {
      PairOutline(table, toplevel, s);
    }
  }

  lemma ExpandOutline(table: Table, toplevel: TypeId, s: Expansion)
    requires |s.stack| > 0 && Paired(s.stack) && LaziesKnown(table, s.stack)
    requires var x := s.stack[|s.stack| - 1]; x.LazyComponent? && x.id !in s.expanded
    ensures var r := Step(table, toplevel, s);
            r.Ok? ==> Expands(table, s, r.value)
  {
  }

  lemma DropOutline(table: Table, toplevel: TypeId, s: Expansion)
    requires |s.stack| > 0 && Paired(s.stack) && LaziesKnown(table, s.stack)
    requires var x := s.stack[|s.stack| - 1]; x.LazyComponent? && x.id in s.expanded
    ensures var r := Step(table, toplevel, s);
            r.Ok? && Pops(s, r.value)
  {
  }

  lemma MarkerOutline(table: Table, toplevel: TypeId, s: Expansion)
    requires |s.stack| > 0 && Paired(s.stack) && LaziesKnown(table, s.stack) && s.inProgress == MarkerSet(s.stack)
    requires s.stack[|s.stack| - 1].EndMarker?
    ensures var r := Step(table, toplevel, s);
            r.Ok? && Pops(s, r.value)
  {
    assert s.stack[|s.stack| - 1].id in Markers(s.stack);
  }

  lemma BindingOutline(table: Table, toplevel: TypeId, s: Expansion)
    requires |s.stack| > 0 && Paired(s.stack) && LaziesKnown(table, s.stack)
    requires s.stack[|s.stack| - 1].BindingEntry?
    ensures var r := Step(table, toplevel, s);
            r.Ok? ==> Pops(s, r.value)
  {
    BindingStep(table, toplevel, s);
  }

  lemma HintOutline(table: Table, toplevel: TypeId, s: Expansion)
    requires |s.stack| > 0 && Paired(s.stack) && LaziesKnown(table, s.stack)
    requires s.stack[|s.stack| - 1].CompressedEntry?
    ensures var r := Step(table, toplevel, s);
            r.Ok? && Pops(s, r.value)
  {
  }

  lemma PairOutline(table: Table, toplevel: TypeId, s: Expansion)
    requires |s.stack| > 0 && Paired(s.stack) && LaziesKnown(table, s.stack)
    requires var x := s.stack[|s.stack| - 1]; x.MultibindingEntry? || x.VectorCreatorEntry?
    ensures var r := Step(table, toplevel, s);
            r.Ok? && Pops(s, r.value)
  {
    var n := |s.stack|;
    assert s.stack[n - 2].MultibindingEntry? || s.stack[n - 2].VectorCreatorEntry?;
  }

  lemma PrefixSourced(table: Table, top: seq<Entry>, stack: seq<Entry>, k: nat)
    requires k <= |stack| && Sourced(table, top, stack) && Chain(table, top, Markers(stack))
    ensures Sourced(table, top, stack[..k]) && Chain(table, top, Markers(stack[..k]))
  {
    SourcedPrefix(table, top, stack, k);
    MarkersPrefix(stack, k);
    PrefixChain(table, top, Markers(stack), Markers(stack[..k]));
  }

  lemma SourcedPrefix(table: Table, top: seq<Entry>, stack: seq<Entry>, k: nat)
    requires k <= |stack| && Sourced(table, top, stack)
    ensures Sourced(table, top, stack[..k])
  {
    var below := stack[..k];
    forall i | 0 <= i < k && !below[i].EndMarker?
      ensures SourcedAt(table, top, below, i)
    {
      assert SourcedAt(table, top, stack, i);
      assert below[..i] == stack[..i];
      assert below[i] == stack[i];
    }
  }

  lemma PrefixChain(table: Table, top: seq<Entry>, ms: seq<ModuleId>, ms': seq<ModuleId>)
    requires Chain(table, top, ms) && ms' <= ms
    ensures Chain(table, top, ms')
  {
    assert forall k :: 0 <= k < |ms'| ==> ms'[k] == ms[k];
  }

  /** The chain grows by a component pushed by the one in progress on top, or by the top level when none is. */
  lemma ChainSnoc(table: Table, top: seq<Entry>, ms: seq<ModuleId>, m: ModuleId)
    requires Chain(table, top, ms) && m in table
    requires ms == [] ==> LazyComponent(m) in top
    requires ms != [] ==> Link(table, ms[|ms| - 1], m)
    ensures Chain(table, top, ms + [m])
  {
    var ms' := ms + [m];
    forall k | 0 <= k < |ms'| - 1
      ensures Link(table, ms'[k], ms'[k + 1])
    {
      if k < |ms| - 1 {
        assert ms'[k] == ms[k] && ms'[k + 1] == ms[k + 1];
      }
    }
  }

  /** Every record an expansion of `m` pushes sits above `m`'s end marker and no other. */
  lemma PushedSource(table: Table, top: seq<Entry>, rest: seq<Entry>, m: ModuleId, j: nat)
    requires m in table && Markers(table[m]) == [] && j <= |table[m]|
    ensures SourceOf(table, top, rest + [EndMarker(m)] + table[m][..j]) == table[m]
  {
    MarkerPush(rest, m);
    MarkersAppend(rest + [EndMarker(m)], table[m][..j]);
    MarkersPrefix(table[m], j);
  }

  /** After expanding `m`, the chain grows by `m` and each pushed record is sourced from `m`. */
  lemma ExpandSourced(table: Table, top: seq<Entry>, stack: seq<Entry>, m: ModuleId)
    requires m in table && Markers(table[m]) == []
    requires |stack| > 0 && stack[|stack| - 1] == LazyComponent(m)
    requires Sourced(table, top, stack) && Chain(table, top, Markers(stack))
    ensures var next := stack[..|stack| - 1] + [EndMarker(m)] + table[m];
            Sourced(table, top, next) && Chain(table, top, Markers(next))
  {
    var n := |stack|;
    var rest := stack[..n - 1];
    PrefixSourced(table, top, stack, n - 1);
    assert SourcedAt(table, top, stack, n - 1);
    ExpandMarkers(table, rest, m);
    ChainSnoc(table, top, Markers(rest), m);
    ExpandKeepsSourced(table, top, rest, m);
  }

  lemma ExpandKeepsSourced(table: Table, top: seq<Entry>, rest: seq<Entry>, m: ModuleId)
    requires m in table && Markers(table[m]) == [] && Sourced(table, top, rest)
    ensures Sourced(table, top, rest + [EndMarker(m)] + table[m])
  {
    var next := rest + [EndMarker(m)] + table[m];
    var n := |rest|;
    forall i | 0 <= i < |next|
      ensures SourcedAt(table, top, next, i)
    {
      if i < n {
        assert SourcedAt(table, top, rest, i);
        assert next[..i] == rest[..i];
        assert next[i] == rest[i];
      } else if i > n {
        var j := i - n - 1;
        assert next[..i] == rest + [EndMarker(m)] + table[m][..j];
        PushedSource(table, top, rest, m, j);
        assert next[i] == table[m][j];
      }
    }
  }

  /** An installation loop is reported with the chain that leads back to the repeated component. */
  lemma StepLoopChain(table: Table, toplevel: TypeId, top: seq<Entry>, s: Expansion)
    requires Inv(table, s) && |s.stack| > 0
    requires Sourced(table, top, s.stack) && Chain(table, top, Markers(s.stack))
    ensures var r := Step(table, toplevel, s);
            r.Err? && r.error.InstallLoop? ==> LoopChain(table, top, r.error.trace, r.error.repeated)
  {
    var n := |s.stack|;
    var x := s.stack[n - 1];
    var r := Step(table, toplevel, s);
    if r.Err? && r.error.InstallLoop? {
      var rest := s.stack[..n - 1];
      assert Markers(s.stack) == Markers(rest);
      assert SourcedAt(table, top, s.stack, n - 1);
    }
  }

  /** An inconsistent binding is reported only with two introduced bindings of its type that disagree. */
  lemma StepConflict(table: Table, toplevel: TypeId, top: seq<Entry>, s: Expansion)
    requires Inv(table, s) && |s.stack| > 0 && Sourced(table, top, s.stack) && BindingsTracked(table, top, s)
    ensures var r := Step(table, toplevel, s);
            r.Err? && r.error.InconsistentBinding? ==> ConflictAmong(table, top, Started(s), r.error.typeId)
  {
    var n := |s.stack|;
    var x := s.stack[n - 1];
    if x.BindingEntry? {
      StackIntroduced(table, top, s, n - 1);
      BindingStep(table, toplevel, s);
      var r := Step(table, toplevel, s);
      if r.Err? {
        assert Introduced(table, top, Started(s), BindingEntry(s.bindings[x.binding.typeId]));
      }
    }
  }

  lemma LaziesAfterPop(table: Table, top: seq<Entry>, s: Expansion, next: Expansion)
    requires PopsUnit(s, next) && LaziesTracked(table, top, s)
    ensures LaziesTracked(table, top, next)
  {
    forall e | Introduced(table, top, Started(next), e) && e.LazyComponent?
      ensures e in next.stack || e.id in Started(next)
    {
      if e in s.stack && e !in next.stack {
        Popped(s.stack, e);
      }
    }
  }

  lemma LaziesAfterExpand(table: Table, top: seq<Entry>, s: Expansion, next: Expansion)
    requires Expands(table, s, next) && LaziesTracked(table, top, s)
    ensures LaziesTracked(table, top, next)
  {
    var n := |s.stack|;
    var m := s.stack[n - 1].id;
    forall e | Introduced(table, top, Started(next), e) && e.LazyComponent?
      ensures e in next.stack || e.id in Started(next)
    {
      Expanded(s.stack[..n - 1], m, table[m], e);
      IntroducedByStart(table, top, Started(s), m, e);
      if e in s.stack && e !in s.stack[..n - 1] {
        Popped(s.stack, e);
      }
    }
  }

  lemma BindingsAfterPop(table: Table, top: seq<Entry>, s: Expansion, next: Expansion)
    requires PopsUnit(s, next) && PopsBindings(s, next) && BindingsTracked(table, top, s)
    requires var x := s.stack[|s.stack| - 1]; x.BindingEntry? ==> Introduced(table, top, Started(s), x)
    ensures BindingsTracked(table, top, next)
  {
    forall e | Introduced(table, top, Started(next), e) && e.BindingEntry? && e !in next.stack
      ensures e.binding.typeId in next.bindings && Consistent(next.bindings[e.binding.typeId].recipe, e.binding.recipe)
    {
      if e in s.stack {
        Popped(s.stack, e);
      }
    }
  }

  lemma BindingsAfterExpand(table: Table, top: seq<Entry>, s: Expansion, next: Expansion)
    requires Expands(table, s, next) && BindingsTracked(table, top, s)
    ensures BindingsTracked(table, top, next)
  {
    var n := |s.stack|;
    var m := s.stack[n - 1].id;
    forall e | Introduced(table, top, Started(next), e) && e.BindingEntry? && e !in next.stack
      ensures e.binding.typeId in next.bindings && Consistent(next.bindings[e.binding.typeId].recipe, e.binding.recipe)
    {
      Expanded(s.stack[..n - 1], m, table[m], e);
      IntroducedByStart(table, top, Started(s), m, e);
      if e in s.stack {
        Popped(s.stack, e);
      }
    }
  }

  lemma HintsAfterPop(table: Table, top: seq<Entry>, s: Expansion, next: Expansion)
    requires PopsUnit(s, next) && PopsHints(s, next) && HintsTracked(table, top, s)
    requires var x := s.stack[|s.stack| - 1]; x.CompressedEntry? ==> Introduced(table, top, Started(s), x)
    ensures HintsTracked(table, top, next)
  {
    var x := s.stack[|s.stack| - 1];
    if x.CompressedEntry? {
      assert HintEntry(x.cTypeId, next.compressions[x.cTypeId]) == x;
    }
    forall e | Introduced(table, top, Started(next), e) && e.CompressedEntry? && e !in next.stack
      ensures e.cTypeId in next.compressions
    {
      if e in s.stack {
        Popped(s.stack, e);
      }
    }
  }

  lemma HintsAfterExpand(table: Table, top: seq<Entry>, s: Expansion, next: Expansion)
    requires Expands(table, s, next) && HintsTracked(table, top, s)
    ensures HintsTracked(table, top, next)
  {
    var n := |s.stack|;
    var m := s.stack[n - 1].id;
    forall e | Introduced(table, top, Started(next), e) && e.CompressedEntry? && e !in next.stack
      ensures e.cTypeId in next.compressions
    {
      Expanded(s.stack[..n - 1], m, table[m], e);
      IntroducedByStart(table, top, Started(s), m, e);
      if e in s.stack {
        Popped(s.stack, e);
      }
    }
  }

  lemma PairsAfterPop(table: Table, top: seq<Entry>, s: Expansion, next: Expansion)
    requires PopsUnit(s, next) && PopsPairs(s, next) && PairsTracked(table, top, s)
    requires s.inProgress == MarkerSet(s.stack) && Sourced(table, top, s.stack)
    ensures PairsTracked(table, top, next)
  {
    var n := |s.stack|;
    if TopUnit(s.stack) == 2 {
      StackIntroduced(table, top, s, n - 1);
      StackIntroduced(table, top, s, n - 2);
      PairsSnoc(table, top, Started(s), s.multibindings, next.multibindings);
    }
  }

  /** Adding a pair whose halves are introduced keeps every pair introduced. */
  lemma PairsSnoc(table: Table, top: seq<Entry>, started: set<ModuleId>, before: seq<MultibindingPair>, after: seq<MultibindingPair>)
    requires PairsIntroduced(table, top, started, before)
    requires |after| == |before| + 1 && after[..|before|] == before
    requires Introduced(table, top, started, MultibindingEntry(after[|before|].element))
    requires Introduced(table, top, started, VectorCreatorEntry(after[|before|].creator))
    ensures PairsIntroduced(table, top, started, after)
  {
    forall k | 0 <= k < |before|
      ensures after[k] == before[k]
    {
      assert after[..|before|][k] == before[k];
    }
  }

  /** Requests and multibinding elements are conserved by a pop: what leaves the stack is counted in. */
  lemma CountsAfterPop(table: Table, top: seq<Entry>, alloc0: AllocatorData, s: Expansion, next: Expansion)
    requires PopsUnit(s, next) && PopsBindings(s, next) && PopsPairs(s, next) && Counted(table, top, alloc0, s)
    ensures Counted(table, top, alloc0, next)
  {
    forall t, a
      ensures CountsAt(table, top, alloc0, next, t, a)
    {
      RequestsAfterPop(table, top, alloc0, s, next, t, a);
    }
    ElementsAfterPop(table, top, s, next);
  }

  lemma RequestsAfterPop(table: Table, top: seq<Entry>, alloc0: AllocatorData, s: Expansion, next: Expansion, t: TypeId, a: Alloc)
    requires PopsUnit(s, next) && PopsBindings(s, next) && CountsAt(table, top, alloc0, s, t, a)
    ensures CountsAt(table, top, alloc0, next, t, a)
  {
    var x := s.stack[|s.stack| - 1];
    CountAfterPop(s.stack, Requesting(t, a));
    if x.BindingEntry? {
      AccountRequested(s.allocator, x.binding, t, a);
    }
  }

  lemma ElementsAfterPop(table: Table, top: seq<Entry>, s: Expansion, next: Expansion)
    requires PopsUnit(s, next) && PopsPairs(s, next)
    requires |s.multibindings| + Count(s.stack, IsElement) == Count(top, IsElement) + SetSum(Started(s), Pushed(table, IsElement))
    ensures |next.multibindings| + Count(next.stack, IsElement) == Count(top, IsElement) + SetSum(Started(next), Pushed(table, IsElement))
  {
    var n := |s.stack|;
    CountAfterPop(s.stack, IsElement);
    if TopUnit(s.stack) == 2 {
      PairHalves(s.stack, s.multibindings, next.multibindings);
    }
  }

  /** Exactly one of the two records of a popped multibinding unit is the element. */
  lemma PairHalves(stack: seq<Entry>, before: seq<MultibindingPair>, after: seq<MultibindingPair>)
    requires |stack| >= 2 && PairPop(stack, before, after)
    ensures (if IsElement(stack[|stack| - 1]) then 1 else 0) + (if IsElement(stack[|stack| - 2]) then 1 else 0) == 1
  {
  }

  /** Counting over the stack splits into what a pop keeps and what it removes. */
  lemma CountAfterPop(stack: seq<Entry>, p: Entry -> bool)
    requires |stack| > 0 && TopUnit(stack) <= |stack|
    ensures var n := |stack|;
            Count(stack, p) == Count(stack[..n - TopUnit(stack)], p)
              + (if p(stack[n - 1]) then 1 else 0) + (if TopUnit(stack) == 2 && p(stack[n - 2]) then 1 else 0)
  {
    var n := |stack|;
    var u := TopUnit(stack);
    assert stack[..n - u] + stack[n - u..] == stack;
    CountAppend(stack[..n - u], stack[n - u..], p);
    CountPopped(stack, p);
  }

  /** How many of the popped records satisfy `p`. */
  lemma CountPopped(stack: seq<Entry>, p: Entry -> bool)
    requires |stack| > 0 && TopUnit(stack) <= |stack|
    ensures var n := |stack|;
            Count(stack[n - TopUnit(stack)..], p)
              == (if p(stack[n - 1]) then 1 else 0) + (if TopUnit(stack) == 2 && p(stack[n - 2]) then 1 else 0)
  {
    var n := |stack|;
    if TopUnit(stack) == 2 {
      assert stack[n - 2..] == [stack[n - 2], stack[n - 1]];
      CountTwo(stack[n - 2], stack[n - 1], p);
    } else {
      assert stack[n - 1..] == [stack[n - 1]];
      CountOne(stack[n - 1], p);
    }
  }

  lemma CountOne(x: Entry, p: Entry -> bool)
    ensures Count([x], p) == if p(x) then 1 else 0
  {
    assert [x][..0] == [];
  }

  lemma CountTwo(x: Entry, y: Entry, p: Entry -> bool)
    ensures Count([x, y], p) == (if p(x) then 1 else 0) + (if p(y) then 1 else 0)
  {
    assert [x, y][..1] == [x];
    CountOne(x, p);
  }

  /** Expanding a component moves its records onto the stack and into the per-component sum. */
  lemma CountsAfterExpand(table: Table, s: Expansion, next: Expansion, p: Entry -> bool, m: ModuleId)
    requires |s.stack| > 0 && s.stack[|s.stack| - 1] == LazyComponent(m) && !p(LazyComponent(m))
    requires m in table && m !in Started(s) && Started(next) == Started(s) + {m}
    requires next.stack == s.stack[..|s.stack| - 1] + [EndMarker(m)] + table[m] && !p(EndMarker(m))
    ensures Count(next.stack, p) + SetSum(Started(s), Pushed(table, p)) == Count(s.stack, p) + SetSum(Started(next), Pushed(table, p))
  {
    var rest := s.stack[..|s.stack| - 1];
    CountAppend(rest + [EndMarker(m)], table[m], p);
    assert (rest + [EndMarker(m)])[..|rest|] == rest;
    SetSumAdd(Started(s), Pushed(table, p), m);
  }

  lemma CountsAfterExpandAll(table: Table, top: seq<Entry>, alloc0: AllocatorData, s: Expansion, next: Expansion)
    requires Expands(table, s, next) && Counted(table, top, alloc0, s)
    ensures Counted(table, top, alloc0, next)
  {
    var m := s.stack[|s.stack| - 1].id;
    forall t, a
      ensures CountsAt(table, top, alloc0, next, t, a)
    {
      assert CountsAt(table, top, alloc0, s, t, a);
      CountsAfterExpand(table, s, next, Requesting(t, a), m);
    }
    CountsAfterExpand(table, s, next, IsElement, m);
  }

  /** A paired segment forms its own pairs, whatever lies beneath it. */
  lemma {:induction false} UnitsAppend(a: seq<Entry>, b: seq<Entry>)
    requires Paired(b)
    ensures Units(a + b) == Units(a) + Units(b)
    decreases |b|
  {
    if |b| == 0 {
      assert a + b == a;
    } else {
      var n := |b|;
      var x := b[n - 1];
      assert (a + b)[|a + b| - 1] == x;
      if x.MultibindingEntry? || x.VectorCreatorEntry? {
        assert (a + b)[..|a + b| - 2] == a + b[..n - 2];
        assert (a + b)[|a + b| - 2] == b[n - 2];
        UnitsAppend(a, b[..n - 2]);
      } else {
        assert (a + b)[..|a + b| - 1] == a + b[..n - 1];
        UnitsAppend(a, b[..n - 1]);
      }
    }
  }

  /** An end marker forms no pair. */
  lemma UnitsMarker(rest: seq<Entry>, m: ModuleId)
    ensures Units(rest + [EndMarker(m)]) == Units(rest)
  {
    assert (rest + [EndMarker(m)])[..|rest|] == rest;
  }

  /** Popping the top unit moves the pair it forms, if any, from the stack to the collected pairs. */
  lemma UnitsAfterPop(stack: seq<Entry>, before: seq<MultibindingPair>, after: seq<MultibindingPair>)
    requires |stack| > 0 && TopUnit(stack) <= |stack|
    requires TopUnit(stack) == 1 ==> after == before
    requires TopUnit(stack) == 2 ==> PairPop(stack, before, after)
    ensures multiset(after) + Units(stack[..|stack| - TopUnit(stack)]) == multiset(before) + Units(stack)
  {
    if TopUnit(stack) == 2 {
      assert after == before + [after[|before|]];
    }
  }

  lemma PairsCountedAfterPop(table: Table, top: seq<Entry>, s: Expansion, next: Expansion)
    requires PopsUnit(s, next) && PopsPairs(s, next) && PairsCounted(table, top, s)
    ensures PairsCounted(table, top, next)
  {
    UnitsAfterPop(s.stack, s.multibindings, next.multibindings);
    var moved := multiset(next.multibindings) + Units(next.stack);
    assert moved == multiset(s.multibindings) + Units(s.stack);
    forall q
      ensures PairCountAt(table, top, next, q)
    {
      assert PairCountAt(table, top, s, q);
      assert moved[q] == multiset(next.multibindings)[q] + Units(next.stack)[q];
    }
  }

  lemma PairsCountedAfterExpand(table: Table, top: seq<Entry>, s: Expansion, next: Expansion)
    requires ValidTable(table) && Expands(table, s, next) && PairsCounted(table, top, s)
    ensures PairsCounted(table, top, next)
  {
    var n := |s.stack|;
    var m := s.stack[n - 1].id;
    var rest := s.stack[..n - 1];
    assert ValidEntries(table, table[m]);
    UnitsAppend(rest + [EndMarker(m)], table[m]);
    UnitsMarker(rest, m);
    assert Units(s.stack) == Units(rest);
    assert Units(next.stack) == Units(rest) + Units(table[m]);
    forall q
      ensures PairCountAt(table, top, next, q)
    {
      assert PairCountAt(table, top, s, q);
      SetSumAdd(Started(s), PushedUnits(table, q), m);
      assert PushedUnits(table, q)(m) == Units(table[m])[q];
      assert Units(next.stack)[q] == Units(s.stack)[q] + Units(table[m])[q];
    }
  }

  /** The component an expansion starts is reachable. */
  lemma ReachAfterExpand(table: Table, top: seq<Entry>, s: Expansion, next: Expansion)
    requires Expands(table, s, next) && s.inProgress == MarkerSet(s.stack) && Sourced(table, top, s.stack)
    requires Started(s) <= Reachable(table, top)
    ensures Started(next) <= Reachable(table, top)
  {
    var x := s.stack[|s.stack| - 1];
    StackIntroduced(table, top, s, |s.stack| - 1);
    ReachableClosed(table, top);
    if x !in top {
      var m0 :| m0 in Started(s) && m0 in table && x in table[m0];
      assert Link(table, m0, x.id);
    }
    assert x.id in Reachable(table, top);
  }

  lemma PairsAfterExpand(table: Table, top: seq<Entry>, s: Expansion, next: Expansion)
    requires Expands(table, s, next) && PairsTracked(table, top, s)
    ensures PairsTracked(table, top, next)
  {
    forall k | 0 <= k < |next.multibindings|
      ensures Introduced(table, top, Started(next), MultibindingEntry(next.multibindings[k].element))
      ensures Introduced(table, top, Started(next), VectorCreatorEntry(next.multibindings[k].creator))
    {
      IntroducedMono(table, top, Started(s), Started(next), MultibindingEntry(s.multibindings[k].element));
      IntroducedMono(table, top, Started(s), Started(next), VectorCreatorEntry(s.multibindings[k].creator));
    }
  }

  lemma IntroducedMono(table: Table, top: seq<Entry>, a: set<ModuleId>, b: set<ModuleId>, e: Entry)
    requires a <= b && Introduced(table, top, a, e)
    ensures Introduced(table, top, b, e)
  {
  }

  lemma ExpandTracks(table: Table, top: seq<Entry>, alloc0: AllocatorData, s: Expansion, next: Expansion)
    requires ValidTable(table) && s.inProgress == MarkerSet(s.stack)
    requires Expands(table, s, next) && TracksStack(table, top, s)
    ensures TracksStack(table, top, next)
  {
    var m := s.stack[|s.stack| - 1].id;
    assert ValidEntries(table, table[m]);
    ExpandSourced(table, top, s.stack, m);
    ReachAfterExpand(table, top, s, next);
    LaziesAfterExpand(table, top, s, next);
  }

  lemma ExpandCollects(table: Table, top: seq<Entry>, alloc0: AllocatorData, s: Expansion, next: Expansion)
    requires Expands(table, s, next) && TracksCollected(table, top, alloc0, s)
    ensures TracksCollected(table, top, alloc0, next)
  {
    BindingsAfterExpand(table, top, s, next);
    HintsAfterExpand(table, top, s, next);
    PairsAfterExpand(table, top, s, next);
    CountsAfterExpandAll(table, top, alloc0, s, next);
  }

  lemma PopTracks(table: Table, top: seq<Entry>, s: Expansion, next: Expansion)
    requires PopsUnit(s, next) && TracksStack(table, top, s)
    ensures TracksStack(table, top, next)
  {
    PopKeepsShape(table, top, s.stack, next.stack);
    LaziesAfterPop(table, top, s, next);
  }

  lemma PopKeepsShape(table: Table, top: seq<Entry>, stack: seq<Entry>, below: seq<Entry>)
    requires |stack| > 0 && TopUnit(stack) <= |stack| && below == stack[..|stack| - TopUnit(stack)]
    requires Sourced(table, top, stack) && Chain(table, top, Markers(stack))
    ensures Sourced(table, top, below) && Chain(table, top, Markers(below))
  {
    PrefixSourced(table, top, stack, |stack| - TopUnit(stack));
  }

  lemma PopCollects(table: Table, top: seq<Entry>, alloc0: AllocatorData, s: Expansion, next: Expansion)
    requires s.inProgress == MarkerSet(s.stack) && Sourced(table, top, s.stack)
    requires Pops(s, next) && TracksCollected(table, top, alloc0, s)
    ensures TracksCollected(table, top, alloc0, next)
  {
    var n := |s.stack|;
    if !s.stack[n - 1].EndMarker? {
      StackIntroduced(table, top, s, n - 1);
    }
    BindingsAfterPop(table, top, s, next);
    HintsAfterPop(table, top, s, next);
    PairsAfterPop(table, top, s, next);
    CountsAfterPop(table, top, alloc0, s, next);
  }

  /** One step keeps every tracking fact and backs each error with evidence among the installed records. */
  lemma StepTracks(table: Table, toplevel: TypeId, top: seq<Entry>, alloc0: AllocatorData, s: Expansion)
    requires Inv(table, s) && |s.stack| > 0 && Tracks(table, top, alloc0, s)
    ensures var r := Step(table, toplevel, s);
            && (r.Ok? ==> Tracks(table, top, alloc0, r.value))
            && (r.Err? && r.error.InconsistentBinding? ==> Conflict(table, top, r.error.typeId))
            && (r.Err? && r.error.InstallLoop? ==> LoopChain(table, top, r.error.trace, r.error.repeated))
  {
    var x := s.stack[|s.stack| - 1];
    var r := Step(table, toplevel, s);
    StepOutline(table, toplevel, s);
    StepLoopChain(table, toplevel, top, s);
    StepConflict(table, toplevel, top, s);
    if r.Ok? {
      if x.LazyComponent? && x.id !in s.expanded {
        ExpandTracks(table, top, alloc0, s, r.value);
        ExpandCollects(table, top, alloc0, s, r.value);
        PairsCountedAfterExpand(table, top, s, r.value);
      } else {
        PopTracks(table, top, s, r.value);
        PopCollects(table, top, alloc0, s, r.value);
        PairsCountedAfterPop(table, top, s, r.value);
      }
    } else if r.error.InconsistentBinding? {
      ConflictGrows(table, top, Started(s), Reachable(table, top), r.error.typeId);
    }
  }

  lemma ConflictGrows(table: Table, top: seq<Entry>, a: set<ModuleId>, b: set<ModuleId>, t: TypeId)
    requires a <= b && ConflictAmong(table, top, a, t)
    ensures ConflictAmong(table, top, b, t)
  {
    var b1, b2 :| Introduced(table, top, a, BindingEntry(b1)) && Introduced(table, top, a, BindingEntry(b2))
                  && b1.typeId == t && b2.typeId == t && !Consistent(b1.recipe, b2.recipe);
    IntroducedMono(table, top, a, b, BindingEntry(b1));
    IntroducedMono(table, top, a, b, BindingEntry(b2));
  }

  /**
    The run keeps every tracking fact to the end; an inconsistent binding is
    reported only for two installed bindings of the type that disagree, and
    an installation loop only with the chain that closes the cycle.
   */
  lemma {:induction false} RunTracks(table: Table, toplevel: TypeId, top: seq<Entry>, alloc0: AllocatorData, s: Expansion)
    requires Inv(table, s) && Tracks(table, top, alloc0, s)
    ensures var r := Run(table, toplevel, s);
            && (r.Ok? ==> Tracks(table, top, alloc0, r.value))
            && (r.Err? && r.error.InconsistentBinding? ==> Conflict(table, top, r.error.typeId))
            && (r.Err? && r.error.InstallLoop? ==> LoopChain(table, top, r.error.trace, r.error.repeated))
    decreases Pending(table, s), |s.stack|
  {
    if |s.stack| > 0 {
      StepKeepsInv(table, toplevel, s);
      StepTracks(table, toplevel, top, alloc0, s);
      match Step(table, toplevel, s)
      case Err(_) =>
      case Ok(next) => RunTracks(table, toplevel, top, alloc0, next);
    }
  }

  /** The tracking facts hold before the first step. */
  lemma InitialTracks(table: Table, top: seq<Entry>, alloc0: AllocatorData)
    requires ValidTable(table) && ValidEntries(table, top)
    ensures Inv(table, Initial(top, alloc0)) && Tracks(table, top, alloc0, Initial(top, alloc0))
  {
    var s := Initial(top, alloc0);
    assert Started(s) == {};
    InitialSourced(table, top);
    InitialCollected(table, top, alloc0);
    forall q
      ensures PairCountAt(table, top, s, q)
    {
    }
  }

  lemma InitialCollected(table: Table, top: seq<Entry>, alloc0: AllocatorData)
    ensures TracksCollected(table, top, alloc0, Initial(top, alloc0))
  {
    var s := Initial(top, alloc0);
    assert Started(s) == {};
    forall t, a
      ensures CountsAt(table, top, alloc0, s, t, a)
    {
    }
  }

  lemma InitialSourced(table: Table, top: seq<Entry>)
    requires Markers(top) == []
    ensures Sourced(table, top, top) && Chain(table, top, Markers(top))
  {
    forall i | 0 <= i < |top|
      ensures SourcedAt(table, top, top, i)
    {
      MarkersPrefix(top, i);
      assert SourceOf(table, top, top[..i]) == top;
    }
  }

  /** Bindings keyed by the types of the installed bindings, each installed and consistent with every installed binding of its type. */
  ghost predicate BindingsOfInstalled(table: Table, top: seq<Entry>, bindings: map<TypeId, Binding>)
  {
    && (forall t :: t in bindings <==> exists b :: Installed(table, top, BindingEntry(b)) && b.typeId == t)
    && (forall t :: t in bindings ==> Installed(table, top, BindingEntry(bindings[t])))
    && (forall b :: Installed(table, top, BindingEntry(b)) ==> b.typeId in bindings && Consistent(bindings[b.typeId].recipe, b.recipe))
  }

  /** Hints keyed by the C of the installed hint records, each value taken from one of them. */
  ghost predicate HintsOfInstalled(table: Table, top: seq<Entry>, compressions: map<TypeId, CompressionInfo>)
  {
    && (forall c :: c in compressions ==> Installed(table, top, HintEntry(c, compressions[c])))
    && (forall e :: Installed(table, top, e) && e.CompressedEntry? ==> e.cTypeId in compressions)
  }

  /** Pairs whose both halves are installed records. */
  ghost predicate PairsOfInstalled(table: Table, top: seq<Entry>, pairs: seq<MultibindingPair>)
  {
    forall k :: 0 <= k < |pairs| ==>
      && Installed(table, top, MultibindingEntry(pairs[k].element))
      && Installed(table, top, VectorCreatorEntry(pairs[k].creator))
  }

  /** How often the top level and the reachable components push the pair `q`, each component once. */
  ghost function InstalledPairs(table: Table, top: seq<Entry>, q: MultibindingPair): nat
  {
    Units(top)[q] + SetSum(Reachable(table, top), PushedUnits(table, q))
  }

  /** The number of installed records satisfying `p`: the top level's, and each reachable component's once. */
  ghost function Installations(table: Table, top: seq<Entry>, p: Entry -> bool): nat
  {
    Count(top, p) + SetSum(Reachable(table, top), Pushed(table, p))
  }

  /** At the end of a successful run the started components are the reachable ones, so introduced means installed. */
  lemma FinishTracks(table: Table, top: seq<Entry>, alloc0: AllocatorData, s: Expansion)
    requires Inv(table, s) && Tracks(table, top, alloc0, s) && s.stack == [] && s.inProgress == {}
    ensures s.expanded == Reachable(table, top)
  {
    var c := Started(s);
    forall e | e in top && e.LazyComponent? && e.id in table
      ensures e.id in c
    {
      assert Introduced(table, top, c, e);
    }
    forall a, b | a in c && Link(table, a, b) && b in table
      ensures b in c
    {
      assert Introduced(table, top, c, LazyComponent(b));
    }
    ReachableLeast(table, top, c);
  }

  /**
    The expander started on the top-level records with empty maps and sets.
    On success it has expanded exactly the components reachable from the top
    level; the binding map has one binding per installed binding type, each
    consistent with every installed binding of its type; the hints and the
    multibinding pairs come from installed records; and each allocator
    counter has grown by one per installed binding of its type and mode,
    the records of every component counted once. An inconsistent binding is
    reported only for two installed bindings that disagree, and an
    installation loop only with the chain of installations that closes it.
   */
  function NormalizeBindingsHelper(table: Table, toplevelEntries: seq<Entry>, allocator: AllocatorData, toplevel: TypeId)
    : (r: Result<Expansion, NormalizationError>)
    requires ValidTable(table) && ValidEntries(table, toplevelEntries)
    ensures r.Ok? ==> r.value.stack == [] && r.value.inProgress == {} && KeyedByType(r.value.bindings)
    ensures r.Ok? ==> r.value.expanded == Reachable(table, toplevelEntries)
    ensures r.Ok? ==> BindingsOfInstalled(table, toplevelEntries, r.value.bindings)
    ensures r.Ok? ==> HintsOfInstalled(table, toplevelEntries, r.value.compressions)
    ensures r.Ok? ==> PairsOfInstalled(table, toplevelEntries, r.value.multibindings)
    ensures r.Ok? ==> |r.value.multibindings| == Installations(table, toplevelEntries, IsElement)
    ensures r.Ok? ==> forall q :: multiset(r.value.multibindings)[q] == InstalledPairs(table, toplevelEntries, q)
    ensures r.Ok? ==>
              forall t, a :: Requested(r.value.allocator, a)[t] == Requested(allocator, a)[t] + Installations(table, toplevelEntries, Requesting(t, a))
    ensures r.Err? && r.error.InconsistentBinding? ==> Conflict(table, toplevelEntries, r.error.typeId)
    ensures r.Err? && r.error.InstallLoop? ==>
              LoopChain(table, toplevelEntries, r.error.trace, r.error.repeated) && Distinct(r.error.trace)
  {
    var s := Initial(toplevelEntries, allocator);
    InitialTracks(table, toplevelEntries, allocator);
    RunTracks(table, toplevel, toplevelEntries, allocator, s);
    var r := Run(table, toplevel, s);
    if r.Ok? then
      Finish(table, toplevelEntries, allocator, r.value);
      r
    else
      r
  }

  /** What the final state of a successful run says about the installed records. */
  lemma Finish(table: Table, top: seq<Entry>, alloc0: AllocatorData, s: Expansion)
    requires Inv(table, s) && Tracks(table, top, alloc0, s) && s.stack == [] && s.inProgress == {}
    ensures s.expanded == Reachable(table, top)
    ensures BindingsOfInstalled(table, top, s.bindings)
    ensures HintsOfInstalled(table, top, s.compressions)
    ensures PairsOfInstalled(table, top, s.multibindings)
    ensures |s.multibindings| == Installations(table, top, IsElement)
    ensures forall q :: multiset(s.multibindings)[q] == InstalledPairs(table, top, q)
    ensures forall t, a :: Requested(s.allocator, a)[t] == Requested(alloc0, a)[t] + Installations(table, top, Requesting(t, a))
  {
    FinishTracks(table, top, alloc0, s);
    BindingsFinish(table, top, alloc0, s);
    CountsFinish(table, top, alloc0, s);
    PairsFinish(table, top, s);
  }

  lemma BindingsFinish(table: Table, top: seq<Entry>, alloc0: AllocatorData, s: Expansion)
    requires Inv(table, s) && Tracks(table, top, alloc0, s) && s.stack == [] && s.expanded == Reachable(table, top)
    requires s.inProgress == {}
    ensures BindingsOfInstalled(table, top, s.bindings)
    ensures HintsOfInstalled(table, top, s.compressions)
    ensures PairsOfInstalled(table, top, s.multibindings)
  {
    assert Started(s) == Reachable(table, top);
    forall t | t in s.bindings
      ensures exists b :: Installed(table, top, BindingEntry(b)) && b.typeId == t
    {
      assert Installed(table, top, BindingEntry(s.bindings[t]));
    }
  }

  lemma CountsFinish(table: Table, top: seq<Entry>, alloc0: AllocatorData, s: Expansion)
    requires Inv(table, s) && Tracks(table, top, alloc0, s) && s.stack == [] && s.expanded == Reachable(table, top)
    requires s.inProgress == {}
    ensures |s.multibindings| == Installations(table, top, IsElement)
    ensures forall t, a :: Requested(s.allocator, a)[t] == Requested(alloc0, a)[t] + Installations(table, top, Requesting(t, a))
  {
    assert Started(s) == Reachable(table, top);
    forall t, a
      ensures Requested(s.allocator, a)[t] == Requested(alloc0, a)[t] + Installations(table, top, Requesting(t, a))
    {
      assert CountsAt(table, top, alloc0, s, t, a);
    }
  }

  /** A closed chain of installations: each component pushes the next, and the last is the first. */
  predicate Cycle(table: Table, p: seq<ModuleId>)
  {
    && |p| > 1
    && p[0] == p[|p| - 1]
    && forall k :: 0 <= k < |p| - 1 ==> Link(table, p[k], p[k + 1])
  }

  /** The evidence of an installation loop is a cycle through a reachable component. */
  lemma LoopIsCycle(table: Table, top: seq<Entry>, trace: seq<ModuleId>, m: ModuleId)
    requires LoopChain(table, top, trace, m)
    ensures m in Reachable(table, top)
    ensures exists j :: 0 <= j < |trace| && trace[j] == m && Cycle(table, trace[j..] + [m])
  {
    var j :| 0 <= j < |trace| && trace[j] == m;
    var p := trace[..j + 1];
    assert forall k :: 0 <= k < |p| ==> p[k] == trace[k];
    assert InstallPath(table, top, p);
    var c := trace[j..] + [m];
    assert forall k :: 0 <= k < |c| - 1 ==> c[k] == trace[j + k];
    assert Cycle(table, c);
  }

  /** Two recipes consistent with a third are consistent with each other. */
  lemma ConsistentThrough(a: Recipe, b: Recipe, c: Recipe)
    requires Consistent(a, b) && Consistent(a, c)
    ensures Consistent(b, c)
  {
  }

  /** After a success, any two installed bindings of one type agree: there is no conflict. */
  lemma OkMeansAgreement(table: Table, top: seq<Entry>, allocator: AllocatorData, toplevel: TypeId, b1: Binding, b2: Binding)
    requires ValidTable(table) && ValidEntries(table, top)
    requires NormalizeBindingsHelper(table, top, allocator, toplevel).Ok?
    requires Installed(table, top, BindingEntry(b1)) && Installed(table, top, BindingEntry(b2)) && b1.typeId == b2.typeId
    ensures Consistent(b1.recipe, b2.recipe)
  {
    var r := NormalizeBindingsHelper(table, top, allocator, toplevel);
    ConsistentThrough(r.value.bindings[b1.typeId].recipe, b1.recipe, b2.recipe);
  }

  /**
    The expansion succeeds whenever the installed bindings of each type agree
    and no reachable component lies on an installation cycle.
   */
  lemma WellFormedSucceeds(table: Table, top: seq<Entry>, allocator: AllocatorData, toplevel: TypeId)
    requires ValidTable(table) && ValidEntries(table, top)
    requires forall t :: !Conflict(table, top, t)
    requires forall p :: Cycle(table, p) ==> p[0] !in Reachable(table, top)
    ensures NormalizeBindingsHelper(table, top, allocator, toplevel).Ok?
  {
    var r := NormalizeBindingsHelper(table, top, allocator, toplevel);
    if r.Err? && r.error.InstallLoop? {
      LoopIsCycle(table, top, r.error.trace, r.error.repeated);
      assert false;
    }
  }

  /** At the end of a successful run every collected pair is an installed unit, as often as it is installed. */
  lemma PairsFinish(table: Table, top: seq<Entry>, s: Expansion)
    requires PairsCounted(table, top, s) && s.stack == [] && Started(s) == Reachable(table, top)
    ensures forall q :: multiset(s.multibindings)[q] == InstalledPairs(table, top, q)
  {
    forall q
      ensures multiset(s.multibindings)[q] == InstalledPairs(table, top, q)
    {
      assert PairCountAt(table, top, s, q);
    }
  }

  /** One more lazy record counts for nothing and forms no pair. */
  lemma SnocLazy(s: seq<Entry>, m: ModuleId, p: Entry -> bool)
    requires !p(LazyComponent(m))
    ensures Count(s + [LazyComponent(m)], p) == Count(s, p)
    ensures Units(s + [LazyComponent(m)]) == Units(s)
  {
    assert (s + [LazyComponent(m)])[..|s|] == s;
  }

  /**
    Installing an already reachable component once more from the top level
    reaches nothing new, installs no other record and changes no count.
   */
  lemma ReinstallAtTop(table: Table, top: seq<Entry>, m: ModuleId, p: Entry -> bool, q: MultibindingPair)
    requires m in Reachable(table, top) && !p(LazyComponent(m))
    ensures var top' := top + [LazyComponent(m)];
            && Reachable(table, top') == Reachable(table, top)
            && (forall e: Entry :: !e.LazyComponent? ==> (Installed(table, top', e) <==> Installed(table, top, e)))
            && Installations(table, top', p) == Installations(table, top, p)
            && InstalledPairs(table, top', q) == InstalledPairs(table, top, q)
  {
    var top' := top + [LazyComponent(m)];
    var r := Reachable(table, top);
    ReachableClosed(table, top);
    forall e | e in top' && e.LazyComponent? && e.id in table
      ensures e.id in r
    {
      if e != LazyComponent(m) {
        assert e in top;
      }
    }
    assert Closed(table, top', r);
    ReachableLeast(table, top', r);
    var r' := Reachable(table, top');
    ReachableClosed(table, top');
    forall e | e in top && e.LazyComponent? && e.id in table
      ensures e.id in r'
    {
      assert e in top';
    }
    assert Closed(table, top, r');
    ReachableLeast(table, top, r');
    SnocLazy(top, m, p);
  }

  /**
    Installing an already reachable component once more from inside any
    reachable component reaches nothing new, installs no other record and
    changes no count.
   */
  lemma ReinstallInside(table: Table, top: seq<Entry>, a: ModuleId, m: ModuleId, p: Entry -> bool, q: MultibindingPair)
    requires a in Reachable(table, top) && m in Reachable(table, top) && !p(LazyComponent(m))
    ensures var table' := table[a := table[a] + [LazyComponent(m)]];
            && Reachable(table', top) == Reachable(table, top)
            && (forall e: Entry :: !e.LazyComponent? ==> (Installed(table', top, e) <==> Installed(table, top, e)))
            && Installations(table', top, p) == Installations(table, top, p)
            && InstalledPairs(table', top, q) == InstalledPairs(table, top, q)
  {
    var table' := table[a := table[a] + [LazyComponent(m)]];
    ReinstallInsideReach(table, top, a, m);
    var r := Reachable(table, top);
    forall e: Entry | !e.LazyComponent?
      ensures Installed(table', top, e) <==> Installed(table, top, e)
    {
      if e !in top {
        forall k | k in r && k in table && e in table[k]
          ensures k in table' && e in table'[k]
        {
          assert k == a ==> e in table[a] + [LazyComponent(m)];
        }
        forall k | k in r && k in table' && e in table'[k]
          ensures k in table && e in table[k]
        {
          if k == a {
            assert e in table[a] + [LazyComponent(m)];
          }
        }
      }
    }
    SnocLazy(table[a], m, p);
    SetSumAgree(r, Pushed(table', p), Pushed(table, p));
    SetSumAgree(r, PushedUnits(table', q), PushedUnits(table, q));
  }

  lemma ReinstallInsideReach(table: Table, top: seq<Entry>, a: ModuleId, m: ModuleId)
    requires a in Reachable(table, top) && m in Reachable(table, top)
    ensures Reachable(table[a := table[a] + [LazyComponent(m)]], top) == Reachable(table, top)
  {
    var table' := table[a := table[a] + [LazyComponent(m)]];
    var r := Reachable(table, top);
    ReachableClosed(table, top);
    forall x, b | x in r && Link(table', x, b) && b in table'
      ensures b in r
    {
      if x != a || b != m {
        assert LazyComponent(b) in table'[x];
        assert Link(table, x, b);
      }
    }
    assert Closed(table', top, r);
    ReachableLeast(table', top, r);
    var r' := Reachable(table', top);
    ReachableClosed(table', top);
    forall x, b | x in r' && Link(table, x, b) && b in table
      ensures b in r'
    {
      assert LazyComponent(b) in table'[x];
    }
    assert Closed(table, top, r');
    ReachableLeast(table, top, r');
  }
}

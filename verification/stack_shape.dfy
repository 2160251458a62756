/**
  Shape facts about the expansion stack. The top of the stack is the last
  element of the sequence.
 */
module StackShape {
  import opened Entries

  /**
    Read from the top, the stack splits into units: a multibinding element and
    its vector creator are always adjacent (in either order), and every other
    record stands alone.
   */
  predicate Paired(s: seq<Entry>)
    decreases |s|
  {
    if |s| == 0 then true
    else
      var top := s[|s| - 1];
      if top.MultibindingEntry? then
        |s| >= 2 && s[|s| - 2].VectorCreatorEntry? && Paired(s[..|s| - 2])
      else if top.VectorCreatorEntry? then
        |s| >= 2 && s[|s| - 2].MultibindingEntry? && Paired(s[..|s| - 2])
      else
        Paired(s[..|s| - 1])
  }

  /** Number of records one step of the expander pops from a non-empty stack. */
  function TopUnit(s: seq<Entry>): nat
    requires |s| > 0
  {
    var top := s[|s| - 1];
    if top.MultibindingEntry? || top.VectorCreatorEntry? then 2 else 1
  }

  /** Modules of the end markers on the stack, from bottom to top. */
  function Markers(s: seq<Entry>): seq<ModuleId>
    decreases |s|
  {
    if |s| == 0 then []
    else
      var top := s[|s| - 1];
      Markers(s[..|s| - 1]) + (if top.EndMarker? then [top.id] else [])
  }

  lemma {:induction false} PairedAppend(a: seq<Entry>, b: seq<Entry>)
    requires Paired(a) && Paired(b)
    ensures Paired(a + b)
    decreases |b|
  {
    if |b| == 0 {
      assert a + b == a;
    } else {
      var n := |b|;
      var top := b[n - 1];
      assert (a + b)[|a + b| - 1] == top;
      if top.MultibindingEntry? || top.VectorCreatorEntry? {
        assert (a + b)[..|a + b| - 2] == a + b[..n - 2];
        assert (a + b)[|a + b| - 2] == b[n - 2];
        PairedAppend(a, b[..n - 2]);
      } else {
        assert (a + b)[..|a + b| - 1] == a + b[..n - 1];
        PairedAppend(a, b[..n - 1]);
      }
    }
  }

  lemma {:induction false} MarkersAppend(a: seq<Entry>, b: seq<Entry>)
    ensures Markers(a + b) == Markers(a) + Markers(b)
    decreases |b|
  {
    if |b| == 0 {
      assert a + b == a;
    } else {
      var n := |b|;
      assert (a + b)[..|a + b| - 1] == a + b[..n - 1];
      assert (a + b)[|a + b| - 1] == b[n - 1];
      MarkersAppend(a, b[..n - 1]);
    }
  }

  /** The top unit of a paired stack lies inside any paired segment that ends at the top. */
  lemma TopUnitWithin(base: seq<Entry>, x: seq<Entry>)
    requires Paired(x) && |x| > 0
    ensures TopUnit(base + x) == TopUnit(x) <= |x|
  {
  }

  /** What popping the top unit of a paired stack leaves behind. */
  lemma PopShape(s: seq<Entry>)
    requires Paired(s) && |s| > 0
    ensures TopUnit(s) <= |s|
    ensures Paired(s[..|s| - TopUnit(s)])
    ensures s[|s| - 1].EndMarker? ==> Markers(s) == Markers(s[..|s| - 1]) + [s[|s| - 1].id]
    ensures !s[|s| - 1].EndMarker? ==> Markers(s[..|s| - TopUnit(s)]) == Markers(s)
  {
    var n := |s|;
    if TopUnit(s) == 2 {
      assert Paired(s[..n - 2]);
      assert s[..n - 1][..n - 2] == s[..n - 2];
      assert Markers(s[..n - 1]) == Markers(s[..n - 2]);
    } else {
      assert Paired(s[..n - 1]);
    }
  }

  lemma DistinctSnoc<T>(s: seq<T>, x: T)
    ensures Distinct(s + [x]) <==> Distinct(s) && x !in s
  {
    assert forall i :: 0 <= i < |s| ==> (s + [x])[i] == s[i];
    if x in s {
      var i :| 0 <= i < |s| && s[i] == x;
      assert (s + [x])[i] == (s + [x])[|s|];
    }
  }
}

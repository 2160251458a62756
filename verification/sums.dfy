/**
  Sums over finite sets, in no particular order: how the totals built by
  walking a hash container are described independently of its iteration
  order.
 */
module Sums {

  /** The sum of `f` over a finite set, in no particular order. */
  ghost function SetSum<K>(keys: set<K>, f: K -> nat): nat
    decreases keys
  {
    if keys == {} then 0
    else
      var k :| k in keys;
      f(k) + SetSum(keys - {k}, f)
  }

  /** The sum does not depend on which element is taken out first. */
  lemma {:induction false} SetSumRemove<K>(keys: set<K>, f: K -> nat, u: K)
    requires u in keys
    ensures SetSum(keys, f) == f(u) + SetSum(keys - {u}, f)
    decreases keys
  {
    var k :| k in keys && SetSum(keys, f) == f(k) + SetSum(keys - {k}, f);
    if k != u {
      SetSumRemove(keys - {k}, f, u);
      SetSumRemove(keys - {u}, f, k);
      assert keys - {k} - {u} == keys - {u} - {k};
    }
  }

  lemma SetSumAdd<K>(keys: set<K>, f: K -> nat, u: K)
    requires u !in keys
    ensures SetSum(keys + {u}, f) == SetSum(keys, f) + f(u)
  {
    SetSumRemove(keys + {u}, f, u);
    assert keys + {u} - {u} == keys;
  }

  /** Sums of two functions that agree on the set are equal. */
  lemma {:induction false} SetSumAgree<K>(keys: set<K>, f: K -> nat, g: K -> nat)
    requires forall k :: k in keys ==> f(k) == g(k)
    ensures SetSum(keys, f) == SetSum(keys, g)
    decreases keys
  {
    if keys != {} {
      var k :| k in keys;
      SetSumRemove(keys, f, k);
      SetSumRemove(keys, g, k);
      SetSumAgree(keys - {k}, f, g);
    }
  }
}

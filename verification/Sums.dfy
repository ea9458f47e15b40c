/** Finite sums of integer weights over a set of keys. */
module Sums {

  /** The weight of `x`, zero when the table has no entry. */
  function At<T>(w: map<T, int>, x: T): int {
    if x in w then w[x] else 0
  }

  ghost function Sum<T>(s: set<T>, w: map<T, int>): int {
    if s == {} then 0 else
      var x :| x in s;
      At(w, x) + Sum(s - {x}, w)
  }

  lemma {:induction false} SumRemove<T>(s: set<T>, w: map<T, int>, x: T)
    requires x in s
    ensures Sum(s, w) == At(w, x) + Sum(s - {x}, w)
    decreases s
  {
    var y :| y in s && Sum(s, w) == At(w, y) + Sum(s - {y}, w);
    if y != x {
      SumRemove(s - {y}, w, x);
      SumRemove(s - {x}, w, y);
      assert s - {y} - {x} == s - {x} - {y};
    }
  }

  lemma SumInsert<T>(s: set<T>, w: map<T, int>, x: T)
    requires x !in s
    ensures Sum(s + {x}, w) == At(w, x) + Sum(s, w)
  {
    SumRemove(s + {x}, w, x);
    assert s + {x} - {x} == s;
  }

  lemma {:induction false} SumCongruent<T>(s: set<T>, v: map<T, int>, w: map<T, int>)
    requires forall x :: x in s ==> At(v, x) == At(w, x)
    ensures Sum(s, v) == Sum(s, w)
    decreases s
  {
    if s != {} {
      var x :| x in s;
      SumRemove(s, v, x);
      SumRemove(s, w, x);
      SumCongruent(s - {x}, v, w);
    }
  }

  /** Changing one weight changes the sum by the difference, when the key is counted. */
  lemma SumBump<T>(s: set<T>, w: map<T, int>, x: T, v: int)
    ensures Sum(s, w[x := v]) == Sum(s, w) + (if x in s then v - At(w, x) else 0)
  {
    var u := w[x := v];
    if x in s {
      SumRemove(s, u, x);
      SumRemove(s, w, x);
      SumCongruent(s - {x}, u, w);
    } else {
      SumCongruent(s, u, w);
    }
  }

  lemma {:induction false} SumNonNegative<T>(s: set<T>, w: map<T, int>)
    requires forall x :: x in s ==> At(w, x) >= 0
    ensures Sum(s, w) >= 0
    ensures Sum(s, w) == 0 <==> forall x :: x in s ==> At(w, x) == 0
    decreases s
  {
    if s != {} {
      var x :| x in s;
      SumRemove(s, w, x);
      SumNonNegative(s - {x}, w);
      assert forall y :: y in s ==> y == x || y in s - {x};
    }
  }
}

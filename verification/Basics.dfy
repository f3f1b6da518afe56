/** Finite sets, by size. */
module Sets {
  lemma {:induction false} DisjointSizes<T>(a: set<T>, b: set<T>)
    requires a !! b
    ensures |a + b| == |a| + |b|
  {
  }

  lemma {:induction false} SubsetSize<T>(a: set<T>, b: set<T>)
    requires a <= b
    ensures |a| <= |b|
  {
    assert b == a + (b - a);
  }

  lemma {:induction false} AnElement<T>(a: set<T>) returns (x: T)
    requires |a| > 0
    ensures x in a
  {
    x :| x in a;
  }

  /** Adding one to every element keeps the size. */
  lemma {:induction false} Shifted(a: set<int>, b: set<int>)
    requires (forall i :: i in a ==> i + 1 in b) && (forall i :: i in b ==> i - 1 in a)
    ensures |b| == |a|
  {
    if |b| > 0 {
      var x := AnElement(b);
      Shifted(a - {x - 1}, b - {x});
      assert |a - {x - 1}| == |a| - 1;
    } else {
      assert forall i :: i in a ==> i + 1 in b;
      assert a == {};
    }
  }
}

module Integers {
  function Min(x: int, y: int): int { if x <= y then x else y }
  function Max(x: int, y: int): int { if x < y then y else x }
}

module Reals {
  function Abs(v: real): real { if v < 0.0 then -v else v }
  function Max(v: real, w: real): real { if v > w then v else w }
  function Min(v: real, w: real): real { if v < w then v else w }
  function Sqr(v: real): real { v * v }
}

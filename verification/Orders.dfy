/** Comparators as C callers pass them: the sign of cmp(a, b) says how a and b are ordered. */
module Orders {

  ghost predicate Consistent<T>(cmp: (T, T) -> int, a: T, b: T, c: T) {
    && (cmp(a, b) < 0 <==> cmp(b, a) > 0)
    && (cmp(a, b) <= 0 && cmp(b, c) <= 0 ==> cmp(a, c) <= 0)
  }

  /** A total order up to equivalence: values may compare as equal without being equal. */
  ghost predicate TotalOrder<T(!new)>(cmp: (T, T) -> int) {
    forall a, b, c :: Consistent(cmp, a, b, c)
  }

  lemma Chain<T(!new)>(cmp: (T, T) -> int, a: T, b: T, c: T)
    requires TotalOrder(cmp)
    ensures cmp(a, b) < 0 <==> cmp(b, a) > 0
    ensures cmp(a, b) <= 0 && cmp(b, c) <= 0 ==> cmp(a, c) <= 0
    ensures cmp(a, b) <= 0 && cmp(b, c) < 0 ==> cmp(a, c) < 0
    ensures cmp(a, b) < 0 && cmp(b, c) <= 0 ==> cmp(a, c) < 0
    ensures cmp(a, b) >= 0 && cmp(b, c) > 0 ==> cmp(a, c) > 0
    ensures cmp(a, b) > 0 && cmp(b, c) >= 0 ==> cmp(a, c) > 0
  {
    assert Consistent(cmp, a, b, c) && Consistent(cmp, b, c, a) && Consistent(cmp, c, a, b);
    assert Consistent(cmp, c, b, a) && Consistent(cmp, b, a, c) && Consistent(cmp, a, c, b);
  }

  lemma Equivalent<T(!new)>(cmp: (T, T) -> int, a: T, b: T, c: T)
    requires TotalOrder(cmp) && cmp(a, b) == 0 && cmp(a, c) == 0
    ensures cmp(b, c) == 0
  {
    Chain(cmp, a, b, a);
    Chain(cmp, a, c, a);
    Chain(cmp, b, a, c);
    Chain(cmp, c, a, b);
    Chain(cmp, b, c, b);
  }
}

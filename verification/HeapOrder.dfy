/**
 The order of an array heap, on the sequence of its keys: what may be wrong around one position
 while a key moves up or down, and what each exchange with the parent or a child repairs.
 */
module HeapOrder {
  import opened Orders
  import opened Powers

  type Comparator<!T> = (T, T) -> int

  /** The parent's position; integer division in C makes the root its own parent. */
  function ParentPos(pos: nat): nat { if pos == 0 then 0 else (pos - 1) / 2 }
  function LeftPos(pos: nat): nat { pos * 2 + 1 }
  function RightPos(pos: nat): nat { pos * 2 + 2 }

  lemma ChildPos(i: nat)
    ensures ParentPos(LeftPos(i)) == i && ParentPos(RightPos(i)) == i
    ensures i > 0 ==> ParentPos(i) < i && (i == LeftPos(ParentPos(i)) || i == RightPos(ParentPos(i)))
  {
  }

  ghost predicate Le<T>(cmp: Comparator<T>, ks: seq<T>, i: nat, j: nat)
    requires i < |ks| && j < |ks|
  {
    cmp(ks[i], ks[j]) <= 0
  }

  ghost predicate EdgeOk<T>(cmp: Comparator<T>, ks: seq<T>, i: nat)
    requires i < |ks|
  {
    Le(cmp, ks, ParentPos(i), i)
  }

  /** No key at or below the children of positions from lo on is above its parent's key. */
  ghost predicate HeapFrom<T>(cmp: Comparator<T>, ks: seq<T>, lo: nat) {
    forall i :: 0 < i < |ks| && ParentPos(i) >= lo ==> EdgeOk(cmp, ks, i)
  }

  ghost predicate IsHeap<T>(cmp: Comparator<T>, ks: seq<T>) {
    HeapFrom(cmp, ks, 0)
  }

  /** The children of pos are not below the parent of pos. */
  ghost predicate Bridged<T>(cmp: Comparator<T>, ks: seq<T>, pos: nat)
    requires pos < |ks|
  {
    forall i :: 0 < i < |ks| && ParentPos(i) == pos ==> Le(cmp, ks, ParentPos(pos), i)
  }

  /** A heap but for the edge above pos and, unless below holds, the edges below it. */
  ghost predicate UpOk<T>(cmp: Comparator<T>, ks: seq<T>, pos: nat, below: bool) {
    && pos < |ks|
    && (forall i :: 0 < i < |ks| && i != pos && (below || ParentPos(i) != pos) ==> EdgeOk(cmp, ks, i))
    && (pos > 0 ==> Bridged(cmp, ks, pos))
  }

  /** A heap from lo on but for the edges below pos. */
  ghost predicate DownOk<T>(cmp: Comparator<T>, ks: seq<T>, lo: nat, pos: nat) {
    && lo <= pos < |ks|
    && (forall i :: 0 < i < |ks| && ParentPos(i) >= lo && ParentPos(i) != pos ==> EdgeOk(cmp, ks, i))
    && (pos > 0 && ParentPos(pos) >= lo ==> Bridged(cmp, ks, pos))
  }

  /** Positions in the second half have no children. */
  lemma LeavesOk<T>(cmp: Comparator<T>, ks: seq<T>)
    ensures HeapFrom(cmp, ks, |ks| / 2)
  {
  }

  lemma StartDown<T>(cmp: Comparator<T>, ks: seq<T>, pos: nat)
    requires pos < |ks| && HeapFrom(cmp, ks, pos + 1)
    ensures DownOk(cmp, ks, pos, pos)
  {
  }

  function Swapped<T>(s: seq<T>, i: nat, j: nat): seq<T>
    requires i < |s| && j < |s|
  {
    s[i := s[j]][j := s[i]]
  }

  lemma SwappedSame<T>(s: seq<T>, i: nat, j: nat)
    requires i < |s| && j < |s|
    ensures multiset(Swapped(s, i, j)) == multiset(s)
  {
    assert multiset(s[i := s[j]]) == multiset(s) - multiset{s[i]} + multiset{s[j]};
  }

  lemma SwapUp<T(!new)>(cmp: Comparator<T>, ks: seq<T>, pos: nat, below: bool)
    requires TotalOrder(cmp) && UpOk(cmp, ks, pos, below) && pos > 0
    requires cmp(ks[pos], ks[ParentPos(pos)]) < 0
    ensures UpOk(cmp, Swapped(ks, pos, ParentPos(pos)), ParentPos(pos), true)
  {
    var p, ks' := ParentPos(pos), Swapped(ks, pos, ParentPos(pos));
    forall i | 0 < i < |ks| && i != p ensures EdgeOk(cmp, ks', i) {
      Chain(cmp, ks[pos], ks[p], ks[i]);
      assert ParentPos(i) == pos ==> Le(cmp, ks, p, i);
      assert i != pos && ParentPos(i) != pos ==> EdgeOk(cmp, ks, i);
    }
    if p > 0 {
      forall i | 0 < i < |ks| && ParentPos(i) == p ensures Le(cmp, ks', ParentPos(p), i) {
        assert EdgeOk(cmp, ks, p);
        assert i != pos ==> EdgeOk(cmp, ks, i);
        Chain(cmp, ks[ParentPos(p)], ks[p], ks[i]);
      }
    }
  }

  lemma StopUp<T(!new)>(cmp: Comparator<T>, ks: seq<T>, pos: nat, below: bool)
    requires TotalOrder(cmp) && UpOk(cmp, ks, pos, below)
    requires pos > 0 ==> cmp(ks[pos], ks[ParentPos(pos)]) >= 0
    ensures below ==> IsHeap(cmp, ks)
    ensures DownOk(cmp, ks, 0, pos)
  {
    Chain(cmp, ks[pos], ks[ParentPos(pos)], ks[pos]);
    assert pos > 0 ==> EdgeOk(cmp, ks, pos);
  }

  /** The child a key is compared with on its way down. */
  ghost predicate LeastChild<T>(cmp: Comparator<T>, ks: seq<T>, pos: nat, d: nat) {
    && pos < d < |ks| && (d == LeftPos(pos) || d == RightPos(pos))
    && (forall i :: 0 < i < |ks| && ParentPos(i) == pos ==> Le(cmp, ks, d, i))
  }

  lemma SwapDown<T(!new)>(cmp: Comparator<T>, ks: seq<T>, lo: nat, pos: nat, d: nat)
    requires TotalOrder(cmp) && DownOk(cmp, ks, lo, pos) && LeastChild(cmp, ks, pos, d)
    requires cmp(ks[d], ks[pos]) < 0
    ensures DownOk(cmp, Swapped(ks, pos, d), lo, d)
  {
    var ks' := Swapped(ks, pos, d);
    forall i | 0 < i < |ks| && ParentPos(i) >= lo && ParentPos(i) != d ensures EdgeOk(cmp, ks', i) {
      ChildPos(pos);
      assert ParentPos(i) == pos ==> Le(cmp, ks, d, i);
      assert i == pos ==> Le(cmp, ks, ParentPos(pos), d);
      assert ParentPos(i) != pos ==> EdgeOk(cmp, ks, i);
    }
    forall i | 0 < i < |ks| && ParentPos(i) == d ensures Le(cmp, ks', ParentPos(d), i) {
      ChildPos(pos);
      ChildPos(i);
      assert EdgeOk(cmp, ks, i);
    }
  }

  lemma StopDown<T(!new)>(cmp: Comparator<T>, ks: seq<T>, lo: nat, pos: nat, d: nat)
    requires TotalOrder(cmp) && DownOk(cmp, ks, lo, pos)
    requires LeftPos(pos) >= |ks| || (LeastChild(cmp, ks, pos, d) && cmp(ks[d], ks[pos]) >= 0)
    ensures HeapFrom(cmp, ks, lo)
  {
    forall i | 0 < i < |ks| && ParentPos(i) == pos ensures EdgeOk(cmp, ks, i) {
      ChildPos(i);
      assert Le(cmp, ks, d, i);
      Chain(cmp, ks[d], ks[pos], ks[d]);
      Chain(cmp, ks[pos], ks[d], ks[i]);
    }
  }

  /** The choice between two children, or the only one. */
  lemma ChosenLeast<T(!new)>(cmp: Comparator<T>, ks: seq<T>, pos: nat, d: nat)
    requires TotalOrder(cmp) && LeftPos(pos) < |ks|
    requires d == if RightPos(pos) < |ks| then
                    (if cmp(ks[LeftPos(pos)], ks[RightPos(pos)]) < 0 then LeftPos(pos) else RightPos(pos))
                  else LeftPos(pos)
    ensures LeastChild(cmp, ks, pos, d)
  {
    forall i | 0 < i < |ks| && ParentPos(i) == pos ensures Le(cmp, ks, d, i) {
      ChildPos(i);
      Chain(cmp, ks[d], ks[i], ks[d]);
      Chain(cmp, ks[d], ks[d], ks[d]);
    }
  }

  lemma {:induction false} RootLeast<T(!new)>(cmp: Comparator<T>, ks: seq<T>, i: nat)
    requires TotalOrder(cmp) && IsHeap(cmp, ks) && i < |ks|
    ensures cmp(ks[0], ks[i]) <= 0
  {
    Chain(cmp, ks[0], ks[0], ks[0]);
    if i > 0 {
      RootLeast(cmp, ks, ParentPos(i));
      assert EdgeOk(cmp, ks, i);
      Chain(cmp, ks[0], ks[ParentPos(i)], ks[i]);
    }
  }

  // ---------- Heaps that gain, lose or change one key ----------

  lemma Appended<T(!new)>(cmp: Comparator<T>, ks: seq<T>, k: T)
    requires IsHeap(cmp, ks)
    ensures UpOk(cmp, ks + [k], |ks|, true)
  {
    forall i | 0 < i < |ks| ensures EdgeOk(cmp, ks + [k], i) {
      assert EdgeOk(cmp, ks, i);
    }
  }

  lemma Shortened<T(!new)>(cmp: Comparator<T>, ks: seq<T>, n: nat)
    requires IsHeap(cmp, ks) && n <= |ks|
    ensures IsHeap(cmp, ks[..n])
  {
    forall i | 0 < i < n ensures EdgeOk(cmp, ks[..n], i) {
      assert EdgeOk(cmp, ks, i);
    }
  }

  lemma Replaced<T(!new)>(cmp: Comparator<T>, ks: seq<T>, pos: nat, k: T)
    requires TotalOrder(cmp) && IsHeap(cmp, ks) && pos < |ks|
    ensures UpOk(cmp, ks[pos := k], pos, false)
  {
    var ks' := ks[pos := k];
    forall i | 0 < i < |ks| && i != pos && ParentPos(i) != pos ensures EdgeOk(cmp, ks', i) {
      assert EdgeOk(cmp, ks, i);
    }
    if pos > 0 {
      forall i | 0 < i < |ks| && ParentPos(i) == pos ensures Le(cmp, ks', ParentPos(pos), i) {
        assert EdgeOk(cmp, ks, i) && EdgeOk(cmp, ks, pos);
        Chain(cmp, ks[ParentPos(pos)], ks[pos], ks[i]);
      }
    }
  }

  // ---------- How far keys can sink while a heap is built ----------

  /** The number of levels below position i in a heap of n positions. */
  function Levels(n: nat, i: nat): nat
    decreases n - i
  {
    if LeftPos(i) < n then 1 + Levels(n, LeftPos(i)) else 0
  }

  /** The left subtree is never the lower one. */
  lemma {:induction false} LevelsLeft(n: nat, i: nat)
    ensures Levels(n, i + 1) <= Levels(n, i)
    decreases n - i
  {
    if LeftPos(i + 1) < n {
      LevelsLeft(n, LeftPos(i));
      LevelsLeft(n, LeftPos(i) + 1);
    }
  }

  lemma LevelsShrink(n: nat, i: nat)
    ensures LeftPos(i) < n ==> Levels(n, LeftPos(i)) + 1 == Levels(n, i)
    ensures RightPos(i) < n ==> Levels(n, RightPos(i)) + 1 <= Levels(n, i)
  {
    LevelsLeft(n, LeftPos(i));
  }

  // ---------- Exchanges on one way ----------

  /** From the upper position to the lower one it is n steps down or more. */
  ghost predicate Apart(n: nat, upper: nat, lower: nat) { Pow2(n) * (upper + 1) <= lower + 1 }

  lemma NotApart(i: nat)
    ensures Apart(0, i, i)
  {
  }

  lemma OneUpApart(n: nat, pos: nat, lower: nat)
    requires pos > 0 && Apart(n, pos, lower)
    ensures Apart(n + 1, ParentPos(pos), lower)
  {
    Doubled(n, ParentPos(pos) + 1, pos + 1);
  }

  lemma OneDownApart(n: nat, upper: nat, pos: nat, child: nat)
    requires child > 0 && ParentPos(child) == pos && Apart(n, upper, pos)
    ensures Apart(n + 1, upper, child)
  {
    Pow2Next(n);
    Associate(2, Pow2(n), upper + 1);
  }

  lemma ApartBounds(n: nat, upper: nat, lower: nat)
    requires Apart(n, upper, lower)
    ensures Pow2(n) <= lower + 1
  {
    ProductGrows(Pow2(n), 1, upper + 1);
  }

  /** From one count to the other there are no more than the logarithm of the size. */
  ghost predicate Few(before: nat, after: nat, size: nat) {
    before <= after && Pow2(after - before) <= size
  }

  lemma FewMore(before: nat, after: nat, size: nat, more: nat)
    requires Few(before, after, size) && size <= more
    ensures Few(before, after, more)
  {
  }

  lemma FewNone(count: nat, size: nat)
    ensures size > 0 ==> Few(count, count, size)
  {
  }

  // ---------- Exchanges in the whole heap ----------

  function SumLevels(n: nat, lo: nat): nat
    decreases n - lo
  {
    if lo >= n then 0 else Levels(n, lo) + SumLevels(n, lo + 1)
  }

  lemma SumLevelsStep(n: nat, lo: nat)
    requires lo < n
    ensures SumLevels(n, lo) == Levels(n, lo) + SumLevels(n, lo + 1)
  {
  }

  lemma {:induction false} LevelsHalve(n: nat, i: nat)
    ensures Levels(n, i) == if i < n / 2 then 1 + Levels(n / 2, i) else 0
    decreases n - i
  {
    if LeftPos(i) < n {
      LevelsHalve(n, LeftPos(i));
    }
  }

  lemma {:induction false} SumLevelsHalve(n: nat, lo: nat)
    ensures SumLevels(n, lo) == if lo < n / 2 then (n / 2 - lo) + SumLevels(n / 2, lo) else 0
    decreases n - lo
  {
    if lo < n {
      LevelsHalve(n, lo);
      SumLevelsHalve(n, lo + 1);
    }
  }

  /** The levels below all positions together are fewer than the positions. */
  lemma {:induction false} SumLevelsLinear(n: nat)
    requires n > 0
    ensures SumLevels(n, 0) < n
  {
    SumLevelsHalve(n, 0);
    if n / 2 > 0 {
      SumLevelsLinear(n / 2);
    }
  }
}

/** A binary heap in a growing array, whose items may carry their own position in it. */
module BinaryHeap {
  import opened Orders
  import opened HeapOrder
  import opened Powers
  import opened Wrappers

  const BLOCK_SIZE := 128

  /** The capacity for n items: the next multiple of the block size above n. */
  function Capacity(n: nat): (size: nat)
    ensures n < size <= n + BLOCK_SIZE && size % BLOCK_SIZE == 0
  {
    n + BLOCK_SIZE - n % BLOCK_SIZE
  }

  /** An item: the key it is compared by, and the position its heap last recorded in it. */
  class Item<K> {
    var key: K
    var pos: int

    constructor (key: K)
      ensures this.key == key
    {
      this.key := key;
      pos := 0;
    }
  }

  ghost function Keys<K>(items: seq<Item<K>>): (ks: seq<K>)
    reads items
    ensures |ks| == |items| && forall i :: 0 <= i < |items| ==> ks[i] == items[i].key
  {
    seq(|items|, i requires 0 <= i < |items| reads items => items[i].key)
  }

  lemma KeysSwapped<K>(items: seq<Item<K>>, i: nat, j: nat)
    requires i < |items| && j < |items|
    ensures Keys(Swapped(items, i, j)) == Swapped(Keys(items), i, j)
  {
  }

  lemma AppendedItem<K(!new)>(cmp: Comparator<K>, items: seq<Item<K>>, item: Item<K>)
    requires IsHeap(cmp, Keys(items))
    ensures UpOk(cmp, Keys(items + [item]), |items|, true)
  {
    Appended(cmp, Keys(items), item.key);
    assert Keys(items + [item]) == Keys(items) + [item.key];
  }

  /** The items once position pos is taken by the last of them. */
  ghost function Filled<K>(items: seq<Item<K>>, pos: nat): seq<Item<K>>
    requires pos < |items|
  {
    items[pos := items[|items| - 1]][..|items| - 1]
  }

  lemma FilledItems<K>(items: seq<Item<K>>, pos: nat)
    requires pos < |items|
    ensures multiset(Filled(items, pos)) == multiset(items) - multiset{items[pos]}
  {
    var n := |items| - 1;
    var front, last := items[..n], items[n];
    assert items == front + [last];
    if pos < n {
      assert Filled(items, pos) == front[pos := last];
      assert multiset(front[pos := last]) == multiset(front) - multiset{front[pos]} + multiset{last};
      assert front[pos] in multiset(front);
    } else {
      assert Filled(items, pos) == front;
    }
  }

  /** No item in the heap has a key below the item's. */
  ghost predicate Least<K>(cmp: Comparator<K>, item: Item<K>, items: seq<Item<K>>)
    reads item`key, items`key
  {
    forall x :: x in items ==> cmp(item.key, x.key) <= 0
  }

  ghost predicate Ascending<K>(cmp: Comparator<K>, items: seq<Item<K>>)
    reads items`key
  {
    forall i, j :: 0 <= i < j < |items| ==> cmp(items[i].key, items[j].key) <= 0
  }

  /** The items taken so far are in order, and none is above one that is left. */
  ghost predicate Ahead<K>(cmp: Comparator<K>, taken: seq<Item<K>>, rest: seq<Item<K>>)
    reads taken`key, rest`key
    ensures Ahead(cmp, taken, rest) ==> Ascending(cmp, taken)
  {
    Ascending(cmp, taken) && forall x, y :: x in taken && y in rest ==> cmp(x.key, y.key) <= 0
  }

  lemma NothingAhead<K>(cmp: Comparator<K>, rest: seq<Item<K>>)
    ensures Ahead(cmp, [], rest)
  {
  }

  lemma LeastAhead<K>(cmp: Comparator<K>, taken: seq<Item<K>>, item: Item<K>, before: seq<Item<K>>, after: seq<Item<K>>)
    requires Ahead(cmp, taken, before) && item in before && Least(cmp, item, before)
    requires multiset(after) == multiset(before) - multiset{item}
    ensures Ahead(cmp, taken + [item], after)
    ensures multiset(taken + [item]) + multiset(after) == multiset(taken) + multiset(before)
    ensures forall y :: y in after ==> y in before
  {
    assert item in multiset(before);
    forall y | y in after ensures y in before && cmp(item.key, y.key) <= 0 {
      assert y in multiset(after);
      assert y in multiset(before);
    }
  }

  lemma FilledFits<K(!new)>(cmp: Comparator<K>, items: seq<Item<K>>, pos: nat)
    requires TotalOrder(cmp) && IsHeap(cmp, Keys(items)) && pos < |items|
    ensures pos < |items| - 1 ==> UpOk(cmp, Keys(Filled(items, pos)), pos, false)
    ensures pos == |items| - 1 ==> IsHeap(cmp, Keys(Filled(items, pos)))
  {
    var n := |items| - 1;
    Shortened(cmp, Keys(items), n);
    if pos < n {
      Replaced(cmp, Keys(items)[..n], pos, items[n].key);
      assert Keys(Filled(items, pos)) == Keys(items)[..n][pos := items[n].key];
    } else {
      assert Keys(Filled(items, pos)) == Keys(items)[..n];
    }
  }

  class Heap<K(!new)> {
    var heap: array<Item?<K>>
    var heapSize: int
    var size: nat
    const cmp: Comparator<K>
    var hasInfo: bool
    ghost var swaps: nat

    /** No gaps among the first size slots. */
    ghost predicate Slots()
      reads this, heap
    {
      && heapSize == heap.Length && size <= heapSize
      && forall i :: 0 <= i < size ==> heap[i] != null
    }

    /** The capacity is a whole number of blocks, and at most one block is free. */
    ghost predicate RightSize()
      reads this
    {
      heapSize % BLOCK_SIZE == 0 && heapSize <= size + BLOCK_SIZE
    }

    ghost function Items(): seq<Item<K>>
      reads this, heap
      requires Slots()
    {
      heap[..size]
    }

    /** Every item says where it is; so no item is in the heap twice. */
    ghost predicate Tracked()
      requires Slots()
      reads this, heap, Items()`pos
    {
      hasInfo ==> forall i :: 0 <= i < size ==> Items()[i].pos == i
    }

    ghost predicate Valid()
      reads this, heap, if Slots() then Items() else []
      ensures Valid() ==> Slots()
    {
      Slots() && RightSize() && Tracked() && TotalOrder(cmp) && IsHeap(cmp, Keys(Items()))
    }

    constructor (cmp: Comparator<K>)
      requires TotalOrder(cmp)
      ensures Valid() && Items() == [] && !hasInfo && fresh(heap) && this.cmp == cmp
    {
      swaps := 0;
      heap := new Item?<K>[BLOCK_SIZE];
      heapSize := BLOCK_SIZE;
      size := 0;
      this.cmp := cmp;
      hasInfo := false;
    }

    method Move(pos: nat, item: Item<K>)
      requires pos < heap.Length
      modifies heap, item`pos
      ensures heap[..] == old(heap[..])[pos := item]
      ensures item.pos == if hasInfo then pos else old(item.pos)
    {
      if hasInfo {
        item.pos := pos;
      }
      heap[pos] := item;
    }

    /** All items lie in S, the part of the heap's items that a method may touch. */
    ghost predicate Within(S: set<Item<K>>)
      requires Slots()
      reads this, heap
    {
      forall i :: 0 <= i < size ==> Items()[i] in S
    }

    /** An item changes places with its parent or child. */
    method MoveBoth(pos: nat, other: nat, ghost S: set<Item<K>>)
      requires Slots() && Tracked() && Within(S) && pos < size && other < size && pos != other
      modifies heap, S`pos, this`swaps
      ensures Slots() && Tracked() && Within(S)
      ensures Items() == Swapped(old(Items()), pos, other) && swaps == old(swaps) + 1
    {
      assert Items()[pos] in S && Items()[other] in S;
      var tmp := heap[other];
      Move(other, heap[pos]);
      Move(pos, tmp);
      swaps := swaps + 1;
    }

    method Exchange(pos: nat, other: nat, ghost S: set<Item<K>>)
      requires Slots() && Tracked() && Within(S) && pos < size && other < size && pos != other
      modifies heap, S`pos, this`swaps
      ensures Slots() && Tracked() && Within(S)
      ensures multiset(Items()) == multiset(old(Items()))
      ensures Keys(Items()) == Swapped(old(Keys(Items())), pos, other) && swaps == old(swaps) + 1
    {
      ghost var items := Items();
      SwappedSame(items, pos, other);
      MoveBoth(pos, other, S);
      KeysSwapped(items, pos, other);
      assert Keys(items) == old(Keys(items));
    }

    method StepUp(pos: nat, parent: nat, ghost S: set<Item<K>>, ghost below: bool)
      requires Slots() && Tracked() && Within(S) && 0 < pos < size && parent == ParentPos(pos)
      requires TotalOrder(cmp) && UpOk(cmp, Keys(Items()), pos, below)
      requires cmp(Keys(Items())[pos], Keys(Items())[parent]) < 0
      modifies heap, S`pos, this`swaps
      ensures Slots() && Tracked() && Within(S) && multiset(Items()) == multiset(old(Items()))
      ensures UpOk(cmp, Keys(Items()), parent, true) && swaps == old(swaps) + 1
    {
      SwapUp(cmp, Keys(Items()), pos, below);
      Exchange(pos, parent, S);
    }

    method StepDown(pos: nat, down: nat, ghost S: set<Item<K>>, ghost lo: nat)
      requires Slots() && Tracked() && Within(S) && pos < size
      requires TotalOrder(cmp) && DownOk(cmp, Keys(Items()), lo, pos)
      requires LeastChild(cmp, Keys(Items()), pos, down) && cmp(Keys(Items())[down], Keys(Items())[pos]) < 0
      modifies heap, S`pos, this`swaps
      ensures Slots() && Tracked() && Within(S) && multiset(Items()) == multiset(old(Items()))
      ensures DownOk(cmp, Keys(Items()), lo, down) && swaps == old(swaps) + 1
      ensures Levels(size, down) + 1 <= Levels(size, pos)
    {
      SwapDown(cmp, Keys(Items()), lo, pos, down);
      LevelsShrink(size, pos);
      Exchange(pos, down, S);
    }

    method Up(start: nat, ghost S: set<Item<K>>, ghost below: bool) returns (n: nat)
      requires Slots() && Tracked() && Within(S) && start < size
      requires TotalOrder(cmp) && UpOk(cmp, Keys(Items()), start, below)
      modifies heap, S`pos, this`swaps
      ensures Slots() && Tracked() && Within(S)
      ensures multiset(Items()) == multiset(old(Items()))
      ensures n == swaps - old(swaps) && Few(old(swaps), swaps, start + 1)
      ensures n > 0 || below ==> IsHeap(cmp, Keys(Items()))
      ensures n == 0 ==> Items() == old(Items()) && DownOk(cmp, Keys(Items()), 0, start)
    {
      hide Apart, TotalOrder, HeapFrom, UpOk, Pow2, Tracked, Within;
      var pos: nat, stop := start, false;
      n := 0;
      NotApart(start);
      while pos > 0 && !stop
        invariant Slots() && Tracked() && Within(S) && pos < size
        invariant multiset(Items()) == multiset(old(Items()))
        invariant UpOk(cmp, Keys(Items()), pos, below || n > 0)
        invariant n == swaps - old(swaps) && Apart(n, pos, start)
        invariant n == 0 ==> Items() == old(Items()) && pos == start
        invariant stop ==> pos > 0 && cmp(Keys(Items())[pos], Keys(Items())[ParentPos(pos)]) >= 0
        decreases pos, !stop
      {
        var parent := ParentPos(pos);
        if cmp(heap[pos].key, heap[parent].key) < 0 {
          StepUp(pos, parent, S, below || n > 0);
          OneUpApart(n, pos, start);
          pos := parent;
          n := n + 1;
        } else {
          stop := true;
        }
      }
      StopUp(cmp, Keys(Items()), pos, below || n > 0);
      ApartBounds(n, pos, start);
    }

    method Down(start: nat, ghost S: set<Item<K>>, ghost lo: nat) returns (n: nat)
      requires Slots() && Tracked() && Within(S) && start < size
      requires TotalOrder(cmp) && DownOk(cmp, Keys(Items()), lo, start)
      modifies heap, S`pos, this`swaps
      ensures Slots() && Tracked() && Within(S)
      ensures multiset(Items()) == multiset(old(Items()))
      ensures HeapFrom(cmp, Keys(Items()), lo)
      ensures n == swaps - old(swaps) <= Levels(size, start) && Few(old(swaps), swaps, size)
    {
      hide Apart, TotalOrder, HeapFrom, DownOk, Levels, Pow2, Tracked, Within;
      var pos: nat, stop, down: nat := start, false, 0;
      n := 0;
      NotApart(start);
      while !stop
        invariant Slots() && Tracked() && Within(S) && pos < size
        invariant multiset(Items()) == multiset(old(Items()))
        invariant DownOk(cmp, Keys(Items()), lo, pos)
        invariant stop ==> LeftPos(pos) >= size || Settled(pos, down)
        invariant n == swaps - old(swaps) && n + Levels(size, pos) <= Levels(size, start)
        invariant Apart(n, start, pos)
        decreases size - pos, !stop
      {
        var left, right := LeftPos(pos), RightPos(pos);
        down := if right < size then (if cmp(heap[left].key, heap[right].key) < 0 then left else right) else left;
        if down < size {
          ChosenLeast(cmp, Keys(Items()), pos, down);
          if cmp(heap[down].key, heap[pos].key) < 0 {
            StepDown(pos, down, S, lo);
            OneDownApart(n, start, pos, down);
            pos := down;
            n := n + 1;
          } else {
            stop := true;
          }
        } else {
          stop := true;
        }
      }
      StopDown(cmp, Keys(Items()), lo, pos, down);
      ApartBounds(n, start, pos);
    }

    ghost predicate Settled(pos: nat, down: nat)
      requires Slots() && pos < size
      reads this, heap, Items()
    {
      var ks := Keys(Items());
      LeastChild(cmp, ks, pos, down) && cmp(ks[down], ks[pos]) >= 0
    }

    method HipifyPos(pos: nat, ghost S: set<Item<K>>) returns (n: nat)
      requires Slots() && Tracked() && Within(S) && pos < size
      requires TotalOrder(cmp) && UpOk(cmp, Keys(Items()), pos, false)
      modifies heap, S`pos, this`swaps
      ensures Slots() && Tracked() && Within(S)
      ensures multiset(Items()) == multiset(old(Items()))
      ensures IsHeap(cmp, Keys(Items())) && n == swaps - old(swaps) && Few(old(swaps), swaps, size)
    {
      hide Few, TotalOrder, HeapFrom, UpOk, DownOk;
      n := Up(pos, S, false);
      FewMore(old(swaps), swaps, pos + 1, size);
      if n == 0 {
        n := Down(pos, S, 0);
      }
    }

    method Resize(n: nat)
      requires Slots() && n >= size
      modifies this`heap, this`heapSize
      ensures Slots() && Items() == old(Items())
      ensures heapSize == Capacity(n)
      ensures heap == old(heap) || fresh(heap)
    {
      var newSize := Capacity(n);
      if heapSize != newSize {
        var bigger := new Item?<K>[newSize];
        forall i | 0 <= i < size {
          bigger[i] := heap[i];
        }
        heap := bigger;
        heapSize := newSize;
      }
    }

    method Push(item: Item<K>)
      requires Slots() && RightSize() && Tracked() && (hasInfo ==> item !in Items())
      requires IsHeap(cmp, Keys(Items()))
      modifies this, heap, item`pos
      ensures Slots() && RightSize() && Tracked() && hasInfo == old(hasInfo) && swaps == old(swaps)
      ensures Items() == old(Items()) + [item]
      ensures UpOk(cmp, Keys(Items()), size - 1, true)
      ensures heap == old(heap) || fresh(heap)
    {
      AppendedItem(cmp, Items(), item);
      PushSlot(item);
    }

    method PushSlot(item: Item<K>)
      requires Slots() && RightSize() && Tracked() && (hasInfo ==> item !in Items())
      modifies this, heap, item`pos
      ensures Slots() && RightSize() && Tracked() && hasInfo == old(hasInfo) && swaps == old(swaps)
      ensures Items() == old(Items()) + [item]
      ensures Keys(Items()) == old(Keys(Items() + [item]))
      ensures heap == old(heap) || fresh(heap)
    {
      hide Capacity;
      if heapSize < size + 1 {
        Resize(size + 1);
      }
      Move(size, item);
      size := size + 1;
    }

    method Insert(item: Item<K>) returns (n: nat)
      requires Valid() && (hasInfo ==> item !in Items())
      modifies this, heap, Items()`pos, item`pos
      ensures Valid() && n == size && hasInfo == old(hasInfo)
      ensures multiset(Items()) == multiset(old(Items())) + multiset{item}
      ensures Few(old(swaps), swaps, size)
      ensures heap == old(heap) || fresh(heap)
    {
      hide TotalOrder, IsHeap, UpOk, Tracked, Few;
      ghost var items := Items();
      ghost var S := (set x | x in items) + {item};
      Push(item);
      var _ := Up(size - 1, S, true);
      n := size;
    }

    /** The item heap_shift would take. */
    function Min(): (r: Option<Item<K>>)
      requires Valid()
      reads this, heap, Items()
      ensures if size == 0 then r == None else r == Some(Items()[0])
      ensures r.Some? ==> r.value in Items() && Least(cmp, r.value, Items())
    {
      if size > 0 then
        FirstLeast();
        assert heap[0] == Items()[0];
        Some(heap[0])
      else None
    }

    lemma FirstLeast()
      requires Valid() && size > 0
      ensures Least(cmp, Items()[0], Items())
    {
      forall i | 0 <= i < size ensures cmp(Items()[0].key, Items()[i].key) <= 0 {
        RootLeast(cmp, Keys(Items()), i);
      }
    }

    /** Overwrites position pos with the last item and forgets the last position. */
    method Fill(pos: nat)
      requires Slots() && Tracked() && TotalOrder(cmp) && IsHeap(cmp, Keys(Items())) && pos < size
      modifies this`size, heap, Items()`pos
      ensures Slots() && Tracked() && size == old(size) - 1 && swaps == old(swaps)
      ensures forall x :: x in Items() ==> x in old(Items())
      ensures multiset(Items()) == multiset(old(Items())) - multiset{old(Items()[pos])}
      ensures pos < size ==> UpOk(cmp, Keys(Items()), pos, false)
    {
      FilledItems(Items(), pos);
      FilledFits(cmp, Items(), pos);
      FillSlot(pos);
    }

    method FillSlot(pos: nat)
      requires Slots() && Tracked() && pos < size
      modifies this`size, heap, Items()`pos
      ensures Slots() && Tracked() && size == old(size) - 1 && swaps == old(swaps)
      ensures Items() == old(Filled(Items(), pos))
      ensures Keys(Items()) == old(Keys(Filled(Items(), pos)))
    {
      size := size - 1;
      Move(pos, heap[size]);
    }

    method ShrinkIfSparse()
      requires Slots() && heapSize % BLOCK_SIZE == 0 && heapSize <= size + 1 + BLOCK_SIZE && Tracked()
      modifies this`heap, this`heapSize
      ensures Slots() && RightSize() && Tracked() && size == old(size) && swaps == old(swaps)
      ensures Items() == old(Items()) && Keys(Items()) == old(Keys(Items()))
      ensures heap == old(heap) || fresh(heap)
    {
      hide Capacity;
      if heapSize - size > BLOCK_SIZE {
        Resize(size);
      }
    }

    method TakeFirst()
      requires Slots() && Tracked() && TotalOrder(cmp) && IsHeap(cmp, Keys(Items())) && size > 0
      modifies this`size, this`swaps, heap, Items()`pos
      ensures Slots() && Tracked() && IsHeap(cmp, Keys(Items())) && size == old(size) - 1
      ensures multiset(Items()) == multiset(old(Items())) - multiset{old(Items()[0])}
      ensures Few(old(swaps), swaps, old(size))
    {
      hide UpOk, DownOk, TotalOrder, Few;
      FewNone(swaps, size);
      ghost var S := set x | x in Items();
      Fill(0);
      if size > 0 {  // in an empty heap heap_down does nothing
        StopUp(cmp, Keys(Items()), 0, false);
        var _ := Down(0, S, 0);
        FewMore(old(swaps), swaps, size, old(size));
      }
    }

    method TakeInner(pos: nat)
      requires Slots() && Tracked() && TotalOrder(cmp) && IsHeap(cmp, Keys(Items())) && pos < size - 1
      modifies this`size, this`swaps, heap, Items()`pos
      ensures Slots() && Tracked() && IsHeap(cmp, Keys(Items())) && size == old(size) - 1
      ensures multiset(Items()) == multiset(old(Items())) - multiset{old(Items()[pos])}
      ensures Few(old(swaps), swaps, old(size))
    {
      hide TotalOrder, IsHeap, UpOk, Tracked, Few;
      ghost var S := set x | x in Items();
      Fill(pos);
      var _ := HipifyPos(pos, S);
      FewMore(old(swaps), swaps, size, old(size));
    }

    method TakeLast()
      requires Slots() && Tracked() && TotalOrder(cmp) && IsHeap(cmp, Keys(Items())) && size > 0
      modifies this`size
      ensures Slots() && Tracked() && IsHeap(cmp, Keys(Items())) && size == old(size) - 1
      ensures multiset(Items()) == multiset(old(Items())) - multiset{old(Items()[size - 1])}
      ensures swaps == old(swaps)
    {
      hide TotalOrder, HeapFrom, UpOk;
      ghost var items := Items();
      FilledItems(items, size - 1);
      FilledFits(cmp, items, size - 1);
      size := size - 1;
      assert Items() == Filled(items, size);
    }

    method TakeAt(pos: nat)
      requires Slots() && Tracked() && TotalOrder(cmp) && IsHeap(cmp, Keys(Items())) && pos < size
      modifies this`size, this`swaps, heap, Items()`pos
      ensures Slots() && Tracked() && IsHeap(cmp, Keys(Items())) && size == old(size) - 1
      ensures multiset(Items()) == multiset(old(Items())) - multiset{old(Items()[pos])}
      ensures Few(old(swaps), swaps, old(size))
    {
      hide Few, TotalOrder, HeapFrom;
      FewNone(swaps, size);
      if pos == size - 1 {
        TakeLast();
      } else {
        TakeInner(pos);
      }
    }

    method Shift() returns (r: Option<Item<K>>)
      requires Valid()
      modifies this, heap, Items()`pos
      ensures Valid() && hasInfo == old(hasInfo)
      ensures heap == old(heap) || fresh(heap)
      ensures old(size) == 0 ==> r == None && Items() == []
      ensures old(size) > 0 ==>
        && r == Some(old(Items()[0])) && old(Least(cmp, Items()[0], Items())) && size == old(size) - 1
        && multiset(Items()) == multiset(old(Items())) - multiset{r.value}
      ensures if old(size) > 0 then Few(old(swaps), swaps, old(size)) else swaps == old(swaps)
    {
      hide TotalOrder, IsHeap, Few, Least;
      r := None;
      if size > 0 {
        FirstLeast();
        var item := TakeAndShrink();
        r := Some(item);
      }
    }

    /** Moves the first item to the end of a list. */
    method ShiftTo(taken: seq<Item<K>>, ghost S: set<Item<K>>) returns (more: seq<Item<K>>)
      requires Valid() && size > 0 && Ahead(cmp, taken, Items()) && forall y :: y in Items() ==> y in S
      modifies this, heap, S`pos
      ensures Valid() && hasInfo == old(hasInfo) && (heap == old(heap) || fresh(heap))
      ensures Ahead(cmp, more, Items()) && more == taken + [old(Items())[0]] && size < old(size)
      ensures forall y :: y in Items() ==> y in S
      ensures multiset(more) + multiset(Items()) == multiset(taken) + multiset(old(Items()))
    {
      hide Valid, Few, Ahead, Ascending, Least, Tracked, RightSize, Keys, TotalOrder, HeapFrom;
      FirstLeast();
      ghost var before := Items();
      var item := TakeAndShrink();
      more := taken + [item];
      LeastAhead(cmp, taken, item, before, Items());
    }

    /** Shifting until nothing is left. */
    method ShiftAll(ghost S: set<Item<K>>) returns (items: seq<Item<K>>)
      requires Valid() && forall y :: y in Items() ==> y in S
      modifies this, heap, S`pos
      ensures Valid() && Items() == [] && hasInfo == old(hasInfo) && (heap == old(heap) || fresh(heap))
      ensures multiset(items) == multiset(old(Items())) && Ascending(cmp, items)
    {
      hide Ahead, Ascending;
      items := [];
      NothingAhead(cmp, Items());
      while size > 0
        invariant Valid() && hasInfo == old(hasInfo) && (heap == old(heap) || fresh(heap))
        invariant forall y :: y in Items() ==> y in S
        invariant multiset(items) + multiset(Items()) == multiset(old(Items()))
        invariant Ahead(cmp, items, Items())
        decreases size
      {
        items := ShiftTo(items, S);
      }
    }

    method TakeAndShrink() returns (item: Item<K>)
      requires Valid() && size > 0
      modifies this, heap, Items()`pos
      ensures Valid() && hasInfo == old(hasInfo)
      ensures heap == old(heap) || fresh(heap)
      ensures item == old(Items()[0]) && size == old(size) - 1
      ensures multiset(Items()) == multiset(old(Items())) - multiset{item}
      ensures Few(old(swaps), swaps, old(size))
    {
      hide TotalOrder, IsHeap, Few;
      item := heap[0];
      TakeFirst();
      ShrinkIfSparse();
    }

    method DelPos(pos: int) returns (r: Option<Item<K>>)
      requires Valid()
      modifies this, heap, Items()`pos
      ensures Valid() && hasInfo == old(hasInfo)
      ensures heap == old(heap) || fresh(heap)
      ensures !(0 <= pos < old(size)) ==> r == None && Items() == old(Items())
      ensures 0 <= pos < old(size) ==>
        && r == Some(old(Items())[pos])
        && multiset(Items()) == multiset(old(Items())) - multiset{r.value}
      ensures if old(size) > 0 then Few(old(swaps), swaps, old(size)) else swaps == old(swaps)
    {
      hide TotalOrder, IsHeap, Few;
      FewNone(swaps, size);
      r := None;
      if 0 <= pos < size {
        r := Some(heap[pos]);
        TakeAt(pos);
        ShrinkIfSparse();
      }
    }

    /**
     Restores the order after the key of one item, which was `was`, has changed in any way.
     Without position information nothing happens.
     */
    method Hipify(item: Item<K>, ghost was: K) returns (r: Option<Item<K>>)
      requires Slots() && RightSize() && Tracked() && TotalOrder(cmp)
      requires hasInfo ==> item in Items() && IsHeap(cmp, Keys(Items())[item.pos := was])
      modifies heap, Items()`pos, this`swaps
      ensures Slots() && RightSize() && Tracked() && (hasInfo ==> Valid() && r == Some(item))
      ensures !hasInfo ==> r == None && Items() == old(Items())
      ensures multiset(Items()) == multiset(old(Items()))
      ensures if hasInfo then Few(old(swaps), swaps, size) else swaps == old(swaps)
    {
      if hasInfo {
        ghost var S := set x | x in Items();
        ghost var ks := Keys(Items());
        Replaced(cmp, ks[item.pos := was], item.pos, item.key);
        assert ks[item.pos := was][item.pos := item.key] == ks;
        var _ := HipifyPos(item.pos, S);
        return Some(item);
      }
      return None;
    }

    method Del(item: Item<K>) returns (r: Option<Item<K>>)
      requires Valid() && (hasInfo ==> item in Items())
      modifies this, heap, Items()`pos
      ensures Valid() && hasInfo == old(hasInfo)
      ensures heap == old(heap) || fresh(heap)
      ensures hasInfo ==> r == Some(item) && multiset(Items()) == multiset(old(Items())) - multiset{item}
      ensures !hasInfo ==> r == None && Items() == old(Items())
      ensures if old(size) > 0 then Few(old(swaps), swaps, old(size)) else swaps == old(swaps)
    {
      r := None;
      if hasInfo {
        r := DelPos(item.pos);
      }
    }

    /** Removes the first item, in the order of the array, that matches. */
    method DelItem(matches: (Item<K>, K) -> bool) returns (r: Option<Item<K>>, ghost at: nat)
      requires Valid()
      modifies this, heap, Items()`pos
      ensures Valid() && hasInfo == old(hasInfo)
      ensures heap == old(heap) || fresh(heap)
      ensures r == None ==>
        Items() == old(Items()) && forall i :: 0 <= i < size ==> !matches(Items()[i], old(Keys(Items()))[i])
      ensures r.Some? ==>
        && at < old(size) && r.value == old(Items())[at] && matches(r.value, old(Keys(Items()))[at])
        && (forall i :: 0 <= i < at ==> !matches(old(Items())[i], old(Keys(Items()))[i]))
        && multiset(Items()) == multiset(old(Items())) - multiset{r.value}
      ensures if old(size) > 0 then Few(old(swaps), swaps, old(size)) else swaps == old(swaps)
    {
      hide TotalOrder, IsHeap, Few;
      FewNone(swaps, size);
      r := None;
      at := 0;
      var i := 0;
      while i < size
        invariant i <= size
        invariant forall j :: 0 <= j < i ==> !matches(Items()[j], Keys(Items())[j])
      {
        if matches(heap[i], heap[i].key) {
          at := i;
          r := DelPos(i);
          return;
        }
        i := i + 1;
      }
    }

    /** Turns position information on or off; turning it on numbers the items. */
    method SetInfoAccessor(on: bool)
      requires Valid()
      requires on ==> forall i, j :: 0 <= i < j < size ==> Items()[i] != Items()[j]
      modifies this`hasInfo, Items()`pos
      ensures Valid() && hasInfo == on && Items() == old(Items())
    {
      hasInfo := on;
      if hasInfo {
        var i := 0;
        ghost var items := Items();
        while i < size
          invariant i <= size && hasInfo == on && Items() == items
          invariant forall j :: 0 <= j < i ==> items[j].pos == j
        {
          assert items[i] == heap[i];
          assert forall j :: 0 <= j < i ==> items[j] != items[i];
          heap[i].pos := i;
          i := i + 1;
        }
        assert Keys(Items()) == old(Keys(Items()));
      }
    }

    method BuildHeap() returns (n: nat)
      requires Slots() && Tracked() && TotalOrder(cmp)
      modifies heap, Items()`pos, this`swaps
      ensures Slots() && Tracked() && IsHeap(cmp, Keys(Items()))
      ensures multiset(Items()) == multiset(old(Items()))
      ensures n == swaps - old(swaps) && (size > 0 ==> n < size)
    {
      hide TotalOrder, HeapFrom, DownOk, SumLevels;
      n := 0;
      LeavesOk(cmp, Keys(Items()));
      ghost var S := set x | x in Items();
      if size > 1 {
        var i: nat := size / 2;
        while i > 0
          invariant i <= size / 2 && Slots() && Tracked() && Within(S)
          invariant multiset(Items()) == multiset(old(Items()))
          invariant HeapFrom(cmp, Keys(Items()), i)
          invariant n == swaps - old(swaps) && n <= SumLevels(size, i)
        {
          i := i - 1;
          StartDown(cmp, Keys(Items()), i);
          SumLevelsStep(size, i);
          var m := Down(i, S, i);
          n := n + m;
        }
        SumLevelsLinear(size);
      }
    }

    static method Build(cmp: Comparator<K>, items: array<Item<K>>) returns (h: Heap<K>)
      requires TotalOrder(cmp)
      modifies items[..]`pos
      ensures fresh(h) && fresh(h.heap) && h.cmp == cmp && !h.hasInfo
      ensures h.Valid() && multiset(h.Items()) == multiset(items[..])
    {
      h := new Heap(cmp);
      h.Load(items);
      var _ := h.BuildHeap();
    }

    /** A heap built from any array gives its items back in order. */
    static method BuildAndShift(cmp: Comparator<K>, items: array<Item<K>>) returns (sorted: seq<Item<K>>)
      requires TotalOrder(cmp)
      modifies items[..]`pos
      ensures multiset(sorted) == multiset(items[..]) && Ascending(cmp, sorted)
    {
      ghost var S := set x | x in items[..];
      var h := Build(cmp, items);
      forall x | x in h.Items() ensures x in S {
        assert x in multiset(h.Items());
      }
      sorted := h.ShiftAll(S);
    }

    method Load(items: array<Item<K>>)
      requires Slots() && size == 0 && !hasInfo
      modifies this, heap
      ensures Slots() && RightSize() && Items() == items[..] && hasInfo == old(hasInfo)
      ensures heap == old(heap) || fresh(heap)
    {
      Resize(items.Length);
      forall i | 0 <= i < items.Length {
        heap[i] := items[i];
      }
      size := items.Length;
    }

    /** Asked of any array of items, in heap order or not. */
    method CheckProperties() returns (ok: bool)
      requires Slots() && TotalOrder(cmp)
      ensures ok <==> Tracked() && IsHeap(cmp, Keys(Items()))
    {
      hide TotalOrder;
      ghost var ks := Keys(Items());
      var i: nat := 0;
      while i < size
        invariant i <= size
        invariant hasInfo ==> forall j :: 0 <= j < i ==> Items()[j].pos == j
        invariant forall j :: 0 < j < size && ParentPos(j) < i ==> EdgeOk(cmp, ks, j)
      {
        assert Items()[i] == heap[i];
        if hasInfo {
          if heap[i].pos != i {
            return false;
          }
        }
        var parent := ParentPos(i);
        if parent > 0 && !(cmp(heap[parent].key, heap[i].key) <= 0) {
          return false;
        }
        var left := LeftPos(i);
        ChildPos(i);
        if left < size && !(cmp(heap[left].key, heap[i].key) >= 0) {
          Chain(cmp, ks[left], ks[i], ks[i]);
          assert !EdgeOk(cmp, ks, left);
          return false;
        }
        var right := RightPos(i);
        if right < size && !(cmp(heap[right].key, heap[i].key) >= 0) {
          Chain(cmp, ks[right], ks[i], ks[i]);
          assert !EdgeOk(cmp, ks, right);
          return false;
        }
        forall j | 0 < j < size && ParentPos(j) == i ensures EdgeOk(cmp, ks, j) {
          ChildPos(j);
          Chain(cmp, ks[j], ks[i], ks[j]);
        }
        i := i + 1;
      }
      return true;
    }
  }
}

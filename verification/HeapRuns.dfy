/** Runs of operations on one heap with position information, against a bag of items with their keys. */
module HeapRuns {
  import opened Wrappers
  import opened Orders
  import opened HeapOrder
  import opened BinaryHeap

  /** Inserting an item with a key, taking a least item, changing an item's key, taking an item out. */
  datatype Op<!K> = Insert(item: Item<K>, key: K) | Shift | Rekey(item: Item<K>, key: K) | Delete(item: Item<K>)

  /** What the heap holds: each item with its key. */
  ghost function Bag<K>(items: seq<Item<K>>): map<Item<K>, K>
    reads items`key
  {
    map x | x in items :: x.key
  }

  /** The answers an operation may give; an item that is there, or is not, is passed over where that matters. */
  ghost predicate Fits<K>(cmp: Comparator<K>, bag: map<Item<K>, K>, op: Op<K>, reply: Option<Item<K>>) {
    match op
    case Insert(x, _) => reply == if x in bag then None else Some(x)
    case Shift =>
      if reply == None then bag == map[]
      else reply.value in bag && forall y :: y in bag ==> cmp(bag[reply.value], bag[y]) <= 0
    case Rekey(x, _) => reply == if x in bag then Some(x) else None
    case Delete(x) => reply == if x in bag then Some(x) else None
  }

  ghost function Next<K>(bag: map<Item<K>, K>, op: Op<K>, reply: Option<Item<K>>): map<Item<K>, K> {
    if reply == None then bag
    else
      match op
      case Insert(x, k) => bag[x := k]
      case Shift => bag - {reply.value}
      case Rekey(x, k) => bag[x := k]
      case Delete(x) => bag - {x}
  }

  ghost predicate AllFit<K>(cmp: Comparator<K>, bag: map<Item<K>, K>,
          ops: seq<Op<K>>, replies: seq<Option<Item<K>>>)
    decreases |ops|
  {
    && |replies| == |ops|
    && (ops != [] ==>
          Fits(cmp, bag, ops[0], replies[0]) && AllFit(cmp, Next(bag, ops[0], replies[0]), ops[1..], replies[1..]))
  }

  ghost function Outcome<K>(bag: map<Item<K>, K>, ops: seq<Op<K>>, replies: seq<Option<Item<K>>>): map<Item<K>, K>
    requires |replies| == |ops|
    decreases |ops|
  {
    if ops == [] then bag else Outcome(Next(bag, ops[0], replies[0]), ops[1..], replies[1..])
  }

  ghost predicate Mentions<K>(op: Op<K>, x: Item<K>) { !op.Shift? && op.item == x }

  // ---------- What a bag keeps ----------

  ghost function One<K>(x: Option<Item<K>>): multiset<Item<K>> {
    match x
    case None => multiset{}
    case Some(x) => multiset{x}
  }

  /** The items that were put in, and those that were given back. */
  ghost function Came<K>(ops: seq<Op<K>>, replies: seq<Option<Item<K>>>): multiset<Item<K>>
    requires |replies| == |ops|
    decreases |ops|
  {
    if ops == [] then multiset{}
    else (if ops[0].Insert? then One(replies[0]) else multiset{}) + Came(ops[1..], replies[1..])
  }

  ghost function Went<K>(ops: seq<Op<K>>, replies: seq<Option<Item<K>>>): multiset<Item<K>>
    requires |replies| == |ops|
    decreases |ops|
  {
    if ops == [] then multiset{}
    else (if ops[0].Shift? || ops[0].Delete? then One(replies[0]) else multiset{}) + Went(ops[1..], replies[1..])
  }

  /** One operation moves one item at most. */
  lemma MovesOne<K>(cmp: Comparator<K>, bag: map<Item<K>, K>, op: Op<K>, reply: Option<Item<K>>)
    requires Fits(cmp, bag, op, reply)
    ensures multiset(bag.Keys) + (if op.Insert? then One(reply) else multiset{})
         == multiset(Next(bag, op, reply).Keys) + (if op.Shift? || op.Delete? then One(reply) else multiset{})
  {
    var next := Next(bag, op, reply);
    if reply != None {
      if op.Insert? {
        assert next.Keys == bag.Keys + {reply.value};
      } else if op.Rekey? {
        assert next.Keys == bag.Keys;
      } else {
        assert next.Keys == bag.Keys - {reply.value};
      }
    }
  }

  /** Nothing is lost or made up: what was there and what came is what is left and what went. */
  lemma {:induction false} Conserved<K>(cmp: Comparator<K>, bag: map<Item<K>, K>,
          ops: seq<Op<K>>, replies: seq<Option<Item<K>>>)
    requires AllFit(cmp, bag, ops, replies)
    ensures multiset(bag.Keys) + Came(ops, replies) == multiset(Outcome(bag, ops, replies).Keys) + Went(ops, replies)
    decreases |ops|
  {
    hide Fits, Next, One;
    if ops != [] {
      var next := Next(bag, ops[0], replies[0]);
      MovesOne(cmp, bag, ops[0], replies[0]);
      Conserved(cmp, next, ops[1..], replies[1..]);
      var came := if ops[0].Insert? then One(replies[0]) else multiset{};
      var went := if ops[0].Shift? || ops[0].Delete? then One(replies[0]) else multiset{};
      calc {
        multiset(bag.Keys) + (came + Came(ops[1..], replies[1..]));
        (multiset(bag.Keys) + came) + Came(ops[1..], replies[1..]);
        (multiset(next.Keys) + Came(ops[1..], replies[1..])) + went;
        multiset(Outcome(bag, ops, replies).Keys) + (went + Went(ops[1..], replies[1..]));
      }
    }
  }

  // ---------- Items that come and go ----------

  lemma BagGrows<K>(before: seq<Item<K>>, after: seq<Item<K>>, x: Item<K>)
    requires multiset(after) == multiset(before) + multiset{x}
    ensures Bag(after) == Bag(before)[x := x.key] && forall y :: y in after ==> y in before || y == x
  {
    forall y ensures y in after <==> y in before || y == x {
      assert y in after <==> y in multiset(after);
      assert y in before <==> y in multiset(before);
    }
  }

  /** Every item of a tracked heap is in it once. */
  lemma Once<K(!new)>(h: Heap<K>, x: Item<K>)
    requires h.Valid() && h.hasInfo && x in h.Items()
    ensures multiset(h.Items())[x] == 1
  {
    var items, i := h.Items(), x.pos;
    assert items == items[..i] + [x] + items[i + 1..];
    assert x !in items[..i] && x !in items[i + 1..];
  }

  lemma BagShrinks<K>(before: seq<Item<K>>, after: seq<Item<K>>, x: Item<K>)
    requires multiset(after) == multiset(before) - multiset{x} && multiset(before)[x] == 1
    ensures Bag(after) == Bag(before) - {x} && forall y :: y in after ==> y in before
  {
    forall y ensures y in after <==> y in before && y != x {
      assert y in after <==> y in multiset(after);
      assert y in before <==> y in multiset(before);
    }
  }

  lemma BagSame<K>(before: seq<Item<K>>, after: seq<Item<K>>)
    requires multiset(after) == multiset(before)
    ensures Bag(after) == Bag(before) && forall y :: y in after ==> y in before
  {
    forall y ensures y in after <==> y in before {
      assert y in after <==> y in multiset(after);
      assert y in before <==> y in multiset(before);
    }
  }

  // ---------- One operation ----------

  /** A heap that records positions; it and the items in S are all that its operations touch. */
  ghost predicate Ready<K(!new)>(h: Heap<K>, S: set<Item<K>>)
    reads h, h.heap, if h.Slots() then h.Items() else []
    ensures Ready(h, S) ==> h.Slots()
  {
    h.Valid() && h.hasInfo && forall y :: y in h.Items() ==> y in S
  }

  method PerformInsert<K(!new)>(h: Heap<K>, x: Item<K>, k: K, ghost S: set<Item<K>>)
    requires Ready(h, S) && x !in h.Items() && x in S
    modifies h, h.heap, S
    ensures Ready(h, S) && (h.heap == old(h.heap) || fresh(h.heap))
    ensures Bag(h.Items()) == old(Bag(h.Items()))[x := k]
  {
    hide TotalOrder, HeapFrom;
    ghost var before := h.Items();
    x.key := k;
    assert Keys(before) == old(Keys(h.Items()));
    assert Bag(before) == old(Bag(h.Items()));
    var _ := h.Insert(x);
    BagGrows(before, h.Items(), x);
  }

  lemma LeastFits<K(!new)>(cmp: Comparator<K>, items: seq<Item<K>>, x: Item<K>)
    requires x in items && Least(cmp, x, items)
    ensures Fits(cmp, Bag(items), Shift, Some(x))
  {
  }

  lemma NothingFits<K(!new)>(cmp: Comparator<K>, items: seq<Item<K>>)
    requires items == []
    ensures Fits(cmp, Bag(items), Shift, None)
  {
  }

  method PerformShift<K(!new)>(h: Heap<K>, ghost S: set<Item<K>>) returns (reply: Option<Item<K>>)
    requires Ready(h, S)
    modifies h, h.heap, S
    ensures Ready(h, S) && (h.heap == old(h.heap) || fresh(h.heap))
    ensures Fits(h.cmp, old(Bag(h.Items())), Shift, reply)
    ensures Bag(h.Items()) == Next(old(Bag(h.Items())), Op<K>.Shift, reply)
  {
    hide TotalOrder, HeapFrom, Bag, Least, Fits;
    ghost var before := h.Items();
    if h.size == 0 {
      NothingFits(h.cmp, before);
    } else {
      Once(h, before[0]);
      h.FirstLeast();
      LeastFits(h.cmp, before, before[0]);
    }
    reply := h.Shift();
    if reply != None {
      BagShrinks(before, h.Items(), reply.value);
    }
  }

  /** The key of an item in the heap changes, and the heap is put in order again. */
  method PerformRekey<K(!new)>(h: Heap<K>, x: Item<K>, k: K, ghost S: set<Item<K>>)
    requires Ready(h, S) && x in h.Items()
    modifies h, h.heap, S
    ensures Ready(h, S) && h.heap == old(h.heap)
    ensures Bag(h.Items()) == old(Bag(h.Items()))[x := k]
  {
    hide TotalOrder, HeapFrom;
    ghost var before, was := h.Items(), x.key;
    ghost var ks := Keys(before);
    x.key := k;
    assert Keys(before)[x.pos := was] == ks;
    assert Bag(before) == old(Bag(h.Items()))[x := k];
    var _ := h.Hipify(x, was);
    BagSame(before, h.Items());
  }

  method PerformDelete<K(!new)>(h: Heap<K>, x: Item<K>, ghost S: set<Item<K>>)
    requires Ready(h, S) && x in h.Items()
    modifies h, h.heap, S
    ensures Ready(h, S) && (h.heap == old(h.heap) || fresh(h.heap))
    ensures Bag(h.Items()) == old(Bag(h.Items())) - {x}
  {
    hide TotalOrder, HeapFrom, Bag, Keys;
    ghost var before := h.Items();
    Once(h, x);
    var _ := h.Del(x);
    BagShrinks(before, h.Items(), x);
  }

  method Perform<K(!new)>(h: Heap<K>, op: Op<K>, ghost S: set<Item<K>>) returns (reply: Option<Item<K>>)
    requires Ready(h, S) && forall x :: Mentions(op, x) ==> x in S
    modifies h, h.heap, S
    ensures Ready(h, S) && (h.heap == old(h.heap) || fresh(h.heap))
    ensures Fits(h.cmp, old(Bag(h.Items())), op, reply)
    ensures Bag(h.Items()) == Next(old(Bag(h.Items())), op, reply)
  {
    hide Ready;
    if op.Shift? {
      reply := PerformShift(h, S);
      return;
    }
    var x, there := op.item, op.item in h.heap[..h.size];
    assert Mentions(op, x);
    reply := None;
    match op
    case Insert(_, k) =>
      if !there {
        PerformInsert(h, x, k, S);
        reply := Some(x);
      }
    case Rekey(_, k) =>
      if there {
        PerformRekey(h, x, k, S);
        reply := Some(x);
      }
    case Delete(_) =>
      if there {
        PerformDelete(h, x, S);
        reply := Some(x);
      }
  }

  // ---------- All of them ----------

  /**
   Whatever is done to a heap, in whatever order, it answers and holds what the bag would, and stays a
   heap in which every item says where it is.
   */
  method PerformAll<K(!new)>(h: Heap<K>, ops: seq<Op<K>>, ghost S: set<Item<K>>)
    returns (replies: seq<Option<Item<K>>>)
    requires Ready(h, S) && forall i, x :: 0 <= i < |ops| && Mentions(ops[i], x) ==> x in S
    modifies h, h.heap, S
    ensures Ready(h, S) && (h.heap == old(h.heap) || fresh(h.heap))
    ensures AllFit(h.cmp, old(Bag(h.Items())), ops, replies)
    ensures Bag(h.Items()) == Outcome(old(Bag(h.Items())), ops, replies)
    decreases |ops|
  {
    hide Ready, Fits, Next;
    replies := [];
    if ops != [] {
      var reply := Perform(h, ops[0], S);
      var rest := PerformAll(h, ops[1..], S);
      replies := [reply] + rest;
    }
  }
}

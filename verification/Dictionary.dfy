/**
 Runs of the tree's operations.  StepEntries is what the contracts of the class Tree say of one
 operation; StepMap is the same operation on a finite map.
 */
module Dictionary {
  import opened Wrappers
  import opened Orders
  import opened Entries

  datatype Op = Insert(key: Key, value: Value) | Delete(key: Key) | Find(key: Key) | Size
  datatype Reply = Stored(value: Option<Value>) | Count(size: nat)

  function StepEntries(cmp: Comparator, es: seq<Entry>, op: Op): (seq<Entry>, Reply) {
    match op
    case Insert(k, v) => (Put(cmp, es, k, v), Stored(Get(cmp, Put(cmp, es, k, v), k)))
    case Delete(k) => (Drop(cmp, es, k), Stored(Get(cmp, es, k)))
    case Find(k) => (es, Stored(Get(cmp, es, k)))
    case Size => (es, Count(|es|))
  }

  /** The value under the key of m that is equivalent to k. */
  ghost function Lookup(cmp: Comparator, m: map<Key, Value>, k: Key): Option<Value> {
    if x :| x in m && cmp(k, x) == 0 then Some(m[x]) else None
  }

  ghost function Excluding(cmp: Comparator, m: map<Key, Value>, k: Key): map<Key, Value> {
    map x | x in m && cmp(k, x) != 0 :: m[x]
  }

  /**
   Keys are told apart by the comparator alone.  An insertion under a key equivalent to one that is
   present changes nothing, not even that key, and answers the value already there.
   */
  ghost function StepMap(cmp: Comparator, m: map<Key, Value>, op: Op): (map<Key, Value>, Reply) {
    match op
    case Insert(k, v) =>
      if Lookup(cmp, m, k) != None then (m, Stored(Lookup(cmp, m, k))) else (m[k := v], Stored(Some(v)))
    case Delete(k) => (Excluding(cmp, m, k), Stored(Lookup(cmp, m, k)))
    case Find(k) => (m, Stored(Lookup(cmp, m, k)))
    case Size => (m, Count(|m|))
  }

  function RunEntries(cmp: Comparator, es: seq<Entry>, ops: seq<Op>): (seq<Entry>, seq<Reply>)
    decreases ops
  {
    if ops == [] then (es, [])
    else
      var (es1, reply) := StepEntries(cmp, es, ops[0]);
      var (es2, replies) := RunEntries(cmp, es1, ops[1..]);
      (es2, [reply] + replies)
  }

  ghost function RunMap(cmp: Comparator, m: map<Key, Value>, ops: seq<Op>): (map<Key, Value>, seq<Reply>)
    decreases ops
  {
    if ops == [] then (m, [])
    else
      var (m1, reply) := StepMap(cmp, m, ops[0]);
      var (m2, replies) := RunMap(cmp, m1, ops[1..]);
      (m2, [reply] + replies)
  }

  // ---------- What the operations do to the set of entries ----------

  lemma PutMeans(cmp: Comparator, es: seq<Entry>, k: Key, v: Value)
    requires TotalOrder(cmp) && Sorted(cmp, es)
    ensures Sorted(cmp, Put(cmp, es, k, v))
    ensures |Put(cmp, es, k, v)| == |es| + (if Get(cmp, es, k) == None then 1 else 0)
    ensures forall e :: e in Put(cmp, es, k, v) <==> e in es || (Get(cmp, es, k) == None && e == Entry(k, v))
  {
    var a, m, b := SplitAt(cmp, es, k);
    if m == [] {
      assert es == a + b;
      KeyAbsent(cmp, a, b, k);
      PutAbsent(cmp, a, b, k, v);
      SortedInsert(cmp, a, Entry(k, v), b);
    } else {
      assert es == a + [m[0]] + b;
      KeyPresent(cmp, a, m[0], b, k);
      PutPresent(cmp, a, m[0], b, k, v);
    }
  }

  lemma DropMeans(cmp: Comparator, es: seq<Entry>, k: Key)
    requires TotalOrder(cmp) && Sorted(cmp, es)
    ensures Sorted(cmp, Drop(cmp, es, k))
    ensures |Drop(cmp, es, k)| == |es| - (if Get(cmp, es, k) == None then 0 else 1)
    ensures forall e :: e in Drop(cmp, es, k) <==> e in es && cmp(k, e.key) != 0
  {
    var a, m, b := SplitAt(cmp, es, k);
    NoneBetween(cmp, a, b, k);
    if m == [] {
      assert es == a + b;
      KeyAbsent(cmp, a, b, k);
    } else {
      assert es == a + [m[0]] + b;
      KeyPresent(cmp, a, m[0], b, k);
      SortedRemove(cmp, a, m[0], b);
    }
  }

  lemma NoneBetween(cmp: Comparator, a: seq<Entry>, b: seq<Entry>, k: Key)
    requires AllBelow(cmp, a, k) && AllAbove(cmp, b, k)
    ensures forall e :: e in a || e in b ==> cmp(k, e.key) != 0
  {
  }

  lemma GetMeans(cmp: Comparator, es: seq<Entry>, k: Key)
    requires TotalOrder(cmp) && Sorted(cmp, es)
    ensures forall e :: e in es && cmp(k, e.key) == 0 ==> Get(cmp, es, k) == Some(e.value)
    ensures Get(cmp, es, k) != None ==> exists e :: e in es && cmp(k, e.key) == 0
  {
    var a, m, b := SplitAt(cmp, es, k);
    NoneBetween(cmp, a, b, k);
    if m == [] {
      assert es == a + b;
      KeyAbsent(cmp, a, b, k);
    } else {
      assert es == a + [m[0]] + b;
      KeyPresent(cmp, a, m[0], b, k);
      assert m[0] in es;
    }
  }

  // ---------- The finite map a sorted sequence stands for ----------

  /** m holds exactly the entries of es; being sorted, es has one key of a kind. */
  ghost predicate StandsFor(cmp: Comparator, es: seq<Entry>, m: map<Key, Value>) {
    && Sorted(cmp, es) && |m| == |es|
    && forall k, v :: Entry(k, v) in es <==> k in m && m[k] == v
  }

  /** No two keys of the map are equivalent. */
  lemma OneOfAKind(cmp: Comparator, es: seq<Entry>, m: map<Key, Value>)
    requires TotalOrder(cmp) && StandsFor(cmp, es, m)
    ensures forall x, y :: x in m && y in m && cmp(x, y) == 0 ==> x == y
  {
    forall x, y | x in m && y in m && cmp(x, y) == 0 ensures x == y {
      assert Entry(x, m[x]) in es && Entry(y, m[y]) in es;
      var i :| 0 <= i < |es| && es[i] == Entry(x, m[x]);
      var j :| 0 <= j < |es| && es[j] == Entry(y, m[y]);
      if i != j {
        SortedApart(cmp, es, i, j);
      }
    }
  }

  lemma SortedApart(cmp: Comparator, es: seq<Entry>, i: nat, j: nat)
    requires TotalOrder(cmp) && Sorted(cmp, es) && i < |es| && j < |es| && i != j
    ensures cmp(es[i].key, es[j].key) != 0
  {
    Chain(cmp, es[j].key, es[i].key, es[j].key);
  }

  lemma LookupAgrees(cmp: Comparator, es: seq<Entry>, m: map<Key, Value>, k: Key)
    requires TotalOrder(cmp) && StandsFor(cmp, es, m)
    ensures Get(cmp, es, k) == Lookup(cmp, m, k)
  {
    GetMeans(cmp, es, k);
    if x :| x in m && cmp(k, x) == 0 {
      forall y | y in m && cmp(k, y) == 0 ensures Get(cmp, es, k) == Some(m[y]) {
        assert Entry(y, m[y]) in es;
      }
    } else {
      forall e | e in es ensures cmp(k, e.key) != 0 {
        assert e == Entry(e.key, e.value);
      }
    }
  }

  lemma PutAgrees(cmp: Comparator, es: seq<Entry>, m: map<Key, Value>, k: Key, v: Value)
    requires TotalOrder(cmp) && StandsFor(cmp, es, m)
    ensures StandsFor(cmp, Put(cmp, es, k, v), if Lookup(cmp, m, k) != None then m else m[k := v])
  {
    hide Put, Get, Sorted;
    PutMeans(cmp, es, k, v);
    LookupAgrees(cmp, es, m, k);
    Chain(cmp, k, k, k);
    assert Lookup(cmp, m, k) == None ==> k !in m;
  }

  lemma RemovalSize<K, V>(m: map<K, V>, k: K)
    ensures |m - {k}| == |m| - (if k in m then 1 else 0)
  {
    if k in m {
      assert m.Keys == (m - {k}).Keys + {k};
    } else {
      assert m - {k} == m;
    }
  }

  /** Of all keys equivalent to k the map has one at most. */
  lemma ExcludingSize(cmp: Comparator, es: seq<Entry>, m: map<Key, Value>, k: Key)
    requires TotalOrder(cmp) && StandsFor(cmp, es, m)
    ensures |Excluding(cmp, m, k)| == |m| - (if Lookup(cmp, m, k) == None then 0 else 1)
  {
    if x :| x in m && cmp(k, x) == 0 {
      OneOfAKind(cmp, es, m);
      forall y | y in m && cmp(k, y) == 0 ensures y == x {
        Equivalent(cmp, k, x, y);
      }
      assert Excluding(cmp, m, k) == m - {x};
      RemovalSize(m, x);
    } else {
      assert Excluding(cmp, m, k) == m;
    }
  }

  lemma DropAgrees(cmp: Comparator, es: seq<Entry>, m: map<Key, Value>, k: Key)
    requires TotalOrder(cmp) && StandsFor(cmp, es, m)
    ensures StandsFor(cmp, Drop(cmp, es, k), Excluding(cmp, m, k))
  {
    DropMeans(cmp, es, k);
    LookupAgrees(cmp, es, m, k);
    ExcludingSize(cmp, es, m, k);
  }

  lemma StepAgrees(cmp: Comparator, es: seq<Entry>, m: map<Key, Value>, op: Op)
    requires TotalOrder(cmp) && StandsFor(cmp, es, m)
    ensures StandsFor(cmp, StepEntries(cmp, es, op).0, StepMap(cmp, m, op).0)
    ensures StepEntries(cmp, es, op).1 == StepMap(cmp, m, op).1
  {
    hide StandsFor, Lookup, Excluding, Put, Drop;
    match op
    case Insert(k, v) =>
      PutAgrees(cmp, es, m, k, v);
      LookupAgrees(cmp, es, m, k);
      StoredAfterPut(cmp, es, m, k, v);
    case Delete(k) =>
      DropAgrees(cmp, es, m, k);
      LookupAgrees(cmp, es, m, k);
    case Find(k) =>
      LookupAgrees(cmp, es, m, k);
    case Size =>
      SameSize(cmp, es, m);
  }

  lemma StoredAfterPut(cmp: Comparator, es: seq<Entry>, m: map<Key, Value>, k: Key, v: Value)
    requires TotalOrder(cmp) && StandsFor(cmp, es, m)
    ensures Get(cmp, Put(cmp, es, k, v), k) == if Get(cmp, es, k) == None then Some(v) else Get(cmp, es, k)
  {
    Chain(cmp, k, k, k);
    GetPut(cmp, es, k, v, k);
  }

  lemma SameSize(cmp: Comparator, es: seq<Entry>, m: map<Key, Value>)
    requires StandsFor(cmp, es, m)
    ensures |es| == |m|
  {
  }

  /** Every run answers as the finite map does, step by step, and ends in what stands for the map. */
  lemma {:induction false} RunsAgree(cmp: Comparator, es: seq<Entry>, m: map<Key, Value>, ops: seq<Op>)
    requires TotalOrder(cmp) && StandsFor(cmp, es, m)
    ensures RunEntries(cmp, es, ops).1 == RunMap(cmp, m, ops).1
    ensures StandsFor(cmp, RunEntries(cmp, es, ops).0, RunMap(cmp, m, ops).0)
    decreases ops
  {
    if ops != [] {
      StepAgrees(cmp, es, m, ops[0]);
      RunsAgree(cmp, StepEntries(cmp, es, ops[0]).0, StepMap(cmp, m, ops[0]).0, ops[1..]);
    }
  }
}

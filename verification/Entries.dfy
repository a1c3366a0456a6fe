/**
 What a sorted dictionary holds: a sequence of entries, strictly ascending under the caller's
 comparator.  Get, Put and Drop say what the tree's operations mean on such a sequence.
 */
module Entries {
  import opened Wrappers
  import opened Orders

  type Key(!new)
  type Value(!new)
  datatype Entry = Entry(key: Key, value: Value)

  type Comparator = (Key, Key) -> int

  ghost predicate Sorted(cmp: Comparator, es: seq<Entry>) {
    forall i, j :: 0 <= i < j < |es| ==> cmp(es[i].key, es[j].key) < 0
  }

  ghost predicate AllBelow(cmp: Comparator, es: seq<Entry>, k: Key) {
    forall i :: 0 <= i < |es| ==> cmp(k, es[i].key) > 0
  }

  ghost predicate AllAbove(cmp: Comparator, es: seq<Entry>, k: Key) {
    forall i :: 0 <= i < |es| ==> cmp(k, es[i].key) < 0
  }

  function Get(cmp: Comparator, es: seq<Entry>, k: Key): Option<Value> {
    if es == [] then None
    else if cmp(k, es[0].key) == 0 then Some(es[0].value)
    else Get(cmp, es[1..], k)
  }

  /** An equivalent key that is already present keeps its place, its key and its value. */
  function Put(cmp: Comparator, es: seq<Entry>, k: Key, v: Value): seq<Entry> {
    if es == [] || cmp(k, es[0].key) < 0 then [Entry(k, v)] + es
    else if cmp(k, es[0].key) == 0 then es
    else [es[0]] + Put(cmp, es[1..], k, v)
  }

  function Drop(cmp: Comparator, es: seq<Entry>, k: Key): seq<Entry> {
    if es == [] then []
    else if cmp(k, es[0].key) == 0 then es[1..]
    else [es[0]] + Drop(cmp, es[1..], k)
  }

  lemma Reassociate<T>(a: seq<T>, b: seq<T>, c: seq<T>)
    ensures a + (b + c) == (a + b) + c
  {
  }

  // ---------- Folding ----------

  function Fold<A>(f: (Key, Value, A) -> A, es: seq<Entry>, acc: A): A {
    if es == [] then acc else Fold(f, es[1..], f(es[0].key, es[0].value, acc))
  }

  lemma {:induction false} FoldConcat<A>(f: (Key, Value, A) -> A, a: seq<Entry>, b: seq<Entry>, acc: A)
    ensures Fold(f, a + b, acc) == Fold(f, b, Fold(f, a, acc))
  {
    if a == [] {
      assert a + b == b;
    } else {
      assert (a + b)[1..] == a[1..] + b;
      FoldConcat(f, a[1..], b, f(a[0].key, a[0].value, acc));
    }
  }

  /** The function is applied to every entry once, in order, each time to what came out before. */
  ghost predicate Chained<A>(f: (Key, Value, A) -> A, es: seq<Entry>, acc: A, accs: seq<A>) {
    && |accs| == |es| + 1 && accs[0] == acc
    && forall i :: 0 <= i < |es| ==> accs[i + 1] == f(es[i].key, es[i].value, accs[i])
  }

  lemma {:induction false} FoldMeans<A>(f: (Key, Value, A) -> A, es: seq<Entry>, acc: A) returns (accs: seq<A>)
    ensures Chained(f, es, acc, accs) && accs[|es|] == Fold(f, es, acc)
  {
    if es == [] {
      accs := [acc];
    } else {
      var rest := FoldMeans(f, es[1..], f(es[0].key, es[0].value, acc));
      accs := [acc] + rest;
      forall i | 0 <= i < |es| ensures accs[i + 1] == f(es[i].key, es[i].value, accs[i]) {
        assert i > 0 ==> rest[i] == f(es[1..][i - 1].key, es[1..][i - 1].value, rest[i - 1]);
      }
    }
  }

  function Reversed(es: seq<Entry>): seq<Entry> {
    if es == [] then [] else Reversed(es[1..]) + [es[0]]
  }

  lemma {:induction false} ReversedConcat(a: seq<Entry>, b: seq<Entry>)
    ensures Reversed(a + b) == Reversed(b) + Reversed(a)
  {
    if a == [] {
      assert a + b == b;
    } else {
      assert (a + b)[1..] == a[1..] + b;
      ReversedConcat(a[1..], b);
      Reassociate(Reversed(b), Reversed(a[1..]), [a[0]]);
    }
  }

  lemma {:induction false} ReversedAt(es: seq<Entry>, i: nat)
    requires i < |es|
    ensures |Reversed(es)| == |es| && Reversed(es)[i] == es[|es| - 1 - i]
  {
    if |es| > 1 {
      ReversedAt(es[1..], if i < |es| - 1 then i else 0);
    }
  }

  // ---------- Where a key falls ----------

  lemma {:induction false} KeyAbove(cmp: Comparator, a: seq<Entry>, es: seq<Entry>, k: Key)
    requires AllBelow(cmp, a, k)
    ensures Get(cmp, a + es, k) == Get(cmp, es, k)
    ensures Drop(cmp, a + es, k) == a + Drop(cmp, es, k)
  {
    if a == [] {
      assert a + es == es;
    } else {
      assert a[0] == (a + es)[0] && cmp(k, a[0].key) > 0;
      assert (a + es)[1..] == a[1..] + es;
      KeyAbove(cmp, a[1..], es, k);
      assert [a[0]] + a[1..] == a;
      Reassociate([a[0]], a[1..], Drop(cmp, es, k));
    }
  }

  lemma {:induction false} PutAbove(cmp: Comparator, a: seq<Entry>, es: seq<Entry>, k: Key, v: Value)
    requires AllBelow(cmp, a, k)
    ensures Put(cmp, a + es, k, v) == a + Put(cmp, es, k, v)
  {
    if a == [] {
      assert a + es == es;
    } else {
      assert a[0] == (a + es)[0] && cmp(k, a[0].key) > 0;
      assert (a + es)[1..] == a[1..] + es;
      PutAbove(cmp, a[1..], es, k, v);
      assert [a[0]] + a[1..] == a;
      Reassociate([a[0]], a[1..], Put(cmp, es, k, v));
    }
  }

  lemma {:induction false} KeyBelow(cmp: Comparator, es: seq<Entry>, k: Key)
    requires AllAbove(cmp, es, k)
    ensures Get(cmp, es, k) == None && Drop(cmp, es, k) == es
  {
    if es != [] {
      assert cmp(k, es[0].key) < 0;
      KeyBelow(cmp, es[1..], k);
    }
  }

  lemma KeyAbsent(cmp: Comparator, a: seq<Entry>, b: seq<Entry>, k: Key)
    requires AllBelow(cmp, a, k) && AllAbove(cmp, b, k)
    ensures Get(cmp, a + b, k) == None && Drop(cmp, a + b, k) == a + b
  {
    KeyAbove(cmp, a, b, k);
    KeyBelow(cmp, b, k);
  }

  lemma PutAbsent(cmp: Comparator, a: seq<Entry>, b: seq<Entry>, k: Key, v: Value)
    requires AllBelow(cmp, a, k) && AllAbove(cmp, b, k)
    ensures Put(cmp, a + b, k, v) == a + [Entry(k, v)] + b
  {
    PutAbove(cmp, a, b, k, v);
    Reassociate(a, [Entry(k, v)], b);
  }

  lemma KeyPresent(cmp: Comparator, a: seq<Entry>, e: Entry, b: seq<Entry>, k: Key)
    requires AllBelow(cmp, a, k) && cmp(k, e.key) == 0
    ensures Get(cmp, a + [e] + b, k) == Some(e.value)
    ensures Drop(cmp, a + [e] + b, k) == a + b
  {
    KeyAbove(cmp, a, [e] + b, k);
    Reassociate(a, [e], b);
    assert ([e] + b)[1..] == b;
  }

  lemma PutPresent(cmp: Comparator, a: seq<Entry>, e: Entry, b: seq<Entry>, k: Key, v: Value)
    requires AllBelow(cmp, a, k) && cmp(k, e.key) == 0
    ensures Put(cmp, a + [e] + b, k, v) == a + [e] + b
  {
    PutAbove(cmp, a, [e] + b, k, v);
    Reassociate(a, [e], b);
  }

  lemma SortedInsert(cmp: Comparator, a: seq<Entry>, e: Entry, b: seq<Entry>)
    requires TotalOrder(cmp) && Sorted(cmp, a + b) && AllBelow(cmp, a, e.key) && AllAbove(cmp, b, e.key)
    ensures Sorted(cmp, a + [e] + b)
  {
    var es, ab := a + [e] + b, a + b;
    forall i, j | 0 <= i < j < |es| ensures cmp(es[i].key, es[j].key) < 0 {
      var i' := if i > |a| then i - 1 else i;
      var j' := if j > |a| then j - 1 else j;
      if i != |a| && j != |a| {
        assert es[i] == ab[i'] && es[j] == ab[j'];
      } else if j == |a| {
        assert es[i] == a[i];
        Chain(cmp, a[i].key, e.key, e.key);
      } else {
        assert es[j] == b[j - |a| - 1];
      }
    }
  }

  lemma SortedRemove(cmp: Comparator, a: seq<Entry>, e: Entry, b: seq<Entry>)
    requires Sorted(cmp, a + [e] + b)
    ensures Sorted(cmp, a + b)
  {
    var es, ab := a + [e] + b, a + b;
    forall i, j | 0 <= i < j < |ab| ensures cmp(ab[i].key, ab[j].key) < 0 {
      var i' := if i >= |a| then i + 1 else i;
      var j' := if j >= |a| then j + 1 else j;
      assert es[i'] == ab[i] && es[j'] == ab[j];
    }
  }

  lemma RestAbove(cmp: Comparator, es: seq<Entry>, k: Key)
    requires TotalOrder(cmp) && Sorted(cmp, es) && es != [] && cmp(k, es[0].key) <= 0
    ensures AllAbove(cmp, es[1..], k) && (cmp(k, es[0].key) < 0 ==> AllAbove(cmp, es, k))
  {
    forall i | 0 < i < |es| ensures cmp(k, es[i].key) < 0 {
      Chain(cmp, k, es[0].key, es[i].key);
    }
  }

  lemma SuffixAbove(cmp: Comparator, a: seq<Entry>, e: Entry, b: seq<Entry>, k: Key)
    requires TotalOrder(cmp) && Sorted(cmp, a + ([e] + b)) && cmp(k, e.key) < 0
    ensures AllAbove(cmp, [e] + b, k)
  {
    var es := a + ([e] + b);
    assert [e] + b == es[|a|..];
    forall i | 0 < i < |[e] + b| ensures cmp(k, ([e] + b)[i].key) < 0 {
      assert cmp(es[|a|].key, es[|a| + i].key) < 0;
      Chain(cmp, k, e.key, es[|a| + i].key);
    }
  }

  lemma PrefixBelow(cmp: Comparator, a: seq<Entry>, e: Entry, b: seq<Entry>, k: Key)
    requires TotalOrder(cmp) && Sorted(cmp, a + [e] + b) && cmp(k, e.key) >= 0
    ensures AllBelow(cmp, a, k)
  {
    var es := a + [e] + b;
    forall i | 0 <= i < |a| ensures cmp(k, a[i].key) > 0 {
      assert cmp(es[i].key, es[|a|].key) < 0;
      Chain(cmp, a[i].key, e.key, e.key);
      Chain(cmp, k, e.key, a[i].key);
    }
  }

  /** Every key of a sorted sequence is below, equivalent to, or above k, in this order. */
  lemma {:induction false} SplitAt(cmp: Comparator, es: seq<Entry>, k: Key)
    returns (a: seq<Entry>, m: seq<Entry>, b: seq<Entry>)
    requires TotalOrder(cmp) && Sorted(cmp, es)
    ensures es == a + m + b && AllBelow(cmp, a, k) && AllAbove(cmp, b, k)
    ensures |m| <= 1 && (m != [] ==> cmp(k, m[0].key) == 0)
  {
    if es == [] {
      a, m, b := [], [], [];
    } else if cmp(k, es[0].key) > 0 {
      a, m, b := SplitAt(cmp, es[1..], k);
      a := [es[0]] + a;
    } else {
      RestAbove(cmp, es, k);
      if cmp(k, es[0].key) == 0 {
        a, m, b := [], [es[0]], es[1..];
      } else {
        a, m, b := [], [], es;
      }
    }
  }

  /** Everything a dictionary needs to know when a new key falls between a and b. */
  lemma Inserted(cmp: Comparator, a: seq<Entry>, b: seq<Entry>, k: Key, v: Value)
    requires TotalOrder(cmp) && Sorted(cmp, a + b) && AllBelow(cmp, a, k) && AllAbove(cmp, b, k)
    ensures var es := a + [Entry(k, v)] + b;
            es == Put(cmp, a + b, k, v) && Sorted(cmp, es) && Get(cmp, es, k) == Some(v)
  {
    PutAbsent(cmp, a, b, k, v);
    Chain(cmp, k, k, k);
    KeyPresent(cmp, a, Entry(k, v), b, k);
    SortedInsert(cmp, a, Entry(k, v), b);
  }

  // ---------- The laws of a dictionary ----------

  lemma {:induction false} GetPut(cmp: Comparator, es: seq<Entry>, k: Key, v: Value, x: Key)
    requires TotalOrder(cmp) && Sorted(cmp, es)
    ensures Get(cmp, Put(cmp, es, k, v), x)
         == if cmp(x, k) == 0 && Get(cmp, es, k) == None then Some(v) else Get(cmp, es, x)
  {
    if es != [] {
      Chain(cmp, k, x, es[0].key);
      Chain(cmp, x, k, es[0].key);
      if cmp(k, es[0].key) < 0 {
        RestAbove(cmp, es, k);
        KeyBelow(cmp, es, k);
        assert ([Entry(k, v)] + es)[1..] == es;
      } else if cmp(k, es[0].key) > 0 {
        GetPut(cmp, es[1..], k, v, x);
        assert ([es[0]] + Put(cmp, es[1..], k, v))[1..] == Put(cmp, es[1..], k, v);
      }
    }
  }

  lemma {:induction false} GetDrop(cmp: Comparator, es: seq<Entry>, k: Key, x: Key)
    requires TotalOrder(cmp) && Sorted(cmp, es)
    ensures Get(cmp, Drop(cmp, es, k), x) == if cmp(x, k) == 0 then None else Get(cmp, es, x)
  {
    if es != [] {
      Chain(cmp, x, k, es[0].key);
      Chain(cmp, k, x, es[0].key);
      if cmp(k, es[0].key) == 0 {
        if cmp(x, k) == 0 {
          RestAbove(cmp, es, x);
          KeyBelow(cmp, es[1..], x);
        }
      } else {
        GetDrop(cmp, es[1..], k, x);
        assert ([es[0]] + Drop(cmp, es[1..], k))[1..] == Drop(cmp, es[1..], k);
      }
    }
  }
}

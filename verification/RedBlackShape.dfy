/**
 The shape of a red-black tree as a value: what the nodes linked below a root look like at
 one moment, and the path from a node up to the root.  Keys, values and nodes are abstract.
 */
module RedBlackShape {
  import opened Wrappers
  import opened Orders
  import opened Entries
  import opened Powers

  datatype Color = Red | Black
  datatype Side = Left | Right

  /** A subtree.  N stands for the identity of a node. */
  datatype Shape<+N> =
    | Nil
    | Bin(node: N, color: Color, entry: Entry, left: Shape<N>, right: Shape<N>)

  /** What surrounds a subtree: it is the child on `side` of `node`, whose other child is `sibling`. */
  datatype Path<+N> =
    | Top
    | Under(side: Side, node: N, color: Color, entry: Entry, sibling: Shape<N>, up: Path<N>)

  function Other(side: Side): Side { if side == Left then Right else Left }

  function Child<N>(side: Side, t: Shape<N>): Shape<N>
    requires t.Bin?
  {
    if side == Left then t.left else t.right
  }

  function Join<N>(side: Side, node: N, color: Color, entry: Entry, child: Shape<N>, sibling: Shape<N>): Shape<N> {
    if side == Left then Bin(node, color, entry, child, sibling) else Bin(node, color, entry, sibling, child)
  }

  /** The subtree of the parent, when t is put back below its path. */
  function OneUp<N>(path: Path<N>, t: Shape<N>): Shape<N>
    requires path.Under?
  {
    Join(path.side, path.node, path.color, path.entry, t, path.sibling)
  }

  /** The whole tree: subtree t put back below its path. */
  function Plug<N>(path: Path<N>, t: Shape<N>): Shape<N> {
    match path
    case Top => t
    case Under(side, x, c, e, sibling, up) => Plug(up, Join(side, x, c, e, t, sibling))
  }

  function Depth<N>(path: Path<N>): nat {
    if path.Top? then 0 else 1 + Depth(path.up)
  }

  // ---------- Contents ----------

  function InOrder<N>(t: Shape<N>): seq<Entry> {
    match t
    case Nil => []
    case Bin(_, _, e, l, r) => InOrder(l) + ([e] + InOrder(r))
  }

  lemma ReversedNode<N>(t: Shape<N>)
    requires t.Bin?
    ensures Reversed(InOrder(t)) == Reversed(InOrder(t.right)) + ([t.entry] + Reversed(InOrder(t.left)))
  {
    ReversedConcat(InOrder(t.left), [t.entry] + InOrder(t.right));
    ReversedConcat([t.entry], InOrder(t.right));
    assert Reversed([t.entry]) == [t.entry];
    Reassociate(Reversed(InOrder(t.right)), [t.entry], Reversed(InOrder(t.left)));
  }

  /** The entries of the whole tree that come before the hole of a path. */
  function Before<N>(path: Path<N>): seq<Entry> {
    match path
    case Top => []
    case Under(side, _, _, e, sibling, up) =>
      if side == Left then Before(up) else Before(up) + (InOrder(sibling) + [e])
  }

  /** The entries of the whole tree that come after the hole of a path. */
  function After<N>(path: Path<N>): seq<Entry> {
    match path
    case Top => []
    case Under(side, _, _, e, sibling, up) =>
      if side == Left then [e] + InOrder(sibling) + After(up) else After(up)
  }

  lemma Regroup<T>(a: seq<T>, b: seq<T>, c: seq<T>, d: seq<T>)
    ensures a + (b + c) + d == a + b + (c + d)
  {
  }

  lemma {:induction false} PlugInOrder<N>(path: Path<N>, t: Shape<N>)
    ensures InOrder(Plug(path, t)) == Before(path) + InOrder(t) + After(path)
  {
    match path
    case Top =>
    case Under(side, x, c, e, sibling, up) =>
      PlugInOrder(up, Join(side, x, c, e, t, sibling));
      if side == Left {
        Regroup(Before(up), InOrder(t), [e] + InOrder(sibling), After(up));
      } else {
        Reassociate(InOrder(sibling), [e], InOrder(t));
        Reassociate(Before(up), InOrder(sibling) + [e], InOrder(t));
      }
  }

  // ---------- Nodes ----------

  ghost function Nodes<N>(t: Shape<N>): set<N> {
    match t
    case Nil => {}
    case Bin(x, _, _, l, r) => {x} + Nodes(l) + Nodes(r)
  }

  ghost function PathNodes<N>(path: Path<N>): set<N> {
    match path
    case Top => {}
    case Under(_, x, _, _, sibling, up) => {x} + Nodes(sibling) + PathNodes(up)
  }

  lemma {:induction false} PlugNodes<N>(path: Path<N>, t: Shape<N>)
    ensures Nodes(Plug(path, t)) == PathNodes(path) + Nodes(t)
  {
    match path
    case Top =>
    case Under(side, x, c, e, sibling, up) =>
      PlugNodes(up, Join(side, x, c, e, t, sibling));
  }

  // ---------- Colours and black heights ----------

  predicate IsRed<N>(t: Shape<N>) { t.Bin? && t.color == Red }

  function Weight(c: Color): nat { if c == Black then 1 else 0 }

  /** The number of black nodes on the leftmost way down. */
  function BlackHeight<N>(t: Shape<N>): nat {
    match t
    case Nil => 0
    case Bin(_, c, _, l, _) => BlackHeight(l) + Weight(c)
  }

  /** No red node has a red child, and the two black heights agree at every node. */
  predicate Balanced<N>(t: Shape<N>) {
    match t
    case Nil => true
    case Bin(_, c, _, l, r) =>
      && (c == Red ==> !IsRed(l) && !IsRed(r))
      && BlackHeight(l) == BlackHeight(r)
      && Balanced(l) && Balanced(r)
  }

  predicate RedBlack<N>(t: Shape<N>) { !IsRed(t) && Balanced(t) }

  /** The tree around the hole is red-black if the hole takes a subtree of black height h. */
  predicate PathOk<N>(path: Path<N>, h: nat) {
    match path
    case Top => true
    case Under(_, _, c, _, sibling, up) =>
      && (c == Red ==> !IsRed(sibling) && up.Under? && up.color == Black)
      && BlackHeight(sibling) == h
      && Balanced(sibling)
      && PathOk(up, h + Weight(c))
  }

  /** Would a red subtree in the hole break the colour rules? */
  predicate NeedsBlack<N>(path: Path<N>) { path.Top? || path.color == Red }

  /** Plugging fits exactly when path and subtree each keep the rules and their edge does. */
  lemma {:induction false} PlugRedBlack<N>(path: Path<N>, t: Shape<N>)
    ensures RedBlack(Plug(path, t)) <==>
            Balanced(t) && PathOk(path, BlackHeight(t)) && (NeedsBlack(path) ==> !IsRed(t))
  {
    match path
    case Top =>
    case Under(side, x, c, e, sibling, up) =>
      PlugRedBlack(up, Join(side, x, c, e, t, sibling));
  }

  // ---------- Paths on paths ----------

  /** The path that first goes up inner and then up outer. */
  function Concat<N>(inner: Path<N>, outer: Path<N>): Path<N> {
    match inner
    case Top => outer
    case Under(side, x, c, e, sibling, up) => Under(side, x, c, e, sibling, Concat(up, outer))
  }

  lemma {:induction false} ConcatPlug<N>(inner: Path<N>, outer: Path<N>, t: Shape<N>)
    ensures Plug(Concat(inner, outer), t) == Plug(outer, Plug(inner, t))
  {
    if inner.Under? {
      ConcatPlug(inner.up, outer, OneUp(inner, t));
    }
  }

  lemma {:induction false} ConcatAround<N>(inner: Path<N>, outer: Path<N>)
    ensures Before(Concat(inner, outer)) == Before(outer) + Before(inner)
    ensures After(Concat(inner, outer)) == After(inner) + After(outer)
  {
    if inner.Under? {
      ConcatAround(inner.up, outer);
      Reassociate(Before(outer), Before(inner.up), InOrder(inner.sibling) + [inner.entry]);
      Reassociate([inner.entry] + InOrder(inner.sibling), After(inner.up), After(outer));
    }
  }

  // ---------- Heights ----------

  function Max(a: nat, b: nat): nat { if a > b then a else b }

  function Height<N>(t: Shape<N>): nat {
    match t
    case Nil => 0
    case Bin(_, _, _, l, r) => 1 + Max(Height(l), Height(r))
  }

  function Min(a: nat, b: nat): nat { if a <= b then a else b }

  function MinHeight<N>(t: Shape<N>): nat {
    match t
    case Nil => 0
    case Bin(_, _, _, l, r) => 1 + Min(MinHeight(l), MinHeight(r))
  }

  /** The largest number of black nodes on a way down, whether or not the tree is balanced. */
  function MaxBlacks<N>(t: Shape<N>): nat {
    match t
    case Nil => 0
    case Bin(_, c, _, l, r) => Max(MaxBlacks(l), MaxBlacks(r)) + Weight(c)
  }

  /** The colours of the nodes, in order. */
  function Colors<N>(t: Shape<N>): seq<Color> {
    match t
    case Nil => []
    case Bin(_, c, _, l, r) => Colors(l) + [c] + Colors(r)
  }

  lemma ColorsNode<N>(t: Shape<N>, c: Color)
    requires t.Bin?
    ensures multiset(Colors(t))[c]
         == (if t.color == c then 1 else 0) + multiset(Colors(t.left))[c] + multiset(Colors(t.right))[c]
  {
    assert Colors(t) == Colors(t.left) + [t.color] + Colors(t.right);
  }

  lemma {:induction false} EachColored<N>(t: Shape<N>)
    ensures multiset(Colors(t))[Red] + multiset(Colors(t))[Black] == |InOrder(t)|
  {
    hide Colors;
    if t.Bin? {
      ColorsNode(t, Red);
      ColorsNode(t, Black);
      EachColored(t.left);
      EachColored(t.right);
    } else {
      assert Colors(t) == [] by { NoColors(t); }
    }
  }

  lemma NoColors<N>(t: Shape<N>)
    requires t.Nil?
    ensures Colors(t) == []
  {
  }

  // A way from the root to a missing child, turn by turn.

  predicate IsWay<N>(t: Shape<N>, way: seq<Side>) {
    if t.Nil? then way == [] else way != [] && IsWay(Child(way[0], t), way[1..])
  }

  function Blacks<N>(t: Shape<N>, way: seq<Side>): nat
    requires IsWay(t, way)
  {
    if t.Nil? then 0 else Weight(t.color) + Blacks(Child(way[0], t), way[1..])
  }

  lemma {:induction false} WayBounds<N>(t: Shape<N>, way: seq<Side>)
    requires IsWay(t, way)
    ensures MinHeight(t) <= |way| <= Height(t) && Blacks(t, way) <= MaxBlacks(t)
    ensures Balanced(t) ==> Blacks(t, way) == BlackHeight(t)
  {
    if t.Bin? {
      WayBounds(Child(way[0], t), way[1..]);
    }
  }

  lemma {:induction false} ExtremeWays<N>(t: Shape<N>)
    returns (longest: seq<Side>, shortest: seq<Side>, blackest: seq<Side>)
    ensures IsWay(t, longest) && |longest| == Height(t)
    ensures IsWay(t, shortest) && |shortest| == MinHeight(t)
    ensures IsWay(t, blackest) && Blacks(t, blackest) == MaxBlacks(t)
  {
    longest, shortest, blackest := [], [], [];
    if t.Bin? {
      var l1, s1, b1 := ExtremeWays(t.left);
      var l2, s2, b2 := ExtremeWays(t.right);
      longest := if |l1| > |l2| then [Left] + l1 else [Right] + l2;
      shortest := if |s1| <= |s2| then [Left] + s1 else [Right] + s2;
      blackest := if Blacks(t.left, b1) > Blacks(t.right, b2) then [Left] + b1 else [Right] + b2;
    }
  }

  ghost predicate Longest<N>(t: Shape<N>, n: nat) {
    (exists w :: IsWay(t, w) && |w| == n) && forall w :: IsWay(t, w) ==> |w| <= n
  }

  ghost predicate Shortest<N>(t: Shape<N>, n: nat) {
    (exists w :: IsWay(t, w) && |w| == n) && forall w :: IsWay(t, w) ==> |w| >= n
  }

  ghost predicate Blackest<N>(t: Shape<N>, n: nat) {
    (exists w :: IsWay(t, w) && Blacks(t, w) == n) && forall w :: IsWay(t, w) ==> Blacks(t, w) <= n
  }

  /** The heights are what their names say. */
  lemma HeightsMean<N>(t: Shape<N>)
    ensures Longest(t, Height(t)) && Shortest(t, MinHeight(t)) && Blackest(t, MaxBlacks(t))
  {
    var longest, shortest, blackest := ExtremeWays(t);
    forall w | IsWay(t, w) ensures MinHeight(t) <= |w| <= Height(t) && Blacks(t, w) <= MaxBlacks(t) {
      WayBounds(t, w);
    }
  }

  // ---------- The rules, said without recursion on heights ----------

  ghost predicate EqualBlacks<N>(t: Shape<N>) {
    forall v, w :: IsWay(t, v) && IsWay(t, w) ==> Blacks(t, v) == Blacks(t, w)
  }

  predicate NoRedEdge<N>(t: Shape<N>) {
    match t
    case Nil => true
    case Bin(_, c, _, l, r) =>
      (c == Red ==> !IsRed(l) && !IsRed(r)) && NoRedEdge(l) && NoRedEdge(r)
  }

  lemma {:induction false} BalancedMeans<N>(t: Shape<N>)
    ensures Balanced(t) <==> NoRedEdge(t) && EqualBlacks(t)
  {
    if Balanced(t) {
      forall v, w | IsWay(t, v) && IsWay(t, w) ensures Blacks(t, v) == Blacks(t, w) {
        WayBounds(t, v);
        WayBounds(t, w);
      }
    }
    if t.Bin? {
      BalancedMeans(t.left);
      BalancedMeans(t.right);
      if EqualBlacks(t) {
        EqualBlacksBelow(t, Left);
        EqualBlacksBelow(t, Right);
        var _, _, v := ExtremeWays(t.left);
        var _, _, w := ExtremeWays(t.right);
        assert IsWay(t, [Left] + v) && IsWay(t, [Right] + w);
        assert Blacks(t, [Left] + v) == Blacks(t, [Right] + w);
        if Balanced(t.left) && Balanced(t.right) {
          WayBounds(t.left, v);
          WayBounds(t.right, w);
        }
      }
    }
  }

  lemma EqualBlacksBelow<N>(t: Shape<N>, side: Side)
    requires t.Bin? && EqualBlacks(t)
    ensures EqualBlacks(Child(side, t))
  {
    var c := Child(side, t);
    forall v, w | IsWay(c, v) && IsWay(c, w) ensures Blacks(c, v) == Blacks(c, w) {
      assert IsWay(t, [side] + v) && IsWay(t, [side] + w);
      assert Blacks(t, [side] + v) == Blacks(t, [side] + w);
    }
  }

  /** The depth test of the integrity check never decides. */
  lemma {:induction false} BalancedHeights<N>(t: Shape<N>)
    requires Balanced(t)
    ensures MaxBlacks(t) == BlackHeight(t)
    ensures BlackHeight(t) + (if IsRed(t) then 1 else 0) <= MinHeight(t)
    ensures Height(t) <= 2 * MinHeight(t)
  {
    BlackHeightBounds(t);
    if t.Bin? {
      BalancedHeights(t.left);
      BalancedHeights(t.right);
    }
  }

  /** Balance seen from a node whose subtrees are being checked in turn. */
  lemma BalancedNode<N>(t: Shape<N>)
    requires t.Bin?
    ensures Balanced(t) ==> MaxBlacks(t.left) == MaxBlacks(t.right) && Height(t) <= 2 * MinHeight(t)
    ensures Balanced(t) <==>
            && (t.color == Red ==> !IsRed(t.left) && !IsRed(t.right))
            && Balanced(t.left) && Balanced(t.right) && MaxBlacks(t.left) == MaxBlacks(t.right)
  {
    if Balanced(t) {
      BalancedHeights(t);
    }
    if Balanced(t.left) && Balanced(t.right) {
      BalancedHeights(t.left);
      BalancedHeights(t.right);
    }
  }

  lemma {:induction false} HeightBelow<N>(path: Path<N>, t: Shape<N>)
    ensures Depth(path) + Height(t) <= Height(Plug(path, t))
  {
    if path.Under? {
      HeightBelow(path.up, OneUp(path, t));
    }
  }

  /** Black nodes alone make a balanced tree big; at most every other node on a way down is red. */
  lemma {:induction false} BlackHeightBounds<N>(t: Shape<N>)
    requires Balanced(t)
    ensures Pow2(BlackHeight(t)) <= |InOrder(t)| + 1
    ensures Height(t) <= 2 * BlackHeight(t) + (if IsRed(t) then 1 else 0)
  {
    if t.Bin? {
      BlackHeightBounds(t.left);
      BlackHeightBounds(t.right);
    }
  }

  lemma SquareGrows(a: nat, b: nat)
    requires a <= b
    ensures a * a <= b * b
  {
  }

  /** A walk of at most Height(t) turns makes at most 2 * log2(size + 1) of them. */
  lemma LogarithmicHeight<N>(t: Shape<N>, steps: nat)
    requires RedBlack(t) && steps <= Height(t)
    ensures Pow2(steps) <= (|InOrder(t)| + 1) * (|InOrder(t)| + 1)
  {
    var b, n := BlackHeight(t), |InOrder(t)| + 1;
    BlackHeightBounds(t);
    Pow2Grows(steps, b + b);
    Pow2Sum(b, b);
    SquareGrows(Pow2(b), n);
  }

  // ---------- Searching ----------

  /** After a turn to the left everything that is not below the new hole lies on the right side of the key. */
  lemma StepLeft<N>(cmp: Comparator, path: Path<N>, t: Shape<N>, key: Key)
    requires TotalOrder(cmp) && Sorted(cmp, InOrder(Plug(path, t)))
    requires t.Bin? && cmp(key, t.entry.key) < 0 && AllAbove(cmp, After(path), key)
    ensures AllAbove(cmp, [t.entry] + InOrder(t.right) + After(path), key)
  {
    PlugInOrder(path, t);
    Regroup(Before(path), InOrder(t.left), [t.entry] + InOrder(t.right), After(path));
    Reassociate([t.entry], InOrder(t.right), After(path));
    SuffixAbove(cmp, Before(path) + InOrder(t.left), t.entry, InOrder(t.right) + After(path), key);
  }

  lemma StepRight<N>(cmp: Comparator, path: Path<N>, t: Shape<N>, key: Key)
    requires TotalOrder(cmp) && Sorted(cmp, InOrder(Plug(path, t)))
    requires t.Bin? && cmp(key, t.entry.key) > 0 && AllBelow(cmp, Before(path), key)
    ensures AllBelow(cmp, Before(path) + (InOrder(t.left) + [t.entry]), key)
  {
    Around(cmp, path, t, key);
    Reassociate(Before(path), InOrder(t.left), [t.entry]);
  }

  /** The entries on both sides of an entry whose key is not above the one searched for. */
  lemma Around<N>(cmp: Comparator, path: Path<N>, t: Shape<N>, key: Key)
    requires TotalOrder(cmp) && Sorted(cmp, InOrder(Plug(path, t)))
    requires t.Bin? && cmp(key, t.entry.key) >= 0
    ensures var a, b := Before(path) + InOrder(t.left), InOrder(t.right) + After(path);
            InOrder(Plug(path, t)) == a + [t.entry] + b && AllBelow(cmp, a, key)
  {
    var a, b := Before(path) + InOrder(t.left), InOrder(t.right) + After(path);
    PlugInOrder(path, t);
    Regroup(Before(path), InOrder(t.left), [t.entry] + InOrder(t.right), After(path));
    Reassociate([t.entry], InOrder(t.right), After(path));
    Reassociate(a, [t.entry], b);
    PrefixBelow(cmp, a, t.entry, b, key);
  }

  /** A finished search that found the key: what Get and Drop mean. */
  lemma Found<N>(cmp: Comparator, path: Path<N>, t: Shape<N>, key: Key)
    requires TotalOrder(cmp) && Sorted(cmp, InOrder(Plug(path, t)))
    requires t.Bin? && cmp(key, t.entry.key) == 0
    ensures var es := InOrder(Plug(path, t));
            && Get(cmp, es, key) == Some(t.entry.value)
            && Drop(cmp, es, key) == (Before(path) + InOrder(t.left)) + (InOrder(t.right) + After(path))
            && Sorted(cmp, Drop(cmp, es, key)) && |Drop(cmp, es, key)| == |es| - 1
  {
    var a, b := Before(path) + InOrder(t.left), InOrder(t.right) + After(path);
    Around(cmp, path, t, key);
    KeyPresent(cmp, a, t.entry, b, key);
    SortedRemove(cmp, a, t.entry, b);
  }

  lemma FoundPut<N>(cmp: Comparator, path: Path<N>, t: Shape<N>, key: Key, value: Value)
    requires TotalOrder(cmp) && Sorted(cmp, InOrder(Plug(path, t)))
    requires t.Bin? && cmp(key, t.entry.key) == 0
    ensures var es := InOrder(Plug(path, t));
            Put(cmp, es, key, value) == es && Get(cmp, es, key) == Some(t.entry.value)
  {
    var a, b := Before(path) + InOrder(t.left), InOrder(t.right) + After(path);
    Around(cmp, path, t, key);
    PutPresent(cmp, a, t.entry, b, key, value);
    KeyPresent(cmp, a, t.entry, b, key);
  }

  lemma NotFound<N>(cmp: Comparator, path: Path<N>, key: Key)
    requires AllBelow(cmp, Before(path), key) && AllAbove(cmp, After(path), key)
    ensures var es := InOrder(Plug(path, Nil));
            Get(cmp, es, key) == None && Drop(cmp, es, key) == es
  {
    PlugInOrder(path, Nil);
    assert Before(path) + [] + After(path) == Before(path) + After(path);
    KeyAbsent(cmp, Before(path), After(path), key);
  }

  lemma LeafAdded<N>(path: Path<N>, n: N, e: Entry)
    requires RedBlack(Plug(path, Nil))
    ensures PathOk(path, 0)
    ensures InOrder(Plug(path, Nil)) == Before(path) + After(path)
    ensures InOrder(Plug(path, Bin(n, Red, e, Nil, Nil))) == Before(path) + [e] + After(path)
    ensures Nodes(Plug(path, Bin(n, Red, e, Nil, Nil))) == Nodes(Plug(path, Nil)) + {n}
  {
    var leaf := Bin(n, Red, e, Nil, Nil);
    PlugRedBlack(path, Nil);
    PlugInOrder(path, Nil);
    PlugInOrder(path, leaf);
    PlugNodes(path, Nil);
    PlugNodes(path, leaf);
    assert Before(path) + [] == Before(path) && [] + ([e] + []) == [e];
  }

  /** A new red leaf at the place where the search ended. */
  lemma Grown<N>(cmp: Comparator, path: Path<N>, n: N, key: Key, value: Value)
    requires TotalOrder(cmp) && Sorted(cmp, InOrder(Plug(path, Nil))) && RedBlack(Plug(path, Nil))
    requires AllBelow(cmp, Before(path), key) && AllAbove(cmp, After(path), key)
    ensures PathOk(path, 0)
    ensures var es, t := InOrder(Plug(path, Nil)), Plug(path, Bin(n, Red, Entry(key, value), Nil, Nil));
            && InOrder(t) == Put(cmp, es, key, value) && Get(cmp, InOrder(t), key) == Some(value)
            && Sorted(cmp, InOrder(t)) && |InOrder(t)| == |es| + 1
            && Nodes(t) == Nodes(Plug(path, Nil)) + {n}
  {
    LeafAdded(path, n, Entry(key, value));
    Inserted(cmp, Before(path), After(path), key, value);
  }
}

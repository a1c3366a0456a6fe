/**
 What the repair cases after an insertion and after a deletion do to the shape of the tree,
 and why each keeps the entries in order and brings the rules back.
 */
module RedBlackRepair {
  import opened Wrappers
  import opened Orders
  import opened Entries
  import opened RedBlackShape

  ghost function RotatedLeft<N>(t: Shape<N>): Shape<N>
    requires t.Bin? && t.right.Bin?
  {
    var r := t.right;
    Bin(r.node, r.color, r.entry, Bin(t.node, t.color, t.entry, t.left, r.left), r.right)
  }

  ghost function RotatedRight<N>(t: Shape<N>): Shape<N>
    requires t.Bin? && t.left.Bin?
  {
    var l := t.left;
    Bin(l.node, l.color, l.entry, l.left, Bin(t.node, t.color, t.entry, l.right, t.right))
  }

  /** t keeps all the rules, and holds the nodes and the entries of t0, the entries in the same order. */
  ghost predicate Mended<N>(t: Shape<N>, t0: Shape<N>) {
    RedBlack(t) && InOrder(t) == InOrder(t0) && Nodes(t) == Nodes(t0)
  }

  /** Replacing a subtree by a fitting one with the same entries mends the tree. */
  lemma PlugMended<N>(path: Path<N>, r: Shape<N>, s: Shape<N>)
    requires Balanced(r) && PathOk(path, BlackHeight(r)) && (NeedsBlack(path) ==> !IsRed(r))
    requires InOrder(r) == InOrder(s) && Nodes(r) == Nodes(s)
    ensures Mended(Plug(path, r), Plug(path, s))
  {
    PlugRedBlack(path, r);
    PlugInOrder(path, r);
    PlugInOrder(path, s);
    PlugNodes(path, r);
    PlugNodes(path, s);
  }

  lemma RotationKeeps<N>(s: Shape<N>)
    ensures s.Bin? && s.left.Bin? ==>
              InOrder(RotatedRight(s)) == InOrder(s) && Nodes(RotatedRight(s)) == Nodes(s)
    ensures s.Bin? && s.right.Bin? ==>
              InOrder(RotatedLeft(s)) == InOrder(s) && Nodes(RotatedLeft(s)) == Nodes(s)
  {
    if s.Bin? && s.left.Bin? {
      var l := s.left;
      var tail := [s.entry] + InOrder(s.right);
      Reassociate([l.entry], InOrder(l.right), tail);
      Reassociate(InOrder(l.left), [l.entry] + InOrder(l.right), tail);
    }
    if s.Bin? && s.right.Bin? {
      var r := s.right;
      var tail := [r.entry] + InOrder(r.right);
      Reassociate([s.entry], InOrder(r.left), tail);
      Reassociate(InOrder(s.left), [s.entry] + InOrder(r.left), tail);
    }
  }

  /** The grandparent's subtree after the last insertion case: parent above node and grandparent. */
  ghost function Straightened<N>(path: Path<N>, s: Shape<N>): Shape<N>
    requires s.Bin? && path.Under? && path.up.Under? && path.side == path.up.side
  {
    var up := path.up;
    var p := Join(path.side, path.node, Black, path.entry, s, path.sibling);
    var g := Join(up.side, up.node, Red, up.entry, p, up.sibling);
    if up.side == Left then RotatedRight(g) else RotatedLeft(g)
  }

  /** After the fourth insertion case: node and parent are children on the same side. */
  ghost function AlignedPath<N>(path: Path<N>, s: Shape<N>): Path<N>
    requires s.Bin? && path.Under? && path.up.Under?
  {
    if path.side == path.up.side then path
    else if path.side == Right then Under(Left, s.node, s.color, s.entry, s.right, path.up)
    else Under(Right, s.node, s.color, s.entry, s.left, path.up)
  }

  ghost function Aligned<N>(path: Path<N>, s: Shape<N>): Shape<N>
    requires s.Bin? && path.Under? && path.up.Under?
  {
    if path.side == path.up.side then s
    else if path.side == Right then Bin(path.node, path.color, path.entry, path.sibling, s.left)
    else Bin(path.node, path.color, path.entry, s.right, path.sibling)
  }

  lemma StraightenedMends<N>(path: Path<N>, s: Shape<N>)
    requires IsRed(s) && Balanced(s) && PathOk(path, BlackHeight(s))
    requires path.Under? && path.color == Red && !IsRed(path.up.sibling) && path.side == path.up.side
    ensures Mended(Plug(path.up.up, Straightened(path, s)), Plug(path, s))
  {
    var up := path.up;
    var p := Join(path.side, path.node, Black, path.entry, s, path.sibling);
    RotationKeeps(Join(up.side, up.node, Red, up.entry, p, up.sibling));
    var p0 := OneUp(path, s);
    var g0 := OneUp(up, p0);
    PlugMended(up.up, Straightened(path, s), g0);
  }

  lemma AlignedMends<N>(path: Path<N>, s: Shape<N>)
    requires IsRed(s) && Balanced(s) && PathOk(path, BlackHeight(s))
    requires path.Under? && path.color == Red && !IsRed(path.up.sibling)
    ensures var g := Straightened(AlignedPath(path, s), Aligned(path, s));
            Mended(Plug(path.up.up, g), Plug(path, s))
  {
    var path', s' := AlignedPath(path, s), Aligned(path, s);
    StraightenedMends(path', s');
    var p := OneUp(path, s);
    RotationKeeps(p);
    var p' := OneUp(path', s');
    assert InOrder(p) == InOrder(p') && Nodes(p) == Nodes(p');
    PlugInOrder(path.up, p);
    PlugInOrder(path.up, p');
    PlugNodes(path.up, p);
    PlugNodes(path.up, p');
  }

  /** The grandparent's subtree after recolouring parent, uncle and grandparent. */
  ghost function Recolored<N>(path: Path<N>, s: Shape<N>): Shape<N>
    requires path.Under? && path.up.Under? && path.up.sibling.Bin?
  {
    var up := path.up;
    var p := Join(path.side, path.node, Black, path.entry, s, path.sibling);
    Join(up.side, up.node, Red, up.entry, p, up.sibling.(color := Black))
  }

  lemma RecoloredFits<N>(path: Path<N>, s: Shape<N>)
    requires IsRed(s) && Balanced(s) && PathOk(path, BlackHeight(s))
    requires path.Under? && path.color == Red && IsRed(path.up.sibling)
    ensures var g := Recolored(path, s);
            && IsRed(g) && Balanced(g) && PathOk(path.up.up, BlackHeight(g))
            && InOrder(Plug(path.up.up, g)) == InOrder(Plug(path, s))
            && Nodes(Plug(path.up.up, g)) == Nodes(Plug(path, s))
  {
    var g := Recolored(path, s);
    var up := path.up;
    var p0 := OneUp(path, s);
    var g0 := OneUp(up, p0);
    PlugInOrder(up.up, g);
    PlugInOrder(up.up, g0);
    PlugNodes(up.up, g);
    PlugNodes(up.up, g0);
  }

  /** The same place seen from the sibling. */
  ghost function Flipped<N>(path: Path<N>, s: Shape<N>): Path<N>
    requires path.Under?
  {
    Under(Other(path.side), path.node, path.color, path.entry, s, path.up)
  }

  /** The path after the parent is rotated towards the node and the sibling takes its place. */
  ghost function Lifted<N>(path: Path<N>): Path<N>
    requires path.Under? && path.sibling.Bin?
  {
    var sib := path.sibling;
    Under(path.side, path.node, path.color, path.entry, Child(path.side, sib),
          Under(path.side, sib.node, sib.color, sib.entry, Child(Other(path.side), sib), path.up))
  }

  ghost function WithChild<N>(side: Side, s: Shape<N>, child: Shape<N>): Shape<N>
    requires s.Bin?
  {
    if side == Left then s.(left := child) else s.(right := child)
  }

  /** The path after the fifth deletion case: the near nephew, painted black, has risen above the sibling. */
  ghost function NephewLifted<N>(path: Path<N>): Path<N>
    requires path.Under? && path.sibling.Bin? && Child(path.side, path.sibling).Bin?
  {
    var near := Child(path.side, path.sibling).(color := Black);
    var sib := WithChild(path.side, path.sibling.(color := Red), near);
    path.(sibling := if path.side == Left then RotatedRight(sib) else RotatedLeft(sib))
  }

  /** path' accepts a subtree of black height h, and holds what path holds around it. */
  ghost predicate Settled<N>(path': Path<N>, path: Path<N>, h: nat) {
    PathOk(path', h) && SameAround(path', path)
  }

  ghost predicate SameAround<N>(p: Path<N>, q: Path<N>) {
    Before(p) == Before(q) && After(p) == After(q) && PathNodes(p) == PathNodes(q)
  }

  lemma LiftedKeeps<N>(path: Path<N>)
    requires path.Under? && path.sibling.Bin?
    ensures SameAround(Lifted(path), path)
  {
    var e, sib, up := path.entry, path.sibling, path.up;
    if path.side == Left {
      calc {
        [e] + (InOrder(sib.left) + ([sib.entry] + InOrder(sib.right))) + After(up);
        { Reassociate([e], InOrder(sib.left), [sib.entry] + InOrder(sib.right)); }
        [e] + InOrder(sib.left) + ([sib.entry] + InOrder(sib.right)) + After(up);
        { Reassociate([e] + InOrder(sib.left), [sib.entry] + InOrder(sib.right), After(up)); }
        [e] + InOrder(sib.left) + ([sib.entry] + InOrder(sib.right) + After(up));
      }
    } else {
      calc {
        Before(up) + ((InOrder(sib.left) + ([sib.entry] + InOrder(sib.right))) + [e]);
        { Reassociate(InOrder(sib.left), [sib.entry], InOrder(sib.right)); }
        Before(up) + (((InOrder(sib.left) + [sib.entry]) + InOrder(sib.right)) + [e]);
        { Reassociate(InOrder(sib.left) + [sib.entry], InOrder(sib.right), [e]); }
        Before(up) + ((InOrder(sib.left) + [sib.entry]) + (InOrder(sib.right) + [e]));
        { Reassociate(Before(up), InOrder(sib.left) + [sib.entry], InOrder(sib.right) + [e]); }
        Before(up) + (InOrder(sib.left) + [sib.entry]) + (InOrder(sib.right) + [e]);
      }
    }
  }

  lemma NephewLiftedKeeps<N>(path: Path<N>)
    requires path.Under? && path.sibling.Bin? && Child(path.side, path.sibling).Bin?
    ensures SameAround(NephewLifted(path), path)
  {
    var near := Child(path.side, path.sibling).(color := Black);
    RotationKeeps(WithChild(path.side, path.sibling.(color := Red), near));
    assert InOrder(near) == InOrder(Child(path.side, path.sibling));
    assert Nodes(near) == Nodes(Child(path.side, path.sibling));
  }

  lemma NephewLiftedFits<N>(path: Path<N>, h: nat)
    requires path.Under? && PathOk(path, h + 1) && !IsRed(path.sibling)
    requires IsRed(Child(path.side, path.sibling)) && !IsRed(Child(Other(path.side), path.sibling))
    ensures var p := NephewLifted(path);
            && PathOk(p, h + 1) && SameAround(p, path)
            && !IsRed(p.sibling) && IsRed(Child(Other(path.side), p.sibling))
  {
    NephewLiftedKeeps(path);
    var r := NephewLifted(path).sibling;
    assert Balanced(path.sibling.left) && Balanced(path.sibling.right);
    assert Balanced(r.left) && Balanced(r.right);
  }

  /** The path in which the second deletion case leaves a node with a red sibling. */
  ghost function SiblingLifted<N>(path: Path<N>): Path<N>
    requires path.Under? && path.sibling.Bin?
  {
    Lifted(path.(color := Red, sibling := path.sibling.(color := Black)))
  }

  /** A red sibling settles the node once the parent's path is settled one black higher. */
  lemma PassedUpFits<N>(path: Path<N>, up: Path<N>, h: nat)
    requires path.Under? && path.color == Black && PathOk(path, h + 1) && path.sibling.Bin?
    requires !IsRed(path.sibling.left) && !IsRed(path.sibling.right) && !IsRed(path.sibling)
    requires Settled(up, path.up, h + 1)
    ensures Settled(path.(sibling := path.sibling.(color := Red), up := up), path, h)
  {
    assert InOrder(path.sibling.(color := Red)) == InOrder(path.sibling);
    assert Nodes(path.sibling.(color := Red)) == Nodes(path.sibling);
  }

  lemma SiblingLiftedFits<N>(path: Path<N>, h: nat)
    requires path.Under? && PathOk(path, h + 1) && IsRed(path.sibling)
    ensures var p := SiblingLifted(path);
            PathOk(p, h + 1) && SameAround(p, path) && !IsRed(p.sibling) && p.color == Red
  {
    var p := path.(color := Red, sibling := path.sibling.(color := Black));
    LiftedKeeps(p);
    assert InOrder(p.sibling) == InOrder(path.sibling);
    assert Nodes(p.sibling) == Nodes(path.sibling);
  }

  /** The path in which the last deletion case leaves the node. */
  ghost function FarLifted<N>(path: Path<N>): Path<N>
    requires path.Under? && path.sibling.Bin? && Child(Other(path.side), path.sibling).Bin?
  {
    var far := Child(Other(path.side), path.sibling).(color := Black);
    Lifted(path.(color := Black, sibling := WithChild(Other(path.side), path.sibling.(color := path.color), far)))
  }

  lemma FarLiftedFits<N>(path: Path<N>, h: nat)
    requires path.Under? && PathOk(path, h + 1) && !IsRed(path.sibling)
    requires IsRed(Child(Other(path.side), path.sibling))
    ensures Settled(FarLifted(path), path, h)
  {
    var far := Child(Other(path.side), path.sibling).(color := Black);
    var sib := WithChild(Other(path.side), path.sibling.(color := path.color), far);
    assert SameAround(FarLifted(path), path) by {
      LiftedKeeps(path.(color := Black, sibling := sib));
      assert InOrder(far) == InOrder(Child(Other(path.side), path.sibling));
      assert Nodes(far) == Nodes(Child(Other(path.side), path.sibling));
    }
    assert Balanced(path.sibling.left) && Balanced(path.sibling.right);
    assert PathOk(FarLifted(path).up, h + 1);
  }

  /** What the tree holds once a new leaf is in and the colours are mended. */
  lemma GrownMended<N>(cmp: Comparator, t: Shape<N>, path: Path<N>, n: N, key: Key, value: Value)
    requires TotalOrder(cmp) && Sorted(cmp, InOrder(Plug(path, Nil))) && RedBlack(Plug(path, Nil))
    requires AllBelow(cmp, Before(path), key) && AllAbove(cmp, After(path), key)
    requires Mended(t, Plug(path, Bin(n, Red, Entry(key, value), Nil, Nil)))
    ensures InOrder(t) == Put(cmp, InOrder(Plug(path, Nil)), key, value)
    ensures Get(cmp, InOrder(t), key) == Some(value)
    ensures Sorted(cmp, InOrder(t)) && |InOrder(t)| == |InOrder(Plug(path, Nil))| + 1
    ensures Nodes(t) == Nodes(Plug(path, Nil)) + {n}
  {
    Grown(cmp, path, n, key, value);
  }

  // ---------- Removing ----------

  /** The path to the heir h inside the subtree t, once t's root holds the heir's entry. */
  function HeirPath<N>(side: Side, inner: Path<N>, h: Shape<N>, path: Path<N>, t: Shape<N>): Path<N>
    requires t.Bin? && h.Bin?
  {
    Concat(inner, Under(side, t.node, t.color, h.entry, Child(Other(side), t), path))
  }

  lemma HeirPathPlug<N>(side: Side, inner: Path<N>, h: Shape<N>, path: Path<N>, t: Shape<N>)
    requires t.Bin? && h.Bin? && Child(side, t) == Plug(inner, h) && RedBlack(Plug(path, t))
    ensures var p := HeirPath(side, inner, h, path, t);
            && Plug(p, h) == Plug(path, t.(entry := h.entry))
            && RedBlack(Plug(p, h)) && PathNodes(p) + Nodes(h) == PathNodes(path) + Nodes(t)
  {
    var t' := t.(entry := h.entry);
    ConcatPlug(inner, Under(side, t.node, t.color, h.entry, Child(Other(side), t), path), h);
    PlugRedBlack(path, t);
    PlugRedBlack(path, t');
    var p := HeirPath(side, inner, h, path, t);
    PlugNodes(path, t');
    PlugNodes(p, h);
  }

  /** All entries but the one at the root of the subtree. */
  function Others<N>(path: Path<N>, t: Shape<N>): seq<Entry>
    requires t.Bin?
  {
    (Before(path) + InOrder(t.left)) + (InOrder(t.right) + After(path))
  }

  lemma HeirOnLeft<N>(inner: Path<N>, h: Shape<N>, path: Path<N>, t: Shape<N>)
    requires t.Bin? && h.Bin? && t.left == Plug(inner, h) && h.right.Nil? && After(inner) == []
    ensures Others(HeirPath(Left, inner, h, path, t), h) == Others(path, t)
  {
    ConcatAround(inner, Under(Left, t.node, t.color, h.entry, t.right, path));
    PlugInOrder(inner, h);
    var a, b, l, x, r, z := Before(path), Before(inner), InOrder(h.left), [h.entry], InOrder(t.right), After(path);
    assert [] + ([] + (x + r + z)) == x + r + z && b + (l + (x + [])) + [] == b + (l + x);
    Reassociate(x, r, z);
    Reassociate((a + b) + l, x, r + z);
    Reassociate(b, l, x);
    Reassociate(a, b + l, x);
    Reassociate(a, b, l);
  }

  lemma HeirOnRight<N>(inner: Path<N>, h: Shape<N>, path: Path<N>, t: Shape<N>)
    requires t.Bin? && h.Bin? && t.right == Plug(inner, h) && h.left.Nil? && Before(inner) == []
    ensures Others(HeirPath(Right, inner, h, path, t), h) == Others(path, t)
  {
    ConcatAround(inner, Under(Right, t.node, t.color, h.entry, t.left, path));
    PlugInOrder(inner, h);
    var a, l, x, r, b, z := Before(path), InOrder(t.left), [h.entry], InOrder(h.right), After(inner), After(path);
    assert a + (l + x) + [] + [] == a + (l + x) && [] + ([] + (x + r)) + b == (x + r) + b;
    Reassociate(a, l, x);
    Reassociate(x, r, b);
    Reassociate(r, b, z);
    Reassociate(x, r + b, z);
    Reassociate(a + l, x, (r + b) + z);
  }

  function OnlyChildOf<N>(t: Shape<N>): Shape<N>
    requires t.Bin?
  {
    if t.left.Bin? then t.left else t.right
  }

  /** The path to the only child of t, once the root of t holds the child's entry. */
  function ChildPath<N>(path: Path<N>, t: Shape<N>): Path<N>
    requires t.Bin? && OnlyChildOf(t).Bin?
  {
    Under(if t.left.Bin? then Left else Right, t.node, t.color, OnlyChildOf(t).entry, Nil, path)
  }

  /** An only child of a balanced tree is a red leaf, and its parent is black. */
  lemma OnlyChild<N>(t: Shape<N>)
    requires t.Bin? && Balanced(t) && (t.left.Nil? || t.right.Nil?)
    ensures var c := OnlyChildOf(t);
            if c.Bin? then c.color == Red && c.left == Nil && c.right == Nil && t.color == Black
            else BlackHeight(t) == Weight(t.color)
  {
    var c := OnlyChildOf(t);
    if c.Bin? {
      assert BlackHeight(c) == 0 && BlackHeight(c.left) == 0 && BlackHeight(c.right) == 0;
    }
  }

  /** Where a node with at most one child is to go, nothing but a black leaf leaves a gap. */
  lemma RemovalFits<N>(path: Path<N>, t: Shape<N>)
    requires t.Bin? && RedBlack(Plug(path, t)) && (t.left.Nil? || t.right.Nil?)
    ensures var c := OnlyChildOf(t);
            if c.Bin? then
              && c.color == Red && PathOk(ChildPath(path, t), 0)
              && Before(ChildPath(path, t)) + After(ChildPath(path, t)) == Others(path, t)
              && PathNodes(ChildPath(path, t)) <= PathNodes(path) + Nodes(t)
            else
              && PathOk(path, if t.color == Black then 1 else 0)
              && Before(path) + After(path) == Others(path, t)
  {
    PlugRedBlack(path, t);
    OnlyChild(t);
    var c := OnlyChildOf(t);
    var a, b := Before(path), After(path);
    if c.Bin? {
      if t.left.Bin? {
        assert (a + ([] + ([c.entry] + []))) + ([] + b) == a + ([c.entry] + [] + b);
      } else {
        assert (a + []) + (([] + ([c.entry] + [])) + b) == (a + ([] + [c.entry])) + b;
      }
    } else {
      assert (a + []) + ([] + b) == a + b;
    }
  }
}

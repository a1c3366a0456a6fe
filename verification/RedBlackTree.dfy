/**
 The red-black tree in memory: nodes linked to their children and parents, the walk down, insertion
 and deletion with their repair cases, folds, and the integrity check.  Ghost parameters name the path
 to a node and the shape below it; Focus says that the linked nodes are what path and shape tell.
 */
module RedBlackTree {
  import opened Wrappers
  import opened Orders
  import opened Entries
  import opened Powers
  import opened RedBlackShape
  import opened RedBlackRepair

  function Root(t: Shape<Node>): Node? {
    if t.Nil? then null else t.node
  }

  function ParentOf(path: Path<Node>): Node? {
    if path.Top? then null else path.node
  }

  /** The nodes below n, child of p, are distinct, have the shape t, and link back to their parents. */
  ghost predicate Linked(tree: Tree, n: Node?, p: Node?, t: Shape<Node>)
    reads Nodes(t)
    ensures Linked(tree, n, p, t) ==> n == Root(t)
  {
    match t
    case Nil => n == null
    case Bin(x, c, e, l, r) =>
      && n == x && x !in Nodes(l) && x !in Nodes(r) && Nodes(l) !! Nodes(r)
      && x.tree == tree && x.parent == p && x.color == c && x.key == e.key && x.value == e.value
      && Linked(tree, x.left, x, l) && Linked(tree, x.right, x, r)
  }

  /** The nodes above n, up to the root of the tree, form the path. */
  ghost predicate Hangs(tree: Tree, path: Path<Node>, n: Node?)
    reads tree`root, PathNodes(path)
  {
    match path
    case Top => tree.root == n
    case Under(side, x, c, e, sibling, up) =>
      && x !in Nodes(sibling) && x !in PathNodes(up) && Nodes(sibling) !! PathNodes(up)
      && x.tree == tree && x.parent == ParentOf(up) && x.color == c && x.key == e.key && x.value == e.value
      && n == (if side == Left then x.left else x.right)
      && Linked(tree, if side == Left then x.right else x.left, x, sibling)
      && Hangs(tree, up, x)
  }

  /** The tree is Plug(path, t), looked at from the root of t. */
  ghost predicate Focus(tree: Tree, path: Path<Node>, t: Shape<Node>)
    reads tree`root, PathNodes(path), Nodes(t)
  {
    && Nodes(t) !! PathNodes(path)
    && Linked(tree, Root(t), ParentOf(path), t)
    && Hangs(tree, path, Root(t))
  }

  lemma Climb(tree: Tree, path: Path<Node>, t: Shape<Node>)
    requires path.Under?
    ensures Focus(tree, path, t) <==>
            Focus(tree, path.up, OneUp(path, t))
  {
    var j := OneUp(path, t);
    assert Nodes(j) == {path.node} + Nodes(t) + Nodes(path.sibling);
  }

  lemma {:induction false} ClimbToTop(tree: Tree, path: Path<Node>, t: Shape<Node>)
    ensures Focus(tree, path, t) <==> Focus(tree, Top, Plug(path, t))
    ensures Nodes(Plug(path, t)) == PathNodes(path) + Nodes(t)
  {
    match path
    case Top =>
    case Under(side, x, c, e, sibling, up) =>
      Climb(tree, path, t);
      ClimbToTop(tree, up, Join(side, x, c, e, t, sibling));
  }

  lemma FocusParent(tree: Tree, path: Path<Node>, s: Shape<Node>)
    requires Focus(tree, path, s) && s.Bin? && path.Under?
    ensures s.node.parent == path.node && path.node.color == path.color
    ensures path.side == Left ==> s.node == path.node.left && Root(path.sibling) == path.node.right != s.node
    ensures path.side == Right ==> s.node == path.node.right && Root(path.sibling) == path.node.left != s.node
    ensures path.sibling.Bin? ==> path.sibling.node.color == path.sibling.color
  {
  }

  lemma FocusGrandparent(tree: Tree, path: Path<Node>, s: Shape<Node>)
    requires Focus(tree, path, s) && s.Bin? && path.Under? && path.up.Under?
    ensures s.node.Grandparent() == path.up.node
    ensures s.node.Uncle() == Root(path.up.sibling)
    ensures path.up.sibling.Bin? ==> path.up.sibling.node.color == path.up.sibling.color
    ensures path.up.side == Left <==> path.node == path.up.node.left
    ensures path.up.side == Right <==> path.node == path.up.node.right
  {
    FocusParent(tree, path, s);
    Climb(tree, path, s);
    FocusParent(tree, path.up, OneUp(path, s));
  }

  lemma Flip(tree: Tree, path: Path<Node>, s: Shape<Node>)
    requires path.Under?
    ensures Focus(tree, path, s) <==> Focus(tree, Flipped(path, s), path.sibling)
  {
    Climb(tree, path, s);
    Climb(tree, Flipped(path, s), path.sibling);
  }

  lemma FocusNephews(tree: Tree, path: Path<Node>, s: Shape<Node>)
    requires Focus(tree, path, s) && path.Under? && path.sibling.Bin?
    ensures var sib := path.sibling;
            && sib.node.left == Root(sib.left) && sib.node.right == Root(sib.right)
            && (sib.left.Bin? ==> sib.left.node.color == sib.left.color)
            && (sib.right.Bin? ==> sib.right.node.color == sib.right.color)
  {
    var sib := path.sibling;
    assert Linked(tree, sib.node, path.node, sib);
    assert Linked(tree, sib.node.left, sib.node, sib.left);
    assert Linked(tree, sib.node.right, sib.node, sib.right);
  }

  lemma LiftFocus(tree: Tree, path: Path<Node>, s: Shape<Node>)
    requires path.Under? && path.sibling.Bin?
    ensures var p := OneUp(path, s);
            Focus(tree, Lifted(path), s) <==>
            Focus(tree, path.up, if path.side == Left then RotatedLeft(p) else RotatedRight(p))
  {
    var l := Lifted(path);
    Climb(tree, l, s);
    Climb(tree, l.up, OneUp(l, s));
  }

  lemma FocusChildren(tree: Tree, path: Path<Node>, s: Shape<Node>)
    requires Focus(tree, path, s) && s.Bin?
    ensures s.node.color == s.color && s.node.left == Root(s.left) && s.node.right == Root(s.right)
    ensures s.node.key == s.entry.key && s.node.value == s.entry.value
    ensures s.left.Bin? ==> var l := s.left;
              l.node.color == l.color && l.node.key == l.entry.key && l.node.value == l.entry.value
    ensures s.right.Bin? ==> var r := s.right;
              r.node.color == r.color && r.node.key == r.entry.key && r.node.value == r.entry.value
  {
    assert Linked(tree, s.node.left, s.node, s.left) && Linked(tree, s.node.right, s.node, s.right);
  }

  lemma {:induction false} ConcatFocus(tree: Tree, inner: Path<Node>, outer: Path<Node>, t: Shape<Node>)
    ensures Focus(tree, Concat(inner, outer), t) <==> Focus(tree, outer, Plug(inner, t))
  {
    if inner.Under? {
      ConcatFocus(tree, inner.up, outer, OneUp(inner, t));
      Climb(tree, Concat(inner, outer), t);
    }
  }

  lemma DescendTo(tree: Tree, side: Side, inner: Path<Node>, h: Shape<Node>, path: Path<Node>, t: Shape<Node>)
    requires t.Bin? && h.Bin? && Child(side, t) == Plug(inner, h) && Focus(tree, path, t.(entry := h.entry))
    ensures Focus(tree, HeirPath(side, inner, h, path, t), h)
  {
    var down := Under(side, t.node, t.color, h.entry, Child(Other(side), t), path);
    Climb(tree, down, Child(side, t));
    ConcatFocus(tree, inner, down, h);
  }

  /** A tree's nodes are distinct and hold its entries, their children link back, and nothing more is linked. */
  lemma {:induction false} LinkedMeans(tree: Tree, n: Node?, p: Node?, s: Shape<Node>)
    ensures Linked(tree, n, p, s) <==>
            Shaped(n, s) && ParentsAgree(s) && (n != null ==> n.parent == p) && Apart(s) && Holds(tree, s)
    decreases s
  {
    if s.Bin? {
      LinkedMeans(tree, s.node.left, s.node, s.left);
      LinkedMeans(tree, s.node.right, s.node, s.right);
    }
  }

  class Tree {
    var root: Node?
    const cmp: Comparator
    var size: int
    ghost var shape: Shape<Node>
    ghost var rotations: nat

    ghost predicate Valid()
      reads this, Nodes(shape)
    {
      && Focus(this, Top, shape) && RedBlack(shape)
      && size == |InOrder(shape)|
      && TotalOrder(cmp) && Sorted(cmp, InOrder(shape))
    }

    /** The entries in ascending order of keys. */
    ghost function Contents(): seq<Entry>
      reads this
    {
      InOrder(shape)
    }

    constructor (cmp: Comparator)
      requires TotalOrder(cmp)
      ensures Valid() && Contents() == [] && this.cmp == cmp
    {
      this.cmp := cmp;
      root := null;
      size := 0;
      shape := Nil;
      rotations := 0;
    }

    method FoldL<A>(f: (Key, Value, A) -> A, acc: A) returns (r: A, ghost accs: seq<A>)
      requires Valid()
      ensures r == Fold(f, Contents(), acc)
      ensures Chained(f, Contents(), acc, accs) && r == accs[|Contents()|]
    {
      r, accs := NodeFoldL(root, f, acc, this, null, shape);
    }

    method FoldR<A>(f: (Key, Value, A) -> A, acc: A) returns (r: A, ghost accs: seq<A>)
      requires Valid()
      ensures r == Fold(f, Reversed(Contents()), acc)
      ensures Chained(f, Reversed(Contents()), acc, accs) && r == accs[|Reversed(Contents())|]
    {
      r, accs := NodeFoldR(root, f, acc, this, null, shape);
    }

    method Info() returns (info: TreeInfo)
      requires Valid()
      ensures info.size == |Contents()| && Longest(shape, info.height) && Shortest(shape, info.minHeight)
      ensures (forall w :: IsWay(shape, w) ==> Blacks(shape, w) == info.blackHeight)
      ensures info.height <= 2 * info.minHeight
      ensures info.redNumber == |Colored(shape, Red)| && info.blackNumber == |Colored(shape, Black)|
      ensures info.redNumber + info.blackNumber == info.size
    {
      LinkedMeans(this, root, null, shape);
      info := NodeInfo(root, shape);
      HeightsMean(shape);
      BalancedHeights(shape);
      forall w | IsWay(shape, w) ensures Blacks(shape, w) == info.blackHeight {
        WayBounds(shape, w);
      }
      EachColored(shape);
    }

    /** Asked of any linked nodes, whatever their colours and parent links. */
    method CheckIntegrity(ghost s: Shape<Node>) returns (ok: bool)
      requires Shaped(root, s)
      ensures ok <==> (forall x :: x in Nodes(s) ==> LinksBack(x)) && RedBlack(s)
    {
      if !(root == null || root.color == Black) {
        return false;
      }
      assert allocated(Nodes(s));
      ok := NodeCheckIntegrity(root, null, s);
      ParentsMean(root, s);
    }

    method Size() returns (n: int)
      requires Valid()
      ensures n == |Contents()|
    {
      n := size;
    }

    method Find(key: Key) returns (r: Option<Value>)
      requires Valid()
      ensures r == Get(cmp, Contents(), key)
    {
      var node, path, t, _ := FindNode(key);
      if node != null {
        Found(cmp, path, t, key);
        r := Some(node.value);
      } else {
        NotFound(cmp, path, key);
        r := None;
      }
    }

    method Insert(key: Key, value: Value) returns (r: Value)
      requires Valid()
      modifies this, Nodes(shape)
      ensures Valid() && Contents() == Put(cmp, old(Contents()), key, value)
      ensures Get(cmp, Contents(), key) == Some(r)
      ensures fresh(Nodes(shape) - old(Nodes(shape)))
      ensures rotations <= old(rotations) + 2
    {
      assert allocated(Nodes(shape));
      var node, parent, left, path, t, steps := Descend(key);
      if node != null {
        FoundPut(cmp, path, t, key, value);
        return node.value;
      }
      r := value;
      var n := Grow(parent, left, key, value, path);
    }

    /** Adds a node where the walk down ended, and repairs the colours. */
    method Grow(parent: Node?, left: bool, key: Key, value: Value, ghost path: Path<Node>) returns (n: Node)
      requires RedBlack(shape) && size == |Contents()| && TotalOrder(cmp) && Sorted(cmp, Contents())
      requires Focus(this, path, Nil) && Plug(path, Nil) == shape
      requires parent == ParentOf(path) && (path.Under? ==> left == (path.side == Left))
      requires AllBelow(cmp, Before(path), key) && AllAbove(cmp, After(path), key)
      modifies this, Nodes(shape)
      ensures Focus(this, Top, shape) && RedBlack(shape) && size == |Contents()| && Sorted(cmp, Contents())
      ensures Contents() == Put(cmp, old(Contents()), key, value)
      ensures Get(cmp, Contents(), key) == Some(value)
      ensures fresh(n) && Nodes(shape) == old(Nodes(shape)) + {n}
      ensures rotations <= old(rotations) + 2
    {
      PlugNodes(path, Nil);
      n := Plant(parent, left, key, value, path);
      size := size + 1;
      GrownMended(cmp, shape, path, n, key, value);
    }

    method Plant(parent: Node?, left: bool, key: Key, value: Value, ghost path: Path<Node>) returns (n: Node)
      requires Focus(this, path, Nil) && RedBlack(Plug(path, Nil))
      requires parent == ParentOf(path) && (path.Under? ==> left == (path.side == Left))
      modifies this`root, this`rotations, this`shape, PathNodes(path)
      ensures fresh(n) && Focus(this, Top, shape)
      ensures Mended(shape, Plug(path, Bin(n, Red, Entry(key, value), Nil, Nil)))
      ensures rotations <= old(rotations) + 2
    {
      n := Attach(parent, left, key, value, path);
      PlugRedBlack(path, Nil);
      n.Insert1(this, path, Bin(n, Red, Entry(key, value), Nil, Nil));
    }

    /** Links a new red node in where the walk down ended. */
    method Attach(parent: Node?, left: bool, key: Key, value: Value, ghost path: Path<Node>) returns (n: Node)
      requires Focus(this, path, Nil) && parent == ParentOf(path)
      requires path.Under? ==> left == (path.side == Left)
      modifies this`root, PathNodes(path)
      ensures fresh(n) && Focus(this, path, Bin(n, Red, Entry(key, value), Nil, Nil))
    {
      assert allocated(PathNodes(path));
      n := new Node(key, value);
      if parent == null {
        root := n;
      } else if left {
        parent.left := n;
      } else {
        parent.right := n;
      }
      n.tree := this;
      n.parent := parent;
      n.color := Red;
    }

    method Delete(key: Key) returns (r: Option<Value>)
      requires Valid()
      modifies this, Nodes(shape)
      ensures Valid() && Contents() == Drop(cmp, old(Contents()), key)
      ensures r == Get(cmp, old(Contents()), key)
      ensures Nodes(shape) <= old(Nodes(shape))
      ensures rotations <= old(rotations) + 3
    {
      hide Linked, Hangs, Balanced, AllBelow, AllAbove, TotalOrder, Sorted, BlackHeight, RedBlack;
      assert allocated(Nodes(shape));
      var node, path, t, _ := FindNode(key);
      if node == null {
        NotFound(cmp, path, key);
        return None;
      }
      Found(cmp, path, t, key);
      FocusChildren(this, path, t);
      PlugNodes(path, t);
      r := Some(node.value);
      DeleteNode(node, path, t);
      size := size - 1;
    }

    /** Drops the entry of a node: of the node itself, or of its heir after the heir's entry moved in. */
    method DeleteNode(node: Node, ghost path: Path<Node>, ghost t: Shape<Node>)
      requires Focus(this, path, t) && t.Bin? && t.node == node && RedBlack(Plug(path, t))
      modifies this`root, this`rotations, this`shape, PathNodes(path), Nodes(t)
      ensures Focus(this, Top, shape) && RedBlack(shape)
      ensures InOrder(shape) == Others(path, t)
      ensures Nodes(shape) <= PathNodes(path) + Nodes(t)
      ensures rotations <= old(rotations) + 3
    {
      var victim, path', t' := TakeHeir(node, path, t);
      Remove(victim, path', t');
    }

    /** Moves the entry next to the node's own into the node; the victim's own place is then to go. */
    method TakeHeir(node: Node, ghost path: Path<Node>, ghost t: Shape<Node>)
      returns (victim: Node, ghost path': Path<Node>, ghost t': Shape<Node>)
      requires Focus(this, path, t) && t.Bin? && t.node == node && RedBlack(Plug(path, t))
      modifies node`key, node`value
      ensures Focus(this, path', t') && t'.Bin? && t'.node == victim && RedBlack(Plug(path', t'))
      ensures t'.left.Nil? || t'.right.Nil?
      ensures Others(path', t') == Others(path, t)
      ensures PathNodes(path') + Nodes(t') == PathNodes(path) + Nodes(t)
    {
      victim, path', t' := node, path, t;
      assert allocated(PathNodes(path)) && allocated(Nodes(t));
      if node.left != null {
        ghost var inner;
        victim, inner, t' := node.left.Max(this, node, t.left);
        path' := HeirPath(Left, inner, t', path, t);
        HeirPathPlug(Left, inner, t', path, t);
        HeirOnLeft(inner, t', path, t);
        node.TakeEntry(victim, this, path, t, t'.entry);
        DescendTo(this, Left, inner, t', path, t);
      } else if node.right != null {
        ghost var inner;
        victim, inner, t' := node.right.Min(this, node, t.right);
        path' := HeirPath(Right, inner, t', path, t);
        HeirPathPlug(Right, inner, t', path, t);
        HeirOnRight(inner, t', path, t);
        node.TakeEntry(victim, this, path, t, t'.entry);
        DescendTo(this, Right, inner, t', path, t);
      }
    }

    /** Takes a node with at most one child out of the tree. */
    method Remove(victim: Node, ghost path: Path<Node>, ghost t: Shape<Node>)
      requires Focus(this, path, t) && t.Bin? && t.node == victim && RedBlack(Plug(path, t))
      requires t.left.Nil? || t.right.Nil?
      modifies this`root, this`rotations, this`shape, PathNodes(path), Nodes(t)
      ensures Focus(this, Top, shape) && RedBlack(shape)
      ensures InOrder(shape) == Others(path, t)
      ensures Nodes(shape) <= PathNodes(path) + Nodes(t)
      ensures rotations <= old(rotations) + 3
    {
      hide Linked, Hangs, Balanced, BlackHeight, InOrder, Plug;
      RemovalFits(path, t);
      FocusChildren(this, path, t);
      var gone := victim;
      ghost var path', s := path, t;
      var heir := if victim.left != null then victim.left else victim.right;
      if heir != null {
        path', s := ChildPath(path, t), OnlyChildOf(t);
        victim.TakeEntry(heir, this, path, t, s.entry);
        if heir.color == Black {
          // the source repairs the tree here; RemovalFits shows that it never comes to it
          assert false;
        }
        Climb(this, path', s);
        gone := heir;
      } else if victim.color == Black {
        path' := victim.Delete1(this, path, t, 0);
      }
      DropLeaf(gone, path', s);
    }

    method DropLeaf(gone: Node, ghost path: Path<Node>, ghost s: Shape<Node>)
      requires Focus(this, path, s) && s.Bin? && s.node == gone && PathOk(path, 0)
      modifies this`root, this`shape, PathNodes(path)
      ensures Focus(this, Top, shape) && RedBlack(shape)
      ensures InOrder(shape) == Before(path) + After(path) && Nodes(shape) == PathNodes(path)
    {
      gone.Unlink(this, path, s);
      CloseRemoval(path);
    }

    ghost method CloseRemoval(path: Path<Node>)
      requires Focus(this, path, Nil) && PathOk(path, 0)
      modifies this`shape
      ensures Focus(this, Top, shape) && RedBlack(shape)
      ensures InOrder(shape) == Before(path) + After(path) && Nodes(shape) == PathNodes(path)
    {
      shape := Plug(path, Nil);
      ClimbToTop(this, path, Nil);
      PlugRedBlack(path, Nil);
      PlugInOrder(path, Nil);
      PlugNodes(path, Nil);
    }

    ghost method CloseInsertion(path: Path<Node>, s: Shape<Node>)
      requires IsRed(s) && Balanced(s) && PathOk(path, BlackHeight(s))
      requires path.Under? && path.color == Red && !IsRed(path.up.sibling)
      requires Focus(this, path.up.up, Straightened(AlignedPath(path, s), Aligned(path, s)))
      modifies this`shape
      ensures Focus(this, Top, shape) && Mended(shape, Plug(path, s))
    {
      var g := Straightened(AlignedPath(path, s), Aligned(path, s));
      shape := Plug(path.up.up, g);
      AlignedMends(path, s);
      ClimbToTop(this, path.up.up, g);
    }

    /** The node with an equivalent key, or none; steps counts the runs of the loop body. */
    method FindNode(key: Key)
      returns (node: Node?, ghost path: Path<Node>, ghost t: Shape<Node>, ghost steps: nat)
      requires Valid()
      ensures Focus(this, path, t) && Plug(path, t) == shape && node == Root(t)
      ensures AllBelow(cmp, Before(path), key) && AllAbove(cmp, After(path), key)
      ensures node != null ==> node.key == t.entry.key && cmp(key, node.key) == 0
      ensures steps == Depth(path) + (if node != null then 1 else 0)
      ensures Pow2(steps) <= (size + 1) * (size + 1)
    {
      var n, _, _, path', t', steps' := Descend(key);
      node, path, t, steps := n, path', t', steps';
    }

    /**
     The walk down from the root that searching and inserting share.  It ends at an equivalent key,
     or below the parent, on the left or the right, where the key is missing; steps counts the runs
     of the loop body, the last one that finds the key among them.
     */
    method Descend(key: Key)
      returns (node: Node?, parent: Node?, left: bool, ghost path: Path<Node>, ghost t: Shape<Node>, ghost steps: nat)
      requires Valid()
      ensures Focus(this, path, t) && Plug(path, t) == shape && node == Root(t)
      ensures parent == ParentOf(path) && (path.Under? ==> left == (path.side == Left))
      ensures AllBelow(cmp, Before(path), key) && AllAbove(cmp, After(path), key)
      ensures node != null ==> node.key == t.entry.key && cmp(key, node.key) == 0
      ensures steps == Depth(path) + (if node != null then 1 else 0)
      ensures Pow2(steps) <= (size + 1) * (size + 1)
    {
      node, parent, left, path, t, steps := root, null, false, Top, shape, 0;
      while node != null
        invariant Focus(this, path, t) && Plug(path, t) == shape && node == Root(t)
        invariant parent == ParentOf(path) && (path.Under? ==> left == (path.side == Left))
        invariant AllBelow(cmp, Before(path), key) && AllAbove(cmp, After(path), key)
        invariant steps == Depth(path)
        decreases t
      {
        steps := steps + 1;
        var c := cmp(key, node.key);
        if c == 0 {
          break;
        }
        parent, left := node, c < 0;
        if c < 0 {
          StepLeft(cmp, path, t, key);
          path, t := Under(Left, t.node, t.color, t.entry, t.right, path), t.left;
          node := node.left;
        } else {
          StepRight(cmp, path, t, key);
          path, t := Under(Right, t.node, t.color, t.entry, t.left, path), t.right;
          node := node.right;
        }
        Climb(this, path, t);
      }
      HeightBelow(path, t);
      LogarithmicHeight(shape, steps);
    }
  }

  class Node {
    var tree: Tree?
    var parent: Node?
    var left: Node?
    var right: Node?
    var color: Color
    var key: Key
    var value: Value

    constructor (key: Key, value: Value)
      ensures this.key == key && this.value == value && color == Red
      ensures tree == null && parent == null && left == null && right == null
    {
      tree, parent, left, right := null, null, null, null;
      this.key, this.value, color := key, value, Red;
    }

    function Grandparent(): Node?
      reads this, parent
    {
      if parent != null then parent.parent else null
    }

    function Uncle(): Node?
      reads this, parent, Grandparent()
    {
      var g := Grandparent();
      if g != null then (if parent == g.left then g.right else g.left) else null
    }

    function Sibling(): Node?
      reads this, parent
    {
      if parent != null then (if this == parent.left then parent.right else parent.left) else null
    }

    /** Puts heir in this node's place below its parent, or at the root. */
    method TakePlace(ghost t: Tree, ghost path: Path<Node>, ghost s: Shape<Node>, heir: Node)
      requires Focus(t, path, s) && s.Bin? && s.node == this
      modifies t`root, PathNodes(path)
      ensures Hangs(t, path, heir) && Linked(t, this, ParentOf(path), s)
    {
      assert path.Under? ==> Root(path.sibling) != this;
      if parent != null {
        if this == parent.left {
          parent.left := heir;
        } else {
          parent.right := heir;
        }
      } else {
        tree.root := heir;
      }
    }

    method RelinkLeft(ghost t: Tree, ghost p: Node?, ghost s: Shape<Node>)
      requires Linked(t, this, p, s) && s.Bin? && s.right.Bin?
      modifies Nodes(s)
      ensures Linked(t, s.right.node, p, RotatedLeft(s))
    {
      ghost var y, b := s.right.node, s.right.left;
      assert Linked(t, y.left, y, b);
      right.parent := parent;
      parent := right;
      right := right.left;
      parent.left := this;
      if right != null {
        right.parent := this;
      }
      assert Linked(t, right, this, b);
      assert Linked(t, this, y, RotatedLeft(s).left);
    }

    method RotateLeft(ghost t: Tree, ghost path: Path<Node>, ghost s: Shape<Node>)
      requires Focus(t, path, s) && s.Bin? && s.node == this && s.right.Bin?
      modifies t`root, t`rotations, PathNodes(path), Nodes(s)
      ensures Focus(t, path, RotatedLeft(s)) && t.rotations == old(t.rotations) + 1
    {
      hide Linked, Hangs, Nodes, PathNodes;
      RotationKeeps(s);
      FocusChildren(t, path, s);
      TakePlace(t, path, s, right);
      assert allocated(PathNodes(path));
      RelinkLeft(t, ParentOf(path), s);
      t.rotations := t.rotations + 1;
    }

    method RotateRight(ghost t: Tree, ghost path: Path<Node>, ghost s: Shape<Node>)
      requires Focus(t, path, s) && s.Bin? && s.node == this && s.left.Bin?
      modifies t`root, t`rotations, PathNodes(path), Nodes(s)
      ensures Focus(t, path, RotatedRight(s)) && t.rotations == old(t.rotations) + 1
    {
      hide Linked, Hangs, Nodes, PathNodes;
      RotationKeeps(s);
      FocusChildren(t, path, s);
      TakePlace(t, path, s, left);
      assert allocated(PathNodes(path));
      RelinkRight(t, ParentOf(path), s);
      t.rotations := t.rotations + 1;
    }

    method RelinkRight(ghost t: Tree, ghost p: Node?, ghost s: Shape<Node>)
      requires Linked(t, this, p, s) && s.Bin? && s.left.Bin?
      modifies Nodes(s)
      ensures Linked(t, s.left.node, p, RotatedRight(s))
    {
      ghost var y, b := s.left.node, s.left.right;
      assert Linked(t, y.right, y, b);
      left.parent := parent;
      parent := left;
      left := left.right;
      parent.right := this;
      if left != null {
        left.parent := this;
      }
      assert Linked(t, left, this, b);
      assert Linked(t, this, y, RotatedRight(s).right);
    }

    method TakeEntry(heir: Node, ghost t: Tree, ghost path: Path<Node>, ghost s: Shape<Node>, ghost e: Entry)
      requires Focus(t, path, s) && s.Bin? && s.node == this
      requires heir.key == e.key && heir.value == e.value
      modifies this`key, this`value
      ensures Focus(t, path, s.(entry := e))
    {
      key := heir.key;
      value := heir.value;
    }

    method Unlink(ghost t: Tree, ghost path: Path<Node>, ghost s: Shape<Node>)
      requires Focus(t, path, s) && s.Bin? && s.node == this
      modifies t`root, PathNodes(path)
      ensures Focus(t, path, Nil)
    {
      assert path.Under? ==> Root(path.sibling) != this;
      if parent == null {
        tree.root := null;
      } else if this == parent.left {
        parent.left := null;
      } else {
        parent.right := null;
      }
    }

    method Max(ghost t: Tree, ghost p: Node?, ghost s: Shape<Node>)
      returns (m: Node, ghost inner: Path<Node>, ghost h: Shape<Node>)
      requires Linked(t, this, p, s)
      ensures h.Bin? && m == h.node && m.key == h.entry.key && m.value == h.entry.value
      ensures s == Plug(inner, h) && h.right.Nil? && After(inner) == []
    {
      m, inner, h := this, Top, s;
      ghost var above := p;
      while m.right != null
        invariant Linked(t, m, above, h) && s == Plug(inner, h) && After(inner) == []
        decreases h
      {
        above := m;
        m := m.right;
        inner, h := Under(Right, h.node, h.color, h.entry, h.left, inner), h.right;
      }
    }

    method Min(ghost t: Tree, ghost p: Node?, ghost s: Shape<Node>)
      returns (m: Node, ghost inner: Path<Node>, ghost h: Shape<Node>)
      requires Linked(t, this, p, s)
      ensures h.Bin? && m == h.node && m.key == h.entry.key && m.value == h.entry.value
      ensures s == Plug(inner, h) && h.left.Nil? && Before(inner) == []
    {
      m, inner, h := this, Top, s;
      ghost var above := p;
      while m.left != null
        invariant Linked(t, m, above, h) && s == Plug(inner, h) && Before(inner) == []
        decreases h
      {
        above := m;
        m := m.left;
        inner, h := Under(Left, h.node, h.color, h.entry, h.right, inner), h.left;
      }
    }

    method Paint(c: Color, ghost t: Tree, ghost path: Path<Node>, ghost s: Shape<Node>)
      requires Focus(t, path, s) && s.Bin? && s.node == this
      modifies this`color
      ensures Focus(t, path, s.(color := c))
    {
      color := c;
    }

    /** Makes a red uncle black. */
    method RecolorFamily(u: Node, ghost t: Tree, ghost path: Path<Node>, ghost s: Shape<Node>)
      requires Focus(t, path, s) && s.Bin? && s.node == this
      requires path.Under? && path.up.Under? && u == Root(path.up.sibling)
      modifies PathNodes(path)
      ensures Focus(t, path.up.up, Recolored(path, s))
    {
      FocusGrandparent(t, path, s);
      ghost var up := path.up;
      ghost var p := OneUp(path, s);
      ghost var uPath := Under(if up.side == Left then Right else Left, up.node, up.color, up.entry, p, up.up);
      Climb(t, path, s);
      Climb(t, up, p);
      Climb(t, uPath, up.sibling);
      u.Paint(Black, t, uPath, up.sibling);
      up := up.(sibling := up.sibling.(color := Black));
      Climb(t, uPath, up.sibling);
      Climb(t, up, p);
      parent.Paint(Black, t, up, p);
      p := p.(color := Black);
      Climb(t, up, p);
      var g := Grandparent();
      g.Paint(Red, t, up.up, OneUp(up, p));
    }

    method Insert1(ghost t: Tree, ghost path: Path<Node>, ghost s: Shape<Node>)
      requires Focus(t, path, s) && s.Bin? && s.node == this
      requires IsRed(s) && Balanced(s) && PathOk(path, BlackHeight(s))
      modifies t`root, t`rotations, t`shape, PathNodes(path), Nodes(s)
      ensures Focus(t, Top, t.shape) && Mended(t.shape, Plug(path, s))
      ensures t.rotations <= old(t.rotations) + 2
      decreases path, 3
    {
      if parent == null {
        Paint(Black, t, path, s);
        t.shape := s.(color := Black);
      } else {
        Insert2(t, path, s);
      }
    }

    method Insert2(ghost t: Tree, ghost path: Path<Node>, ghost s: Shape<Node>)
      requires Focus(t, path, s) && s.Bin? && s.node == this
      requires IsRed(s) && Balanced(s) && PathOk(path, BlackHeight(s))
      requires path.Under?
      modifies t`root, t`rotations, t`shape, PathNodes(path), Nodes(s)
      ensures Focus(t, Top, t.shape) && Mended(t.shape, Plug(path, s))
      ensures t.rotations <= old(t.rotations) + 2
      decreases path, 2
    {
      FocusParent(t, path, s);
      if parent.color == Black {
        t.shape := Plug(path, s);
        ClimbToTop(t, path, s);
        PlugRedBlack(path, s);
        PlugInOrder(path, s);
      } else {
        Insert3(t, path, s);
      }
    }

    method Insert3(ghost t: Tree, ghost path: Path<Node>, ghost s: Shape<Node>)
      requires Focus(t, path, s) && s.Bin? && s.node == this
      requires IsRed(s) && Balanced(s) && PathOk(path, BlackHeight(s))
      requires path.Under? && path.color == Red
      modifies t`root, t`rotations, t`shape, PathNodes(path), Nodes(s)
      ensures Focus(t, Top, t.shape) && Mended(t.shape, Plug(path, s))
      ensures t.rotations <= old(t.rotations) + 2
      decreases path, 1
    {
      FocusGrandparent(t, path, s);
      var u := Uncle();
      var g := Grandparent();
      if u != null && u.color == Red {
        RecolorFamily(u, t, path, s);
        RecoloredFits(path, s);
        g.Insert1(t, path.up.up, Recolored(path, s));
      } else {
        Insert4(t, path, s);
        t.CloseInsertion(path, s);
      }
    }

    method Insert4(ghost t: Tree, ghost path: Path<Node>, ghost s: Shape<Node>)
      requires Focus(t, path, s) && s.Bin? && s.node == this
      requires path.Under? && path.up.Under?
      modifies t`root, t`rotations, PathNodes(path), Nodes(s)
      ensures Focus(t, path.up.up, Straightened(AlignedPath(path, s), Aligned(path, s)))
      ensures t.rotations <= old(t.rotations) + 2
    {
      var node := this;
      var g := Grandparent();
      FocusParent(t, path, s);
      FocusGrandparent(t, path, s);
      ghost var p := OneUp(path, s);
      ghost var path', s' := AlignedPath(path, s), Aligned(path, s);
      Climb(t, path, s);
      if this == parent.right && parent == g.left {
        parent.RotateLeft(t, path.up, p);
        Climb(t, path', s');
        node := left;
      } else if this == parent.left && parent == g.right {
        parent.RotateRight(t, path.up, p);
        Climb(t, path', s');
        node := right;
      }
      node.Insert5(t, path', s');
    }

    method Insert5(ghost t: Tree, ghost path: Path<Node>, ghost s: Shape<Node>)
      requires Focus(t, path, s) && s.Bin? && s.node == this
      requires path.Under? && path.up.Under? && path.side == path.up.side
      modifies t`root, t`rotations, PathNodes(path), Nodes(s)
      ensures Focus(t, path.up.up, Straightened(path, s))
      ensures t.rotations == old(t.rotations) + 1
    {
      var g := Grandparent();
      ghost var up := path.up;
      ghost var p := OneUp(path, s);
      Climb(t, path, s);
      parent.Paint(Black, t, up, p);
      p := p.(color := Black);
      ghost var gs := OneUp(up, p);
      Climb(t, up, p);
      g.Paint(Red, t, up.up, gs);
      gs := gs.(color := Red);
      if this == parent.left && parent == g.left {
        g.RotateRight(t, up.up, gs);
      } else if this == parent.right && parent == g.right {
        g.RotateLeft(t, up.up, gs);
      }
    }

    method PaintParent(c: Color, ghost t: Tree, ghost path: Path<Node>, ghost s: Shape<Node>)
      requires Focus(t, path, s) && s.Bin? && s.node == this && path.Under?
      modifies path.node`color
      ensures Focus(t, path.(color := c), s)
    {
      Climb(t, path, s);
      parent.Paint(c, t, path.up, OneUp(path, s));
      Climb(t, path.(color := c), s);
    }

    method PaintSibling(c: Color, sib: Node, ghost t: Tree, ghost path: Path<Node>, ghost s: Shape<Node>)
      requires Focus(t, path, s) && s.Bin? && s.node == this && path.Under? && sib == Root(path.sibling)
      modifies sib`color
      ensures Focus(t, path.(sibling := path.sibling.(color := c)), s)
    {
      Flip(t, path, s);
      sib.Paint(c, t, Flipped(path, s), path.sibling);
      Flip(t, path.(sibling := path.sibling.(color := c)), s);
    }

    method RotateParent(ghost t: Tree, ghost path: Path<Node>, ghost s: Shape<Node>)
      requires Focus(t, path, s) && s.Bin? && s.node == this && path.Under? && path.sibling.Bin?
      modifies t`root, t`rotations, PathNodes(path), Nodes(s)
      ensures Focus(t, Lifted(path), s) && t.rotations == old(t.rotations) + 1
    {
      ghost var p := OneUp(path, s);
      FocusParent(t, path, s);
      Climb(t, path, s);
      if this == parent.left {
        parent.RotateLeft(t, path.up, p);
      } else {
        parent.RotateRight(t, path.up, p);
      }
      LiftFocus(t, path, s);
    }

    method Delete1(ghost t: Tree, ghost path: Path<Node>, ghost s: Shape<Node>, ghost h: nat)
      returns (ghost path': Path<Node>)
      requires Focus(t, path, s) && s.Bin? && s.node == this && PathOk(path, h + 1)
      modifies t`root, t`rotations, PathNodes(path), Nodes(s)
      ensures Focus(t, path', s) && Settled(path', path, h)
      ensures t.rotations <= old(t.rotations) + 3
      decreases Depth(path), 3
    {
      path' := path;
      if parent != null {
        path' := Delete2(t, path, s, h);
      }
    }

    method Delete2(ghost t: Tree, ghost path: Path<Node>, ghost s: Shape<Node>, ghost h: nat)
      returns (ghost path': Path<Node>)
      requires Focus(t, path, s) && s.Bin? && s.node == this && PathOk(path, h + 1) && path.Under?
      modifies t`root, t`rotations, PathNodes(path), Nodes(s)
      ensures Focus(t, path', s) && Settled(path', path, h)
      ensures t.rotations <= old(t.rotations) + 3
      decreases Depth(path), 2
    {
      FocusParent(t, path, s);
      var sib := Sibling();
      path' := path;
      if sib != null && sib.color == Red {
        ghost var p := path.(color := Red);
        PaintParent(Red, t, path, s);
        PaintSibling(Black, sib, t, p, s);
        p := p.(sibling := p.sibling.(color := Black));
        RotateParent(t, p, s);
        path' := SiblingLifted(path);
        SiblingLiftedFits(path, h);
      }
      path' := Delete3(t, path', s, h);
    }

    method Delete3(ghost t: Tree, ghost path: Path<Node>, ghost s: Shape<Node>, ghost h: nat)
      returns (ghost path': Path<Node>)
      requires Focus(t, path, s) && s.Bin? && s.node == this && PathOk(path, h + 1) && path.Under?
      requires !IsRed(path.sibling)
      modifies t`root, t`rotations, PathNodes(path), Nodes(s)
      ensures Focus(t, path', s) && Settled(path', path, h)
      ensures t.rotations <= old(t.rotations) + (if path.color == Red then 2 else 3)
      decreases if path.color == Red then 0 else Depth(path), 1
    {
      FocusParent(t, path, s);
      FocusNephews(t, path, s);
      var sib := Sibling();
      if parent.color == Black && sib != null && sib.color == Black
         && (sib.left == null || sib.left.color == Black) && (sib.right == null || sib.right.color == Black) {
        path' := PassUp(sib, t, path, s, h);
      } else {
        path' := Delete4(t, path, s, h);
      }
    }

    /** Takes a black node from the sibling's side as well, and leaves the gap to the parent. */
    method PassUp(sib: Node, ghost t: Tree, ghost path: Path<Node>, ghost s: Shape<Node>, ghost h: nat)
      returns (ghost path': Path<Node>)
      requires Focus(t, path, s) && s.Bin? && s.node == this && PathOk(path, h + 1) && path.Under?
      requires path.color == Black && sib == Root(path.sibling) && !IsRed(path.sibling)
      requires !IsRed(path.sibling.left) && !IsRed(path.sibling.right)
      modifies t`root, t`rotations, PathNodes(path), Nodes(s)
      ensures Focus(t, path', s) && Settled(path', path, h)
      ensures t.rotations <= old(t.rotations) + 3
      decreases Depth(path), 0
    {
      PaintSibling(Red, sib, t, path, s);
      ghost var p := path.(sibling := path.sibling.(color := Red));
      FocusParent(t, p, s);
      Climb(t, p, s);
      ghost var up := parent.Delete1(t, path.up, OneUp(p, s), h + 1);
      path' := p.(up := up);
      Climb(t, path', s);
      PassedUpFits(path, up, h);
    }

    method Delete4(ghost t: Tree, ghost path: Path<Node>, ghost s: Shape<Node>, ghost h: nat)
      returns (ghost path': Path<Node>)
      requires Focus(t, path, s) && s.Bin? && s.node == this && PathOk(path, h + 1) && path.Under?
      requires !IsRed(path.sibling)
      requires path.color == Black ==> IsRed(path.sibling.left) || IsRed(path.sibling.right)
      modifies t`root, t`rotations, PathNodes(path), Nodes(s)
      ensures Focus(t, path', s) && Settled(path', path, h)
      ensures t.rotations <= old(t.rotations) + 2
    {
      FocusParent(t, path, s);
      FocusNephews(t, path, s);
      var sib := Sibling();
      if parent.color == Red && sib != null && sib.color == Black
         && (sib.left == null || sib.left.color == Black) && (sib.right == null || sib.right.color == Black) {
        PaintSibling(Red, sib, t, path, s);
        path' := path.(sibling := path.sibling.(color := Red));
        PaintParent(Black, t, path', s);
        path' := path'.(color := Black);
      } else {
        path' := Delete5(t, path, s, h);
      }
    }

    method Delete5(ghost t: Tree, ghost path: Path<Node>, ghost s: Shape<Node>, ghost h: nat)
      returns (ghost path': Path<Node>)
      requires Focus(t, path, s) && s.Bin? && s.node == this && PathOk(path, h + 1) && path.Under?
      requires !IsRed(path.sibling)
      requires IsRed(path.sibling.left) || IsRed(path.sibling.right)
      modifies t`root, t`rotations, PathNodes(path), Nodes(s)
      ensures Focus(t, path', s) && Settled(path', path, h)
      ensures t.rotations <= old(t.rotations) + 2
    {
      FocusParent(t, path, s);
      FocusNephews(t, path, s);
      var sib := Sibling();
      path' := path;
      if sib == null || sib.color == Black {
        if this == parent.left && sib != null && (sib.right == null || sib.right.color == Black)
           && sib.left != null && sib.left.color == Red {
          RotateNephew(sib, t, path, s);
          path' := NephewLifted(path);
          NephewLiftedFits(path, h);
        } else if this == parent.right && (sib.left == null || sib.left.color == Black)
                  && sib.right != null && sib.right.color == Red {
          RotateNephew(sib, t, path, s);
          path' := NephewLifted(path);
          NephewLiftedFits(path, h);
        }
      }
      Delete6(t, path', s);
      FarLiftedFits(path', h);
      path' := FarLifted(path');
    }

    /** Paints sibling and near nephew and rotates the sibling away from this node. */
    method RotateNephew(sib: Node, ghost t: Tree, ghost path: Path<Node>, ghost s: Shape<Node>)
      requires Focus(t, path, s) && s.Bin? && s.node == this && path.Under? && sib == Root(path.sibling)
      requires Child(path.side, path.sibling).Bin?
      modifies t`root, t`rotations, PathNodes(path), Nodes(s)
      ensures Focus(t, NephewLifted(path), s) && t.rotations == old(t.rotations) + 1
    {
      FocusParent(t, path, s);
      FocusNephews(t, path, s);
      PaintSibling(Red, sib, t, path, s);
      ghost var p := path.(sibling := path.sibling.(color := Red));
      Flip(t, p, s);
      if this == parent.left {
        sib.PaintChild(sib.left, Left, t, Flipped(p, s), p.sibling);
        sib.RotateRight(t, Flipped(p, s), WithChild(Left, p.sibling, p.sibling.left.(color := Black)));
      } else {
        sib.PaintChild(sib.right, Right, t, Flipped(p, s), p.sibling);
        sib.RotateLeft(t, Flipped(p, s), WithChild(Right, p.sibling, p.sibling.right.(color := Black)));
      }
      Flip(t, NephewLifted(path), s);
    }

    method PaintChild(child: Node, ghost side: Side, ghost t: Tree, ghost path: Path<Node>, ghost s: Shape<Node>)
      requires Focus(t, path, s) && s.Bin? && s.node == this
      requires Child(side, s).Bin? && child == Child(side, s).node
      modifies child`color
      ensures Focus(t, path, WithChild(side, s, Child(side, s).(color := Black)))
    {
      ghost var down := Under(side, this, s.color, s.entry, Child(Other(side), s), path);
      Climb(t, down, Child(side, s));
      child.Paint(Black, t, down, Child(side, s));
      Climb(t, down, Child(side, s).(color := Black));
    }

    method Delete6(ghost t: Tree, ghost path: Path<Node>, ghost s: Shape<Node>)
      requires Focus(t, path, s) && s.Bin? && s.node == this && path.Under?
      requires path.sibling.Bin? && Child(Other(path.side), path.sibling).Bin?
      modifies t`root, t`rotations, PathNodes(path), Nodes(s)
      ensures Focus(t, FarLifted(path), s)
      ensures t.rotations == old(t.rotations) + 1
    {
      FocusParent(t, path, s);
      var sib := Sibling();
      PaintSibling(parent.color, sib, t, path, s);
      ghost var p := path.(sibling := path.sibling.(color := path.color));
      PaintParent(Black, t, p, s);
      p := p.(color := Black);
      FocusParent(t, p, s);
      FocusNephews(t, p, s);
      Flip(t, p, s);
      if this == parent.left {
        sib.PaintChild(sib.right, Right, t, Flipped(p, s), p.sibling);
      } else {
        sib.PaintChild(sib.left, Left, t, Flipped(p, s), p.sibling);
      }
      p := p.(sibling := WithChild(Other(p.side), p.sibling, Child(Other(p.side), p.sibling).(color := Black)));
      Flip(t, p, s);
      RotateParent(t, p, s);
    }
  }

  // ---------- Folding ----------

  method NodeFoldL<A>(n: Node?, f: (Key, Value, A) -> A, acc: A, ghost tree: Tree, ghost p: Node?, ghost s: Shape<Node>)
    returns (r: A, ghost accs: seq<A>)
    requires Linked(tree, n, p, s)
    ensures r == Fold(f, InOrder(s), acc)
    ensures Chained(f, InOrder(s), acc, accs) && r == accs[|InOrder(s)|]
    decreases s
  {
    r := acc;
    if n != null {
      assert allocated(Nodes(s));
      r, accs := NodeFoldL(n.left, f, r, tree, n, s.left);
      r := f(n.key, n.value, r);
      r, accs := NodeFoldL(n.right, f, r, tree, n, s.right);
      FoldConcat(f, InOrder(s.left), [s.entry] + InOrder(s.right), acc);
      assert ([s.entry] + InOrder(s.right))[1..] == InOrder(s.right);
    }
    accs := FoldMeans(f, InOrder(s), acc);
  }

  method NodeFoldR<A>(n: Node?, f: (Key, Value, A) -> A, acc: A, ghost tree: Tree, ghost p: Node?, ghost s: Shape<Node>)
    returns (r: A, ghost accs: seq<A>)
    requires Linked(tree, n, p, s)
    ensures r == Fold(f, Reversed(InOrder(s)), acc)
    ensures Chained(f, Reversed(InOrder(s)), acc, accs) && r == accs[|Reversed(InOrder(s))|]
    decreases s
  {
    r := acc;
    if n != null {
      assert allocated(Nodes(s));
      r, accs := NodeFoldR(n.right, f, r, tree, n, s.right);
      r := f(n.key, n.value, r);
      r, accs := NodeFoldR(n.left, f, r, tree, n, s.left);
      ReversedNode(s);
      FoldConcat(f, Reversed(InOrder(s.right)), [s.entry] + Reversed(InOrder(s.left)), acc);
      assert ([s.entry] + Reversed(InOrder(s.left)))[1..] == Reversed(InOrder(s.left));
    }
    accs := FoldMeans(f, Reversed(InOrder(s)), acc);
  }

  // ---------- Measuring and checking ----------

  datatype TreeInfo = TreeInfo(
    size: nat, height: nat, minHeight: nat, blackHeight: nat, redNumber: nat, blackNumber: nat)

  /** The children of n have the shape s; their parent links may be wrong. */
  ghost predicate Shaped(n: Node?, s: Shape<Node>)
    reads Nodes(s)
  {
    match s
    case Nil => n == null
    case Bin(x, c, _, l, r) => n == x && x.color == c && Shaped(x.left, l) && Shaped(x.right, r)
  }

  ghost predicate Apart(s: Shape<Node>) {
    match s
    case Nil => true
    case Bin(x, _, _, l, r) =>
      x !in Nodes(l) && x !in Nodes(r) && Nodes(l) !! Nodes(r) && Apart(l) && Apart(r)
  }

  ghost predicate Holds(tree: Tree, s: Shape<Node>)
    reads Nodes(s)
  {
    match s
    case Nil => true
    case Bin(x, _, e, l, r) =>
      x.tree == tree && x.key == e.key && x.value == e.value && Holds(tree, l) && Holds(tree, r)
  }

  ghost function Colored(s: Shape<Node>, c: Color): set<Node>
    reads Nodes(s)
  {
    set x | x in Nodes(s) && x.color == c
  }

  lemma DisjointSizes<T>(a: set<T>, b: set<T>, c: set<T>)
    requires a !! b && a !! c && b !! c
    ensures |a + b + c| == |a| + |b| + |c|
  {
    assert a + b !! c;
  }

  lemma ColoredUnion(s: Shape<Node>, c: Color)
    requires s.Bin? && s.node.color == s.color
    ensures Colored(s, c) == (if s.color == c then {s.node} else {}) + Colored(s.left, c) + Colored(s.right, c)
  {
    forall x ensures x in Nodes(s) <==> x == s.node || x in Nodes(s.left) || x in Nodes(s.right) {
    }
  }

  lemma ColoredParts(s: Shape<Node>, c: Color)
    requires s.Bin? && s.node.color == s.color && Apart(s)
    ensures |Colored(s, c)| == (if s.color == c then 1 else 0) + |Colored(s.left, c)| + |Colored(s.right, c)|
  {
    hide Nodes;
    ColoredUnion(s, c);
    DisjointSizes(if s.color == c then {s.node} else {}, Colored(s.left, c), Colored(s.right, c));
  }

  lemma NoneColored(s: Shape<Node>, c: Color)
    requires s.Nil?
    ensures Colored(s, c) == {}
  {
  }

  /** Nodes that are distinct are as many of a colour as places are. */
  lemma {:induction false} ColoredNodes(n: Node?, s: Shape<Node>, c: Color)
    requires Shaped(n, s) && Apart(s)
    ensures |Colored(s, c)| == multiset(Colors(s))[c]
    decreases s
  {
    hide Colors, Colored;
    if s.Bin? {
      ColorsNode(s, c);
      ColoredNodes(n.left, s.left, c);
      ColoredNodes(n.right, s.right, c);
      ColoredParts(s, c);
    } else {
      NoColors(s);
      assert Colored(s, c) == {} by { NoneColored(s, c); }
    }
  }

  ghost predicate ParentIs(s: Shape<Node>, p: Node)
    reads Nodes(s)
  {
    s.Bin? ==> s.node.parent == p
  }

  ghost predicate ParentsAgree(s: Shape<Node>)
    reads Nodes(s)
  {
    match s
    case Nil => true
    case Bin(x, _, _, l, r) =>
      ParentIs(l, x) && ParentIs(r, x) && ParentsAgree(l) && ParentsAgree(r)
  }

  /** The children of a node say that it is their parent. */
  ghost predicate LinksBack(x: Node)
    reads x, x.left, x.right
  {
    (x.left != null ==> x.left.parent == x) && (x.right != null ==> x.right.parent == x)
  }

  lemma {:induction false} ParentsMean(n: Node?, s: Shape<Node>)
    requires Shaped(n, s)
    ensures ParentsAgree(s) <==> forall x :: x in Nodes(s) ==> LinksBack(x)
    decreases s
  {
    if s.Bin? {
      ParentsMean(n.left, s.left);
      ParentsMean(n.right, s.right);
      assert Shaped(n.left, s.left) && Shaped(n.right, s.right);
      assert ParentIs(s.left, n) && ParentIs(s.right, n) <==> LinksBack(n);
      forall x | x in Nodes(s.left) || x in Nodes(s.right) ensures x in Nodes(s) {
      }
      assert n in Nodes(s);
    }
  }

  method NodeInfo(n: Node?, ghost s: Shape<Node>) returns (info: TreeInfo)
    requires Shaped(n, s)
    ensures info.size == |InOrder(s)| && info.height == Height(s) && info.minHeight == MinHeight(s)
    ensures info.blackHeight == MaxBlacks(s)
    ensures Longest(s, info.height) && Shortest(s, info.minHeight) && Blackest(s, info.blackHeight)
    ensures info.redNumber == multiset(Colors(s))[Red] && info.blackNumber == multiset(Colors(s))[Black]
    ensures Apart(s) ==> info.redNumber == |Colored(s, Red)| && info.blackNumber == |Colored(s, Black)|
    decreases s
  {
    hide Colors, Longest, Shortest, Blackest, Apart, Colored;
    info := TreeInfo(0, 0, 0, 0, 0, 0);
    if n != null {
      assert allocated(Nodes(s));
      ColorsNode(s, Red);
      ColorsNode(s, Black);
      var l := NodeInfo(n.left, s.left);
      var r := NodeInfo(n.right, s.right);
      var black := if n.color == Black then 1 else 0;
      info := TreeInfo(
        l.size + r.size + 1,
        if l.height > r.height then l.height + 1 else r.height + 1,
        if l.minHeight <= r.minHeight then l.minHeight + 1 else r.minHeight + 1,
        (if l.blackHeight > r.blackHeight then l.blackHeight else r.blackHeight) + black,
        (1 - black) + l.redNumber + r.redNumber,
        black + l.blackNumber + r.blackNumber);
    }
    if s.Nil? {
      NoColors(s);
    }
    HeightsMean(s);
    if Apart(s) {
      ColoredNodes(n, s, Red);
      ColoredNodes(n, s, Black);
    }
  }

  /** What a node's own tests can see: its children's links, its red neighbours, its two black heights. */
  ghost predicate LooksRight(p: Node?, s: Shape<Node>)
    requires s.Bin?
    reads p, Nodes(s)
  {
    && ParentIs(s.left, s.node) && ParentIs(s.right, s.node)
    && (s.color == Red ==> (p == null || p.color == Black) && !IsRed(s.left) && !IsRed(s.right))
    && MaxBlacks(s.left) == MaxBlacks(s.right)
  }

  method NodeCheck(n: Node, ghost p: Node?, ghost s: Shape<Node>) returns (ok: bool)
    requires Shaped(n, s)
    requires IsRed(s) ==> n.parent == p
    ensures ok <==> LooksRight(p, s) && Height(s) <= 2 * MinHeight(s)
  {
    assert Shaped(n.left, s.left) && Shaped(n.right, s.right);
    if n.left != null && n.left.parent != n {
      return false;
    }
    if n.right != null && n.right.parent != n {
      return false;
    }
    if n.color == Red && !((n.parent == null || n.parent.color == Black)
       && (n.left == null || n.left.color == Black) && (n.right == null || n.right.color == Black)) {
      return false;
    }
    ok := DepthsAgree(n, s);
  }

  method DepthsAgree(n: Node, ghost s: Shape<Node>) returns (ok: bool)
    requires Shaped(n, s)
    ensures ok <==> MaxBlacks(s.left) == MaxBlacks(s.right) && Height(s) <= 2 * MinHeight(s)
  {
    hide Colors, Longest, Shortest, Blackest, Apart, Colored, InOrder;
    assert allocated(Nodes(s));
    var l := NodeInfo(n.left, s.left);
    var r := NodeInfo(n.right, s.right);
    if l.blackHeight != r.blackHeight {
      return false;
    }
    var height := if l.height > r.height then l.height + 1 else r.height + 1;
    var minHeight := if l.minHeight <= r.minHeight then l.minHeight + 1 else r.minHeight + 1;
    ok := height <= minHeight * 2;
  }

  method NodeCheckIntegrity(n: Node?, ghost p: Node?, ghost s: Shape<Node>) returns (ok: bool)
    requires Shaped(n, s)
    requires IsRed(s) ==> n.parent == p
    ensures ok <==> ParentsAgree(s) && Balanced(s) && (IsRed(s) ==> p == null || p.color == Black)
    decreases s
  {
    if n == null {
      return true;
    }
    assert allocated(Nodes(s));
    BalancedNode(s);
    var here := NodeCheck(n, p, s);
    if !here {
      return false;
    }
    assert Shaped(n.left, s.left) && Shaped(n.right, s.right);
    ok := NodeCheckIntegrity(n.left, n, s.left);
    if ok {
      ok := NodeCheckIntegrity(n.right, n, s.right);
    }
  }
}

/** Runs of operations on one tree, against a finite map. */
module TreeRuns {
  import opened Wrappers
  import opened Orders
  import opened Entries
  import opened RedBlackShape
  import opened RedBlackTree
  import opened Dictionary

  method Perform(tree: Tree, op: Op) returns (reply: Reply)
    requires tree.Valid()
    modifies tree, Nodes(tree.shape)
    ensures tree.Valid() && fresh(Nodes(tree.shape) - old(Nodes(tree.shape)))
    ensures (tree.Contents(), reply) == StepEntries(tree.cmp, old(tree.Contents()), op)
  {
    assert allocated(Nodes(tree.shape));
    match op
    case Insert(k, v) =>
      var stored := tree.Insert(k, v);
      reply := Stored(Some(stored));
    case Delete(k) =>
      var value := tree.Delete(k);
      reply := Stored(value);
    case Find(k) =>
      var value := tree.Find(k);
      reply := Stored(value);
    case Size =>
      var n := tree.Size();
      reply := Count(n);
  }

  /** Whatever is done to a tree, in whatever order, it answers and holds what the finite map would. */
  method PerformAll(tree: Tree, ops: seq<Op>, ghost m: map<Key, Value>) returns (replies: seq<Reply>)
    requires tree.Valid() && StandsFor(tree.cmp, tree.Contents(), m)
    modifies tree, Nodes(tree.shape)
    ensures tree.Valid() && StandsFor(tree.cmp, tree.Contents(), RunMap(tree.cmp, m, ops).0)
    ensures replies == RunMap(tree.cmp, m, ops).1
  {
    hide StandsFor, StepEntries, StepMap, RunMap;
    ghost var es := tree.Contents();
    RunsAgree(tree.cmp, es, m, ops);
    replies := PerformEach(tree, ops);
  }

  method PerformEach(tree: Tree, ops: seq<Op>) returns (replies: seq<Reply>)
    requires tree.Valid()
    modifies tree, Nodes(tree.shape)
    ensures tree.Valid() && fresh(Nodes(tree.shape) - old(Nodes(tree.shape)))
    ensures (tree.Contents(), replies) == RunEntries(tree.cmp, old(tree.Contents()), ops)
    decreases |ops|
  {
    hide Focus, RedBlack, Sorted, TotalOrder, StepEntries, Nodes;
    ghost var es, before := tree.Contents(), Nodes(tree.shape);
    replies := [];
    if ops != [] {
      assert allocated(before);
      var reply := Perform(tree, ops[0]);
      assert (tree.Contents(), reply) == StepEntries(tree.cmp, es, ops[0]);
      ghost var between := Nodes(tree.shape);
      assert fresh(between - before) && allocated(between);
      label again:
      var rest := PerformEach(tree, ops[1..]);
      assert fresh@again(Nodes(tree.shape) - between);
      assert fresh(Nodes(tree.shape) - between);
      assert Nodes(tree.shape) - before <= (Nodes(tree.shape) - between) + (between - before);
      assert (tree.Contents(), rest) == RunEntries(tree.cmp, StepEntries(tree.cmp, es, ops[0]).0, ops[1..]);
      replies := [reply] + rest;
    }
  }
}

/** `binaryTree` of the fully connected tree application: the tree has
    2^height leaves, so its size check always passes. */
module FcSynTree {
  import opened BinaryTreeTopology

  /** The width the outer loop starts from, `1 << FLAGS_height`. */
  function Leaves(height: nat): (n: nat)
    ensures n >= 1 && IsPow2(n)
  {
    Pow2(height)
  }

  /** The size check `one_tree.size() == 2*(1 << FLAGS_height)-1` holds for
      every height. */
  lemma CheckAlwaysPasses(height: nat)
    ensures |OneTreeSpec(Leaves(height))| == 2 * Leaves(height) - 1
  {
    OneTreeSize(Leaves(height));
  }

  /** `binaryTree(graph)` with `FLAGS_height` and `FLAGS_batch_size`: every
      one of the first `batchSize` slots of the buffer holds the tree. */
  method BinaryTree(graph: array<int>, height: nat, batchSize: int) returns (ok: bool)
    requires batchSize > 0 ==> batchSize * (2 * Leaves(height) - 1) <= graph.Length
    modifies graph
    ensures ok
    ensures var n := if batchSize > 0 then batchSize else 0;
      graph[..] == Replicated(OneTreeSpec(Leaves(height)), n) + old(graph[..])[n * (2 * Leaves(height) - 1)..]
  {
    ok := BinaryTreeTopology.BinaryTree(graph, Leaves(height), batchSize);
  }
}

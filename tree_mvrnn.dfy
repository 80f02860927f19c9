/** The synthetic complete binary trees of the tree applications
    (`binaryTree`): one parent array for a tree with `leaves` leaves, numbered
    level by level from the leaves up, copied once per batch instance. */
module BinaryTreeTopology {
  import opened Arithmetic

  /** `n` is a power of two (1, 2, 4, ...). */
  predicate IsPow2(n: int)
    decreases if n > 0 then n else 0
  {
    n == 1 || (n > 1 && n % 2 == 0 && IsPow2(n / 2))
  }

  function Pow2(h: nat): (p: nat)
    ensures p >= 1 && IsPow2(p)
  {
    if h == 0 then 1 else 2 * Pow2(h - 1)
  }

  /** The entries one pass of the inner loop pushes: entry i of a level of
      `width` nodes, whose parents are numbered from `base`, is i / 2 + base. */
  function Level(base: int, width: nat): (r: seq<int>)
    ensures |r| == width
    ensures forall i :: 0 <= i < width ==> base <= r[i] < base + (width + 1) / 2
    ensures forall i :: 0 < i < width && i % 2 == 1 ==> r[i] == r[i - 1]
  {
    seq(width, i => i / 2 + base)
  }

  /** The entries the outer loop pushes from the state (`count`, `width`) on:
      `width` halves (`width >>= 1`) until it is at most 1. */
  function Levels(count: int, width: int): (r: seq<int>)
    ensures r == [] <==> width <= 1
    decreases if width > 0 then width else 0
  {
    if width <= 1 then [] else Level(count + width, width) + Levels(count + width, width / 2)
  }

  /** The parent array `binaryTree` builds before copying it. */
  function OneTreeSpec(leaves: int): (r: seq<int>)
    ensures |r| >= 1 && r[|r| - 1] == -1
    ensures |r| == 1 <==> leaves <= 1
  {
    Levels(0, leaves) + [-1]
  }

  /** Every parent the loops push is numbered past the nodes of the levels
      already built, for any leaf count. */
  lemma {:induction false} LevelsAbove(count: int, width: int)
    ensures forall k :: 0 <= k < |Levels(count, width)| ==> Levels(count, width)[k] >= count + width
    decreases if width > 0 then width else 0
  {
    if width > 1 {
      LevelsAbove(count + width, width / 2);
      var head := Level(count + width, width);
      var tail := Levels(count + width, width / 2);
      forall k | 0 <= k < |head + tail|
        ensures (head + tail)[k] >= count + width
      {
        if k >= |head| {
          assert (head + tail)[k] == tail[k - |head|];
        }
      }
    }
  }

  /** The number of entries the outer loop pushes from width `w` on. */
  function LevelsSize(w: int): int
    decreases if w > 0 then w else 0
  {
    if w <= 1 then 0 else w + LevelsSize(w / 2)
  }

  lemma {:induction false} LevelsLength(count: int, w: int)
    ensures |Levels(count, w)| == LevelsSize(w)
    decreases if w > 0 then w else 0
  {
    if w > 1 {
      LevelsLength(count + w, w / 2);
    }
  }

  lemma {:induction false} LevelsSizeBound(w: int)
    requires w >= 1
    ensures LevelsSize(w) <= 2 * w - 2
    decreases w
  {
    if w > 1 {
      LevelsSizeBound(w / 2);
    }
  }

  lemma {:induction false} LevelsSizePow2(w: int)
    ensures LevelsSize(w) == 2 * w - 2 <==> IsPow2(w)
    decreases if w > 0 then w else 0
  {
    if w > 1 {
      LevelsSizePow2(w / 2);
      if w % 2 == 1 {
        LevelsSizeBound(w / 2);
      }
    }
  }

  /** The size check of `binaryTree` passes exactly for a power of two. */
  lemma OneTreeSize(leaves: int)
    ensures |OneTreeSpec(leaves)| == 2 * leaves - 1 <==> IsPow2(leaves)
  {
    LevelsLength(0, leaves);
    LevelsSizePow2(leaves);
  }

  /** Six leaves give ten entries, not eleven. */
  lemma SixLeavesFailCheck()
    ensures |OneTreeSpec(6)| == 10
    ensures !IsPow2(6)
  {
    LevelsLength(0, 6);
    assert LevelsSize(6) == 6 + LevelsSize(3) == 6 + 3 + LevelsSize(1);
  }

  lemma {:induction false} LevelsAt(count: int, w: int, k: nat)
    requires IsPow2(w) && k < 2 * w - 2
    ensures |Levels(count, w)| == 2 * w - 2
    ensures Levels(count, w)[k] == count + w + k / 2
    decreases w
  {
    LevelsSizePow2(w);
    LevelsLength(count, w);
    LevelsLength(count + w, w / 2);
    if k >= w {
      LevelsAt(count + w, w / 2, k - w);
      assert (k - w) / 2 == k / 2 - w / 2;
    }
  }

  /** For `n` a power of two, node k < 2n-2 has parent n + k/2 and the root,
      the last node, has -1. */
  lemma OneTreeShape(n: int)
    requires IsPow2(n)
    ensures |OneTreeSpec(n)| == 2 * n - 1
    ensures OneTreeSpec(n)[2 * n - 2] == -1
    ensures forall k :: 0 <= k < 2 * n - 2 ==> OneTreeSpec(n)[k] == n + k / 2
  {
    OneTreeSize(n);
    forall k | 0 <= k < 2 * n - 2
      ensures OneTreeSpec(n)[k] == n + k / 2
    {
      LevelsAt(0, n, k);
    }
  }

  /** Every parent comes after its child and is a node of the tree, so the
      array is a valid topological order ending in the root. */
  lemma ParentAfterChild(n: int, k: int)
    requires IsPow2(n) && 0 <= k < 2 * n - 2
    ensures |OneTreeSpec(n)| == 2 * n - 1
    ensures k < OneTreeSpec(n)[k] <= 2 * n - 2
  {
    OneTreeShape(n);
  }

  /** Every internal node p has exactly two children, 2(p-n) and 2(p-n)+1:
      the tree is a complete binary tree. */
  lemma ChildrenOf(n: int, p: int, k: int)
    requires IsPow2(n) && n <= p <= 2 * n - 2 && 0 <= k < 2 * n - 2
    ensures |OneTreeSpec(n)| == 2 * n - 1
    ensures OneTreeSpec(n)[k] == p <==> k == 2 * (p - n) || k == 2 * (p - n) + 1
  {
    OneTreeShape(n);
  }

  /** Only leaves 0 .. n-1 have no child. */
  lemma LeavesAreChildless(n: int, v: int)
    requires IsPow2(n) && 0 <= v < 2 * n - 1
    ensures |OneTreeSpec(n)| == 2 * n - 1
    ensures (forall k :: 0 <= k < 2 * n - 2 ==> OneTreeSpec(n)[k] != v) <==> v < n
  {
    OneTreeShape(n);
    if v >= n {
      assert OneTreeSpec(n)[2 * (v - n)] == v;
    }
  }

  lemma LevelNext(base: int, i: nat)
    ensures Level(base, i + 1) == Level(base, i) + [i / 2 + base]
  {
    assert Level(base, i + 1)[..i] == Level(base, i);
  }

  /** The outer loop from state (`tree`, `count`, `width`) to its end. */
  function Build(tree: seq<int>, count: int, width: int): seq<int>
    decreases if width > 0 then width else 0
  {
    if width <= 1 then tree else Build(tree + Level(count + width, width), count + width, width / 2)
  }

  lemma {:induction false} BuildAppendsLevels(tree: seq<int>, count: int, width: int)
    ensures Build(tree, count, width) == tree + Levels(count, width)
    decreases if width > 0 then width else 0
  {
    if width > 1 {
      var next := tree + Level(count + width, width);
      BuildAppendsLevels(next, count + width, width / 2);
      assert next + Levels(count + width, width / 2) == tree + Levels(count, width);
    }
  }

  /** Building the parent array, as the two nested loops do. */
  method OneTree(leaves: int) returns (tree: seq<int>)
    ensures tree == OneTreeSpec(leaves)
  {
    hide Levels;
    tree := [];
    var count := 0;
    var width := leaves;
    while width > 1
      invariant Build(tree, count, width) == Build([], 0, leaves)
      decreases width
    {
      count := count + width;
      ghost var before := tree;
      var i := 0;
      while i < width
        invariant 0 <= i <= width
        invariant tree == before + Level(count, i)
      {
        LevelNext(count, i);
        tree := tree + [i / 2 + count];
        i := i + 1;
      }
      width := width / 2;
    }
    BuildAppendsLevels([], 0, leaves);
    assert [] + Levels(0, leaves) == Levels(0, leaves);
    tree := tree + [-1];
  }

  /** `n` copies of `t` one after another: nothing for `n <= 0`, and every
      entry is an entry of `t`. */
  function Replicated(t: seq<int>, n: int): (r: seq<int>)
    ensures n <= 0 ==> r == []
    ensures forall k :: 0 <= k < |r| ==> r[k] in t
    decreases if n > 0 then n else 0
  {
    if n <= 0 then [] else Replicated(t, n - 1) + t
  }

  lemma {:induction false} ReplicatedLength(t: seq<int>, n: nat)
    ensures |Replicated(t, n)| == n * |t|
  {
    if n > 0 {
      ReplicatedLength(t, n - 1);
      assert (n - 1) * |t| + |t| == n * |t|;
    }
  }

  /** Instance b of the batch holds a whole copy of the tree. */
  lemma {:induction false} ReplicatedAt(t: seq<int>, n: nat, b: nat, k: nat)
    requires b < n && k < |t|
    ensures b * |t| + k < |Replicated(t, n)|
    ensures Replicated(t, n)[b * |t| + k] == t[k]
  {
    var m := |t|;
    ReplicatedLength(t, n - 1);
    ReplicatedLength(t, n);
    assert (n - 1) * m + m == n * m;
    assert (b + 1) * m == b * m + m;
    if b < n - 1 {
      MulMono(b + 1, n - 1, m);
      ReplicatedAt(t, n - 1, b, k);
    } else {
      assert b * m == (n - 1) * m;
    }
  }

  /** Slot i of a batch of `batch` copies lies inside a buffer of `len`. */
  lemma SlotFits(t: seq<int>, i: nat, batch: int, len: int)
    requires i < batch && batch * |t| <= len
    ensures |Replicated(t, i)| == i * |t|
    ensures i * |t| + |t| == (i + 1) * |t| <= len
  {
    ReplicatedLength(t, i);
    MulMono(i + 1, batch, |t|);
  }

  lemma SplitAt(whole: seq<int>, front: seq<int>, rest: seq<int>, m: nat)
    requires whole == front + rest && m <= |rest|
    ensures whole[..|front|] == front
    ensures whole[|front| + m..] == rest[m..]
  {
  }

  /** Copying the tree into slot i of a buffer whose first i slots already
      hold copies gives i + 1 copies followed by the rest of the original. */
  lemma CopyStep(before: seq<int>, after: seq<int>, original: seq<int>, t: seq<int>, i: nat)
    requires |Replicated(t, i)| == i * |t| && i * |t| + |t| == (i + 1) * |t| <= |original|
    requires before == Replicated(t, i) + original[i * |t|..]
    requires after == before[..i * |t|] + t + before[i * |t| + |t|..]
    ensures after == Replicated(t, i + 1) + original[(i + 1) * |t|..]
  {
    var done := Replicated(t, i);
    var rest := original[i * |t|..];
    SplitAt(before, done, rest, |t|);
    assert rest[|t|..] == original[(i + 1) * |t|..];
  }

  /** `std::copy(src.begin(), src.end(), a.begin() + at)`. */
  method CopyInto(a: array<int>, at: nat, src: seq<int>)
    requires at + |src| <= a.Length
    modifies a
    ensures a[..] == old(a[..at]) + src + old(a[at + |src|..])
  {
    var k := 0;
    while k < |src|
      invariant 0 <= k <= |src|
      invariant forall p :: 0 <= p < k ==> a[at + p] == src[p]
      invariant forall p :: 0 <= p < a.Length && !(at <= p < at + k) ==> a[p] == old(a[p])
    {
      a[at + k] := src[k];
      k := k + 1;
    }
    assert a[..] == old(a[..at]) + src + old(a[at + |src|..]);
  }

  /** `binaryTree` with `FLAGS_tree` leaves and `FLAGS_batch` instances:
      `ok` is its size check; when it passes the first `batch` slots of
      2*leaves-1 entries each hold the tree and the rest of the buffer is
      untouched; when it fails nothing is written. */
  method BinaryTree(graph: array<int>, leaves: int, batch: int) returns (ok: bool)
    requires IsPow2(leaves) && batch > 0 ==> batch * (2 * leaves - 1) <= graph.Length
    modifies graph
    ensures ok <==> IsPow2(leaves)
    ensures !ok ==> graph[..] == old(graph[..])
    ensures ok ==> var n := if batch > 0 then batch else 0;
      graph[..] == Replicated(OneTreeSpec(leaves), n) + old(graph[..])[n * (2 * leaves - 1)..]
  {
    hide OneTreeSpec, Levels;
    var oneTree := OneTree(leaves);
    OneTreeSize(leaves);
    if |oneTree| != 2 * leaves - 1 {
      return false;
    }
    ok := true;
    var size := |oneTree|;
    ghost var original := graph[..];
    var i := 0;
    while i < batch
      invariant 0 <= i && (batch > 0 ==> i <= batch) && (batch <= 0 ==> i == 0)
      invariant |Replicated(oneTree, i)| == i * size <= graph.Length
      invariant graph[..] == Replicated(oneTree, i) + original[i * size..]
    {
      SlotFits(oneTree, i, batch, graph.Length);
      ghost var before := graph[..];
      CopyInto(graph, i * size, oneTree);
      CopyStep(before, graph[..], original, oneTree, i);
      i := i + 1;
    }
  }

  // ---------------------------------------------------------------------------
  // `graph->clear()` before the copies

  /** A `std::vector<int>` seen through its elements. */
  datatype Vector = Vector(elems: seq<int>)

  /** `clear()`: no element is left in range (the storage stays allocated). */
  function Clear(v: Vector): (r: Vector)
    ensures |r.elems| == 0
  {
    Vector([])
  }

  /** `std::copy` of `n` values to `begin() + at` stays inside the vector. */
  predicate CopyInRange(v: Vector, at: int, n: int) {
    0 <= at && 0 <= n && at + n <= |v.elems|
  }

  /** As written, `binaryTree` clears the buffer the caller sized for the
      batch and then copies the tree to its first slot: before the clear that
      copy was in range, after it it is not. */
  lemma ClearLeavesNoRoom(v: Vector, leaves: int, batch: int)
    requires IsPow2(leaves) && batch >= 1
    requires |v.elems| == batch * (2 * leaves - 1)
    ensures CopyInRange(v, 0, 2 * leaves - 1)
    ensures !CopyInRange(Clear(v), 0, 2 * leaves - 1)
  {
    MulMono(1, batch, 2 * leaves - 1);
  }
}

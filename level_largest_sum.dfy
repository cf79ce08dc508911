/**
 * `LevelLargestSum.getLevelWithLargestSum`: a breadth-first walk, one
 * level at a time, that keeps the first level whose sum is largest.
 * The two queues are sequences of subtrees.
 */
module LevelLargestSum {
  import opened BinTree

  /** The non-empty subtrees at depth `d`, left to right. */
  function LevelNodes(t: Tree<int>, d: nat): (nodes: seq<Tree<int>>)
    ensures forall k :: 0 <= k < |nodes| ==> nodes[k].Node?
  {
    if t == Nil then []
    else if d == 0 then [t]
    else LevelNodes(t.left, d - 1) + LevelNodes(t.right, d - 1)
  }

  /** The sum of the data at depth `d`. */
  function LevelSum(t: Tree<int>, d: nat): int {
    if t == Nil then 0
    else if d == 0 then t.data
    else LevelSum(t.left, d - 1) + LevelSum(t.right, d - 1)
  }

  /** What the inner loop enqueues for the nodes `s`: each one's left child, then its right child, where present. */
  function Children(s: seq<Tree<int>>): seq<Tree<int>> {
    if s == [] then []
    else
      var last := s[|s| - 1];
      Children(s[..|s| - 1])
        + (if last.Node? && last.left.Node? then [last.left] else [])
        + (if last.Node? && last.right.Node? then [last.right] else [])
  }

  /** What the inner loop adds up. */
  function SumData(s: seq<Tree<int>>): int {
    if s == [] then 0 else SumData(s[..|s| - 1]) + (if s[|s| - 1].Node? then s[|s| - 1].data else 0)
  }

  lemma {:induction false} ChildrenAppend(a: seq<Tree<int>>, b: seq<Tree<int>>)
    ensures Children(a + b) == Children(a) + Children(b)
    decreases |b|
  {
    if b != [] {
      var front := b[..|b| - 1];
      assert (a + b)[..|a + b| - 1] == a + front;
      ChildrenAppend(a, front);
    } else {
      assert a + b == a;
    }
  }

  lemma {:induction false} SumDataAppend(a: seq<Tree<int>>, b: seq<Tree<int>>)
    ensures SumData(a + b) == SumData(a) + SumData(b)
    decreases |b|
  {
    if b != [] {
      var front := b[..|b| - 1];
      assert (a + b)[..|a + b| - 1] == a + front;
      SumDataAppend(a, front);
    } else {
      assert a + b == a;
    }
  }

  /** The children of one level, in queue order, are the next level. */
  lemma {:induction false} NextLevel(t: Tree<int>, d: nat)
    ensures Children(LevelNodes(t, d)) == LevelNodes(t, d + 1)
  {
    if t != Nil {
      if d == 0 {
        assert [t][..0] == [];
      } else {
        NextLevel(t.left, d - 1);
        NextLevel(t.right, d - 1);
        ChildrenAppend(LevelNodes(t.left, d - 1), LevelNodes(t.right, d - 1));
      }
    }
  }

  /** Summing one level's queue gives the level's sum. */
  lemma {:induction false} LevelSumOfNodes(t: Tree<int>, d: nat)
    ensures SumData(LevelNodes(t, d)) == LevelSum(t, d)
  {
    if t != Nil {
      if d == 0 {
        assert [t][..0] == [];
      } else {
        LevelSumOfNodes(t.left, d - 1);
        LevelSumOfNodes(t.right, d - 1);
        SumDataAppend(LevelNodes(t.left, d - 1), LevelNodes(t.right, d - 1));
      }
    }
  }

  /** A level holds nodes exactly when it lies above the height. */
  lemma {:induction false} LevelEmptyIff(t: Tree<int>, d: nat)
    ensures LevelNodes(t, d) == [] <==> d >= Height(t)
  {
    if t != Nil && d > 0 {
      LevelEmptyIff(t.left, d - 1);
      LevelEmptyIff(t.right, d - 1);
    }
  }

  /** One pass of the `for` loop: the level's sum, and the next level's queue. */
  method SumLevel(currentLevel: seq<Tree<int>>) returns (sum: int, nextLevel: seq<Tree<int>>)
    requires forall k :: 0 <= k < |currentLevel| ==> currentLevel[k].Node?
    ensures sum == SumData(currentLevel) && nextLevel == Children(currentLevel)
  {
    sum, nextLevel := 0, [];
    var i := 0;
    while i < |currentLevel|
      invariant 0 <= i <= |currentLevel|
      invariant sum == SumData(currentLevel[..i]) && nextLevel == Children(currentLevel[..i])
    {
      var node := currentLevel[i];
      assert currentLevel[..i + 1][..i] == currentLevel[..i];
      sum := sum + node.data;
      if node.left != Nil {
        nextLevel := nextLevel + [node.left];
      }
      if node.right != Nil {
        nextLevel := nextLevel + [node.right];
      }
      i := i + 1;
    }
    assert currentLevel[..i] == currentLevel;
  }

  /**
   * `getLevelWithLargestSum`: -1 for the empty tree; otherwise a level of
   * the tree whose sum no level beats, and the shallowest such level.
   */
  method GetLevelWithLargestSum(root: Tree<int>) returns (largestSumLevel: int)
    ensures root == Nil ==> largestSumLevel == -1
    ensures root != Nil ==> 0 <= largestSumLevel < Height(root)
    ensures root != Nil ==> forall d :: 0 <= d < Height(root) ==> LevelSum(root, d) <= LevelSum(root, largestSumLevel)
    ensures root != Nil ==> forall d :: 0 <= d < largestSumLevel ==> LevelSum(root, d) < LevelSum(root, largestSumLevel)
  {
    if root == Nil {
      return -1;
    }
    var largestSum := root.data;
    var level := 0;
    largestSumLevel := level;
    var currentLevel := [root];
    while currentLevel != []
      invariant 0 <= level <= Height(root)
      invariant currentLevel == LevelNodes(root, level)
      invariant 0 <= largestSumLevel < Height(root) && largestSum == LevelSum(root, largestSumLevel)
      invariant largestSumLevel <= level
      invariant forall d :: 0 <= d < level ==> LevelSum(root, d) <= largestSum
      invariant forall d :: 0 <= d < largestSumLevel ==> LevelSum(root, d) < largestSum
      decreases Height(root) - level
    {
      LevelEmptyIff(root, level);
      LevelSumOfNodes(root, level);
      NextLevel(root, level);
      var sum, nextLevel := SumLevel(currentLevel);
      if sum > largestSum {
        largestSum := sum;
        largestSumLevel := level;
      }
      currentLevel := nextLevel;
      level := level + 1;
    }
    LevelEmptyIff(root, level);
  }
}

/** The binary tree the tree exercises take: `null` or a node with data and two subtrees. */
module BinTree {
  datatype Tree<T> = Nil | Node(data: T, left: Tree<T>, right: Tree<T>)

  function Max(a: int, b: int): int {
    if a >= b then a else b
  }

  /** The number of levels: 0 for the empty tree. */
  function Height<T>(t: Tree<T>): (h: nat)
    ensures t.Node? ==> h >= 1
  {
    if t == Nil then 0 else 1 + Max(Height(t.left), Height(t.right))
  }
}

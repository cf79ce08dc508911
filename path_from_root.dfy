/** `PathFromRoot.doesPathExist`: whether a string reads along a downward path that starts at the root. */
module PathFromRoot {
  import opened BinTree

  /** `doesPathExist`: the recursion on the string, trying the left subtree before the right. */
  function DoesPathExist(root: Tree<char>, str: string): bool
    decreases |str|
  {
    if str == [] then true
    else if root == Nil then false
    else if root.data == str[0] then
      DoesPathExist(root.left, str[1..]) || DoesPathExist(root.right, str[1..])
    else false
  }

  /** The data met walking down from `t`, turning right where `turns` says true, until a turn leads off the tree. */
  function Walk<T>(t: Tree<T>, turns: seq<bool>): (s: seq<T>)
    ensures |s| <= |turns| + 1
    decreases |turns|
  {
    if t == Nil then []
    else if turns == [] then [t.data]
    else [t.data] + Walk(if turns[0] then t.right else t.left, turns[1..])
  }

  /** Some downward path from the root, not necessarily ending at a leaf, spells `str`. */
  ghost predicate Spells(t: Tree<char>, str: string) {
    str == [] || exists turns: seq<bool> :: |turns| == |str| - 1 && Walk(t, turns) == str
  }

  /** The empty string is always found, a non-empty one never in the empty tree, and never after a wrong first character. */
  lemma PathEdgeCases(t: Tree<char>, str: string)
    ensures DoesPathExist(t, [])
    ensures str != [] && t == Nil ==> !DoesPathExist(t, str)
    ensures str != [] && t != Nil && t.data != str[0] ==> !DoesPathExist(t, str)
  {
  }

  /** `doesPathExist` answers exactly whether some downward path from the root spells the string. */
  lemma DoesPathExistIff(t: Tree<char>, str: string)
    ensures DoesPathExist(t, str) <==> Spells(t, str)
  {
    if DoesPathExist(t, str) {
      FoundIsSpelled(t, str);
    }
    if Spells(t, str) {
      SpelledIsFound(t, str);
    }
  }

  lemma {:induction false} FoundIsSpelled(t: Tree<char>, str: string)
    requires DoesPathExist(t, str)
    ensures Spells(t, str)
    decreases |str|
  {
    if str != [] {
      var rest := str[1..];
      if rest == [] {
        assert Walk(t, []) == str;
      } else {
        var turn := !DoesPathExist(t.left, rest);
        var child := if turn then t.right else t.left;
        FoundIsSpelled(child, rest);
        var turns := TurnsFor(child, rest);
        assert Walk(t, [turn] + turns) == str by {
          assert ([turn] + turns)[1..] == turns;
          assert str == [str[0]] + rest;
        }
      }
    }
  }

  lemma {:induction false} SpelledIsFound(t: Tree<char>, str: string)
    requires Spells(t, str)
    ensures DoesPathExist(t, str)
    decreases |str|
  {
    if str != [] {
      var rest := str[1..];
      var turns :| |turns| == |str| - 1 && Walk(t, turns) == str;
      if turns != [] {
        var child := if turns[0] then t.right else t.left;
        assert Walk(child, turns[1..]) == rest;
        SpelledIsFound(child, rest);
      }
    }
  }

  /** A witness path for a string the tree spells. */
  lemma TurnsFor(t: Tree<char>, str: string) returns (turns: seq<bool>)
    requires Spells(t, str)
    ensures |turns| == |str| - 1 || (str == [] && turns == [])
    ensures str != [] ==> Walk(t, turns) == str
  {
    if str == [] {
      turns := [];
    } else {
      turns :| |turns| == |str| - 1 && Walk(t, turns) == str;
    }
  }

  /** Every prefix of a string with a path has a path too. */
  lemma {:induction false} PrefixHasPath(t: Tree<char>, str: string, k: nat)
    requires k <= |str| && DoesPathExist(t, str)
    ensures DoesPathExist(t, str[..k])
    decreases |str|
  {
    if k > 0 {
      var rest := str[1..];
      assert str[..k][1..] == rest[..k - 1];
      if DoesPathExist(t.left, rest) {
        PrefixHasPath(t.left, rest, k - 1);
      } else {
        PrefixHasPath(t.right, rest, k - 1);
      }
    }
  }
}

/** The binary tree the printer reads: a node holds one label and two
    independently optional children. `Nil` stands for an absent child. */
module BTNodes {

  datatype Tree = Nil | Node(data: char, left: Tree, right: Tree)

  /** The node constructor: both child links default to absent. */
  function MakeNode(d: char, l: Tree := Nil, r: Tree := Nil): (t: Tree)
    ensures t.Node? && t.data == d && t.left == l && t.right == r
  {
    Node(d, l, r)
  }

  /** Number of levels that hold a present node (0 for the empty tree). */
  function Height(t: Tree): (h: nat)
    ensures t.Node? <==> h >= 1
  {
    match t
    case Nil => 0
    case Node(_, l, r) => 1 + (if Height(l) < Height(r) then Height(r) else Height(l))
  }

  predicate HasLeft(t: Tree) { t.Node? && t.left.Node? }

  predicate HasRight(t: Tree) { t.Node? && t.right.Node? }

  /** A present node with at least one present child. */
  predicate HasChild(t: Tree) { HasLeft(t) || HasRight(t) }

  /** The left child, or absent when the node itself is absent. */
  function LeftOf(t: Tree): Tree { if t.Nil? then Nil else t.left }

  /** The right child, or absent when the node itself is absent. */
  function RightOf(t: Tree): Tree { if t.Nil? then Nil else t.right }

  /** A node built from a value alone is a leaf of height 1. */
  lemma LeafByDefault(d: char)
    ensures MakeNode(d).left == Nil && MakeNode(d).right == Nil
    ensures !HasChild(MakeNode(d)) && Height(MakeNode(d)) == 1
  {
  }

  /** Either child may be absent without the other. */
  lemma ChildrenIndependent(d: char, c: Tree)
    requires c.Node?
    ensures HasLeft(MakeNode(d, c)) && !HasRight(MakeNode(d, c))
    ensures !HasLeft(MakeNode(d, Nil, c)) && HasRight(MakeNode(d, Nil, c))
  {
  }
}

/** The whole picture: the root line, then for each level above the last the
    branch lines below it and the label line of the level beneath. Render
    states the picture from the levels of the tree and the closed-form gaps;
    PrintBT computes it as the printer does, threading the gap from block to
    block, and is proved to produce exactly Render. */
module Layout {
  import opened BTNodes
  import opened Spacing
  import opened Levels
  import opened Rows

  /** The root line of a tree of height D: the indent of the first branch
      block, then the root's box. */
  function RootRow(root: Tree, D: nat): string
    requires D >= 1
  {
    Spaces(2 * BranchLen(D, 1)) + Box(root)
  }

  /** The lines drawn below level c (holding the nodes v) of a tree of
      height D: BranchLen(D, c) branch lines entered with indent
      2 BranchLen(D, c) and the closed-form entry gap, then the label line of
      the level beneath, indented 2 BranchLen(D, c + 1), with the closed-form
      label gap. */
  function Block(v: seq<Tree>, D: nat, c: nat): (b: seq<string>)
    requires 1 <= c < D
    ensures |b| == BranchLen(D, c) + 1
  {
    BranchRows(v, 2 * BranchLen(D, c), EntryGap(D, c), BranchLen(D, c))
    + [LabelRow(v, 2 * BranchLen(D, c + 1), Gap(D, c))]
  }

  /** The lines printed once the labels of levels 1 .. c are out. */
  function RenderUpTo(root: Tree, D: nat, c: nat): (r: seq<string>)
    requires 1 <= c <= D
    ensures |r| == LineCount(D, c)
  {
    if c == 1 then [RootRow(root, D)] else RenderUpTo(root, D, c - 1) + Block(Level(root, c - 1), D, c - 1)
  }

  /** The block of level c follows the lines printed up to level c. */
  lemma RenderStep(root: Tree, D: nat, c: nat)
    requires 1 <= c < D
    ensures RenderUpTo(root, D, c + 1) == RenderUpTo(root, D, c) + Block(Level(root, c), D, c)
  {
  }

  /** The printed picture of a tree: nothing for the empty tree. */
  function Render(root: Tree): seq<string>
  {
    if root.Nil? then [] else RenderUpTo(root, Height(root), Height(root))
  }

  /** The picture of a tree of height D has 2^D - 1 lines: one root line
      and, per level c above the last, 2^(D-c) - 1 branch lines and one
      label line. */
  lemma RenderLength(root: Tree)
    ensures |Render(root)| == Pow2(Height(root)) - 1
  {
    if root.Node? {
      LineCountClosedForm(Height(root), Height(root));
    }
  }

  lemma PrefixAppend<T>(a: seq<T>, b: seq<T>, x: seq<T>, y: seq<T>)
    requires a <= b && y == b + x
    ensures a <= y
  {
    assert y[..|b|] == b;
  }

  lemma PrefixRefl<T>(a: seq<T>)
    ensures a <= a
  {
  }

  /** A family of sequences each a prefix of the next. */
  lemma {:induction false} ChainPrefix<T>(f: nat -> seq<T>, c: nat, e: nat)
    requires c <= e
    requires forall k :: c <= k < e ==> f(k) <= f(k + 1)
    ensures f(c) <= f(e)
    decreases e
  {
    if c < e {
      ChainPrefix(f, c, e - 1);
      assert f(e - 1) <= f(e);
    }
  }

  /** Drawing one more level only appends lines. */
  lemma RenderUpToGrow(root: Tree, D: nat, c: nat)
    requires 1 <= c < D
    ensures RenderUpTo(root, D, c) <= RenderUpTo(root, D, c + 1)
  {
    PrefixRefl(RenderUpTo(root, D, c));
    PrefixAppend(RenderUpTo(root, D, c), RenderUpTo(root, D, c), Block(Level(root, c), D, c), RenderUpTo(root, D, c + 1));
  }

  lemma RenderUpToSteps(root: Tree, D: nat)
    ensures forall k :: 1 <= k < D ==> RenderUpTo(root, D, k) <= RenderUpTo(root, D, k + 1)
  {
    forall k | 1 <= k < D
      ensures RenderUpTo(root, D, k) <= RenderUpTo(root, D, k + 1)
    {
      RenderUpToGrow(root, D, k);
    }
  }

  /** The lines printed up to level c stay at the head of the picture. */
  lemma RenderUpToPrefix(root: Tree, D: nat, c: nat, e: nat)
    requires 1 <= c <= e <= D
    ensures RenderUpTo(root, D, c) <= RenderUpTo(root, D, e)
  {
    RenderUpToSteps(root, D);
    ChainPrefix(k => if 1 <= k <= D then RenderUpTo(root, D, k) else [], c, e);
  }

  /** The lines printed up to level c open the picture. */
  lemma RenderPrefix(root: Tree, c: nat)
    requires 1 <= c <= Height(root)
    ensures RenderUpTo(root, Height(root), c) <= Render(root)
  {
    RenderUpToPrefix(root, Height(root), c, Height(root));
  }

  /** The block drawn under level c - 1 sits in the picture right after
      the lines of the levels above it, ending where the labels of level c
      end. */
  lemma RenderBlock(root: Tree, c: nat)
    requires 1 < c <= Height(root)
    ensures LineCount(Height(root), c) <= |Render(root)|
    ensures Render(root)[LineCount(Height(root), c - 1) .. LineCount(Height(root), c)]
         == Block(Level(root, c - 1), Height(root), c - 1)
  {
    var D := Height(root);
    RenderPrefix(root, c);
    SliceOfStep(Render(root), RenderUpTo(root, D, c), RenderUpTo(root, D, c - 1), Block(Level(root, c - 1), D, c - 1),
                LineCount(D, c - 1), LineCount(D, c));
  }

  /** The label line of the block below level c shows, for entry p of the
      level, the box of its left child and the box of its right child at the
      columns of entries 2p and 2p + 1 of level c + 1. */
  lemma LabelLineBoxes(v: seq<Tree>, D: nat, c: nat, p: nat, o: nat)
    requires 1 <= c < D && p < |v| && o < 3
    ensures BoxCol(D, c + 1, 2 * p) + o < |Block(v, D, c)[BranchLen(D, c)]|
    ensures BoxCol(D, c + 1, 2 * p + 1) + o < |Block(v, D, c)[BranchLen(D, c)]|
    ensures Block(v, D, c)[BranchLen(D, c)][BoxCol(D, c + 1, 2 * p) + o] == Box(LeftOf(v[p]))[o]
    ensures Block(v, D, c)[BranchLen(D, c)][BoxCol(D, c + 1, 2 * p + 1) + o] == Box(RightOf(v[p]))[o]
  {
    BlockLabelRow(v, D, c);
    LabelRowBoxes(v, D, c, p, o);
  }

  /** The last line of a block is its label row. */
  lemma BlockLabelRow(v: seq<Tree>, D: nat, c: nat)
    requires 1 <= c < D
    ensures Block(v, D, c)[BranchLen(D, c)] == LabelRow(v, 2 * BranchLen(D, c + 1), Gap(D, c))
  {
  }

  lemma LabelRowBoxes(v: seq<Tree>, D: nat, c: nat, p: nat, o: nat)
    requires 1 <= c < D && p < |v| && o < 3
    ensures var row := LabelRow(v, 2 * BranchLen(D, c + 1), Gap(D, c));
      BoxCol(D, c + 1, 2 * p) + o < |row| && BoxCol(D, c + 1, 2 * p + 1) + o < |row| &&
      row[BoxCol(D, c + 1, 2 * p) + o] == Box(LeftOf(v[p]))[o] &&
      row[BoxCol(D, c + 1, 2 * p + 1) + o] == Box(RightOf(v[p]))[o]
  {
    LabelRowAt(v, 2 * BranchLen(D, c + 1), Gap(D, c), p, o);
    ChildCols(D, c, p, o);
  }

  /** Branch line k of the block below level c draws, for entry q of the
      level, a slash k columns left of where its box starts when the entry
      has a left child, and a backslash k columns right of where its box
      ends when it has a right child; blanks otherwise. */
  lemma BranchDiagonal(v: seq<Tree>, D: nat, c: nat, q: nat, k: nat)
    requires 1 <= c < D && |v| == Pow2(c - 1) && q < |v| && k < BranchLen(D, c)
    ensures k <= BoxCol(D, c, q) && BoxCol(D, c, q) + 2 + k < |Block(v, D, c)[k]|
    ensures Block(v, D, c)[k][BoxCol(D, c, q) - k] == if HasLeft(v[q]) then '/' else ' '
    ensures Block(v, D, c)[k][BoxCol(D, c, q) + 2 + k] == if HasRight(v[q]) then '\\' else ' '
  {
    BlockBranchRow(v, D, c, k);
    BranchRowCols(v, D, c, q, k);
  }

  /** Line k < BranchLen(D, c) of a block is its k-th branch row. */
  lemma BlockBranchRow(v: seq<Tree>, D: nat, c: nat, k: nat)
    requires 1 <= c < D && k < BranchLen(D, c)
    ensures GapAfter(EntryGap(D, c), k) >= 0
    ensures Block(v, D, c)[k] == BranchRow(v, 2 * BranchLen(D, c) - k, Intra(k), GapAfter(EntryGap(D, c), k))
  {
    var b, g := BranchLen(D, c), EntryGap(D, c);
    var rows := BranchRows(v, 2 * b, g, b);
    var last := LabelRow(v, 2 * BranchLen(D, c + 1), Gap(D, c));
    assert Block(v, D, c) == rows + [last];
    assert (rows + [last])[k] == rows[k];
    BranchRowsAt(v, 2 * b, g, b, k);
  }

  lemma BranchRowCols(v: seq<Tree>, D: nat, c: nat, q: nat, k: nat)
    requires 1 <= c < D && |v| == Pow2(c - 1) && q < |v| && k < BranchLen(D, c)
    requires GapAfter(EntryGap(D, c), k) >= 0
    ensures var row := BranchRow(v, 2 * BranchLen(D, c) - k, Intra(k), GapAfter(EntryGap(D, c), k));
      k <= BoxCol(D, c, q) && BoxCol(D, c, q) + 2 + k < |row| &&
      row[BoxCol(D, c, q) - k] == (if HasLeft(v[q]) then '/' else ' ') &&
      row[BoxCol(D, c, q) + 2 + k] == (if HasRight(v[q]) then '\\' else ' ')
  {
    BranchRowAt(v, 2 * BranchLen(D, c) - k, Intra(k), GapAfter(EntryGap(D, c), k), q, 0);
    BranchRowAt(v, 2 * BranchLen(D, c) - k, Intra(k), GapAfter(EntryGap(D, c), k), q, 1 + Intra(k));
    CellCol(D, c, q, k);
  }

  /** The root line's indent 2 BranchLen(D, 1) is 2^D - 2 columns. */
  lemma RootRowClosedForm(root: Tree, D: nat)
    requires D >= 1 && root.Node?
    ensures RootRow(root, D) == Spaces(Pow2(D) - 2) + ['(', root.data, ')']
  {
    Pow2Succ(D - 1);
    assert 2 * BranchLen(D, 1) == Pow2(D) - 2;
  }

  /** The empty tree prints nothing; any other picture opens with the
      root's box, indented 2 BranchLen(D, 1) = 2^D - 2 columns for a tree
      of height D. */
  lemma RenderFirstLine(root: Tree)
    ensures root.Nil? ==> Render(root) == []
    ensures root.Node? ==> |Render(root)| >= 1 && Render(root)[0] == RootRow(root, Height(root))
    ensures root.Node? ==> Render(root)[0] == Spaces(Pow2(Height(root)) - 2) + ['(', root.data, ')']
  {
    if root.Node? {
      RenderHead(root);
      RootRowClosedForm(root, Height(root));
    }
  }

  lemma RenderHead(root: Tree)
    requires root.Node?
    ensures |Render(root)| >= 1 && Render(root)[0] == RootRow(root, Height(root))
  {
    var D := Height(root);
    var first := RenderUpTo(root, D, 1);
    RenderPrefix(root, 1);
    assert first[0] == RootRow(root, D);
  }

  /** A childless node prints its box alone, on one line. */
  lemma LeafPicture(d: char)
    ensures Render(MakeNode(d)) == [['(', d, ')']]
  {
    var t := MakeNode(d);
    assert Height(t) == 1;
    assert RenderUpTo(t, 1, 1) == [RootRow(t, 1)];
    assert Spaces(0) + Box(t) == ['(', d, ')'];
  }

  lemma RootRowMatches(line: string, indent: nat, root: Tree)
    requires root.Node? && |line| == indent + 3
    requires forall x :: 0 <= x < indent ==> line[x] == ' '
    requires line[indent..] == ['(', root.data, ')']
    ensures line == Spaces(indent) + Box(root)
  {
    var r := Spaces(indent) + Box(root);
    forall x | 0 <= x < |line| ensures line[x] == r[x] {
      if x >= indent {
        assert line[x] == line[indent..][x - indent];
      }
    }
  }

  /** btPrettyPrint.cpp lines 158-161: append to the (emptied) level buffer
      the entries that carry the current depth, starting at the iterator.
      Given a span of entries of that depth holding the nodes L, followed by
      an entry of another depth, the buffer ends up holding exactly L and the
      iterator stops just past the span. */
  method RefillLevel(v: seq<Entry>, it0: nat, currentDepth: nat, vv0: seq<Tree>, ghost L: seq<Tree>)
    returns (vv: seq<Tree>, it: nat)
    requires vv0 == [] && it0 + |L| < |v|
    requires v[it0 .. it0 + |L|] == Tag(L, currentDepth)
    requires v[it0 + |L|].depth != currentDepth
    ensures vv == L && it == it0 + |L|
  {
    vv, it := vv0, it0;
    while v[it].depth == currentDepth
      invariant it0 <= it <= it0 + |L|
      invariant vv == L[..it - it0]
      decreases it0 + |L| - it
    {
      assert v[it] == v[it0 .. it0 + |L|][it - it0];
      assert L[..it - it0 + 1] == L[..it - it0] + [L[it - it0]];
      vv := vv + [v[it].node];
      it := it + 1;
    }
    assert L[..it - it0] == L;
  }

  /** btPrettyPrint.cpp lines 157-161: empty the level buffer, then refill it
      from the vector with the level at the new current depth; the iterator
      moves from the start of that level to the start of the next. */
  method NextLevel(v: seq<Entry>, it0: nat, currentDepth: nat, vv0: seq<Tree>,
                   ghost root: Tree, ghost D: nat)
    returns (vv: seq<Tree>, it: nat)
    requires v == Flat(root, D + 1) && 2 <= currentDepth <= D
    requires it0 == Pow2(currentDepth - 1) - 1
    ensures vv == Level(root, currentDepth)
    ensures it == Pow2(currentDepth) - 1
  {
    vv := vv0;
    while |vv| > 0
      decreases |vv|
    {
      vv := vv[..|vv| - 1];
    }
    FlatSpan(root, D + 1, currentDepth);
    vv, it := RefillLevel(v, it0, currentDepth, vv, Level(root, currentDepth));
  }

  /** btPrettyPrint.cpp lines 148-154, one pass of the print loop over the
      level at depth currentDepth: its branch lines, then the label line of
      the level beneath, which the branch lines turn the entry gap into. */
  method PrintLevel(vv: seq<Tree>, maxDepth: nat, currentDepth: nat, interSpacing: int)
    returns (block: seq<string>, nextInter: int)
    requires 1 <= currentDepth < maxDepth && interSpacing == EntryGap(maxDepth, currentDepth)
    ensures block == Block(vv, maxDepth, currentDepth)
    ensures nextInter == Gap(maxDepth, currentDepth)
  {
    ghost var b, b' := BranchLen(maxDepth, currentDepth), BranchLen(maxDepth, currentDepth + 1);
    var branchLen := Pow2(maxDepth - currentDepth) - 1;
    assert branchLen == b >= 1;
    var branchLines;
    branchLines, nextInter := PrintBranches(vv, branchLen, branchLen * 2, interSpacing);
    assert |branchLines| == b && branchLines == BranchRows(vv, 2 * b, interSpacing, b);
    BlockGap(maxDepth, currentDepth);
    assert nextInter == Gap(maxDepth, currentDepth);
    branchLen := Pow2(maxDepth - (currentDepth + 1)) - 1;
    assert branchLen * 2 == 2 * b';
    var nodeLine := PrintNodes(vv, branchLen * 2, nextInter);
    block := branchLines + [nodeLine];
  }

  /** btPrettyPrint.cpp lines 137-162, the print loop: starting from the root
      line with the root level in the buffer, print each level's block until
      the current depth reaches the height, moving the buffer and the iterator
      down one level after each. */
  method PrintLevels(v: seq<Entry>, maxDepth: nat, vv0: seq<Tree>, it0: nat,
                     lines0: seq<string>, ghost root: Tree)
    returns (lines: seq<string>)
    requires v == Flat(root, maxDepth + 1) && maxDepth >= 1
    requires vv0 == Level(root, 1) && it0 == 1 && lines0 == RenderUpTo(root, maxDepth, 1)
    ensures lines == RenderUpTo(root, maxDepth, maxDepth)
  {
    var currentDepth := 1;
    var interSpacing := 0;
    var vv, it := vv0, it0;
    lines := lines0;
    while currentDepth < maxDepth
      invariant 1 <= currentDepth <= maxDepth
      invariant vv == Level(root, currentDepth)
      invariant it == Pow2(currentDepth) - 1
      invariant currentDepth < maxDepth ==> interSpacing == EntryGap(maxDepth, currentDepth)
      invariant lines == RenderUpTo(root, maxDepth, currentDepth)
      decreases maxDepth - currentDepth
    {
      ghost var c := currentDepth;
      var block;
      block, interSpacing := PrintLevel(vv, maxDepth, currentDepth, interSpacing);
      RenderStep(root, maxDepth, c);
      BlockGap(maxDepth, c);
      lines := lines + block;
      currentDepth := currentDepth + 1;
      assert currentDepth - 1 == c;
      vv, it := NextLevel(v, it, currentDepth, vv, root, maxDepth);
    }
  }

  /** btPrettyPrint.cpp lines 104-163: print the tree. An empty tree prints
      nothing; otherwise the tree is materialised level by level, the root
      line is printed with the indent of the first branch block, and the print
      loop follows. */
  method PrintBT(root: Tree) returns (lines: seq<string>)
    ensures root.Nil? ==> lines == []
    ensures lines == Render(root)
  {
    lines := [];
    if root == Nil {
      return;
    }
    var v, depth := Materialize(root);
    var maxDepth := depth;
    var branchLen := Pow2(maxDepth - 1) - 1;
    var vv: seq<Tree> := [];

    FlatLevel(root, 1, maxDepth + 1, 0);
    vv := vv + [v[0].node];
    assert vv == Level(root, 1);
    var rootLine := PrintRoot(vv, branchLen * 2);
    RootRowMatches(rootLine, branchLen * 2, root);
    lines := lines + [rootLine];
    lines := PrintLevels(v, maxDepth, vv, 1, lines, root);
  }
}

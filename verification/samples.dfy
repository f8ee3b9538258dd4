/** The example picture of the header's documentation: the perfect tree of
    height 3, A over B and C over D, E, F and G. */
module Samples {
  import opened BTNodes
  import opened Spacing
  import opened Levels
  import opened Rows
  import opened Layout

  /** A(B(D, E), C(F, G)), built with the node constructor. */
  function Perfect(): (t: Tree)
    ensures Height(t) == 3
  {
    MakeNode('A', MakeNode('B', MakeNode('D'), MakeNode('E')), MakeNode('C', MakeNode('F'), MakeNode('G')))
  }

  /** A(B(D(H, I), E), C(F(L, -), G)), the tree of the commented-out demo:
      its deepest present node sits on level 4, so the printer's maximum
      depth is 4. */
  function Demo(): (t: Tree)
    ensures Height(t) == 4
  {
    MakeNode('A',
      MakeNode('B', MakeNode('D', MakeNode('H'), MakeNode('I')), MakeNode('E')),
      MakeNode('C', MakeNode('F', MakeNode('L')), MakeNode('G')))
  }

  lemma FirstGap()
    ensures Gap(3, 1) == 5
  {
  }

  lemma FirstRow(v: seq<Tree>, k: nat)
    requires k < 3
    ensures Block(v, 3, 1)[k] == BranchRow(v, 6 - k, Intra(k), 0)
  {
    BlockBranchRow(v, 3, 1, k);
    assert BranchLen(3, 1) == 3 && EntryGap(3, 1) == 0;
  }

  lemma FirstLabel(v: seq<Tree>)
    ensures |Block(v, 3, 1)| == 4 && Block(v, 3, 1)[3] == LabelRow(v, 2, 5)
  {
    BlockLabelRow(v, 3, 1);
    FirstGap();
    assert BranchLen(3, 1) == 3 && BranchLen(3, 2) == 1;
  }

  lemma SecondRow(v: seq<Tree>)
    ensures Block(v, 3, 2)[0] == BranchRow(v, 2, 1, 5)
  {
    BlockBranchRow(v, 3, 2, 0);
    assert BranchLen(3, 2) == 1 && EntryGap(3, 2) == 5;
  }

  lemma SecondLabel(v: seq<Tree>)
    ensures |Block(v, 3, 2)| == 2 && Block(v, 3, 2)[1] == LabelRow(v, 0, 1)
  {
    BlockLabelRow(v, 3, 2);
    assert BranchLen(3, 2) == 1 && BranchLen(3, 3) == 0 && Gap(3, 2) == 1;
  }

  /** Below the root of a tree of height 3: three branch lines narrowing
      from indent 6, then the label line at indent 2 with gap 5. */
  lemma FirstBlock(v: seq<Tree>)
    ensures Block(v, 3, 1) == [BranchRow(v, 6, 1, 0), BranchRow(v, 5, 3, 0), BranchRow(v, 4, 5, 0), LabelRow(v, 2, 5)]
  {
    FirstRow(v, 0);
    FirstRow(v, 1);
    FirstRow(v, 2);
    FirstLabel(v);
  }

  /** Below the second level of a tree of height 3: one branch line with the
      gap 5 handed down, then the label line at indent 0 with gap 1. */
  lemma SecondBlock(v: seq<Tree>)
    ensures Block(v, 3, 2) == [BranchRow(v, 2, 1, 5), LabelRow(v, 0, 1)]
  {
    SecondRow(v);
    SecondLabel(v);
  }

  lemma JoinOne(a: string)
    ensures Join([a]) == a
  {
    assert [a][..0] == [];
  }

  lemma JoinTwo(a: string, b: string)
    ensures Join([a, b]) == a + b
  {
    assert [a, b][..1] == [a];
    JoinOne(a);
  }

  lemma BranchRowA(indent: nat, intra: nat)
    ensures BranchRow([Perfect()], indent, intra, 0) == Spaces(indent) + ['/'] + Spaces(intra) + ['\\']
  {
    var c := BranchCell(Perfect(), intra, 0);
    assert BranchCells([Perfect()], intra, 0) == [c];
    JoinOne(c);
    assert Spaces(0) == [];
  }

  lemma FirstBranchLines()
    ensures BranchRow([Perfect()], 6, 1, 0) == "      / \\"
    ensures BranchRow([Perfect()], 5, 3, 0) == "     /   \\"
    ensures BranchRow([Perfect()], 4, 5, 0) == "    /     \\"
  {
    BranchRowA(6, 1);
    BranchRowA(5, 3);
    BranchRowA(4, 5);
    assert Spaces(1) == " " && Spaces(3) == "   " && Spaces(4) == "    ";
    assert Spaces(5) == "     " && Spaces(6) == "      ";
  }

  lemma FirstLabelLine()
    ensures LabelRow([Perfect()], 2, 5) == "  (B)     (C)"
  {
    var t := Perfect();
    var c := LabelCell(t, 5, 0);
    assert LabelCells([t], 5) == [c];
    JoinOne(c);
    assert Spaces(0) == [] && Spaces(2) == "  " && Spaces(5) == "     ";
    assert Box(t.left) == "(B)" && Box(t.right) == "(C)";
  }

  lemma SecondBranchLine()
    ensures BranchRow([Perfect().left, Perfect().right], 2, 1, 5) == "  / \\     / \\     "
  {
    var t := Perfect();
    var a, b := BranchCell(t.left, 1, 5), BranchCell(t.right, 1, 5);
    assert BranchCells([t.left, t.right], 1, 5) == [a, b];
    JoinTwo(a, b);
    assert Spaces(1) == " " && Spaces(2) == "  " && Spaces(5) == "     ";
    assert a == "/ \\     " && b == "/ \\     ";
  }

  lemma SecondLabelLine()
    ensures LabelRow([Perfect().left, Perfect().right], 0, 1) == "(D) (E) (F) (G)"
  {
    var t := Perfect();
    var a, b := LabelCell(t.left, 1, 1), LabelCell(t.right, 1, 0);
    assert LabelCells([t.left, t.right], 1) == [a, b];
    JoinTwo(a, b);
    assert Spaces(0) == [] && Spaces(1) == " ";
    assert a == "(D) (E) " && b == "(F) (G)";
  }

  /** A tree of height 3 prints its root line, three branch lines and a
      label line below the root, then one branch line and a label line below
      the second level. */
  lemma PictureRows(t: Tree)
    requires Height(t) == 3
    ensures var f, s := [t], [t.left, t.right];
      Render(t) == [RootRow(t, 3), BranchRow(f, 6, 1, 0), BranchRow(f, 5, 3, 0), BranchRow(f, 4, 5, 0),
                    LabelRow(f, 2, 5), BranchRow(s, 2, 1, 5), LabelRow(s, 0, 1)]
  {
    PictureBlocks(t);
    TopLevels(t);
    var b1, b2 := Block([t], 3, 1), Block([t.left, t.right], 3, 2);
    FirstBlock([t]);
    SecondBlock([t.left, t.right]);
    Seven(RootRow(t, 3), b1, b2);
  }

  lemma Seven<T>(r: T, x: seq<T>, y: seq<T>)
    requires |x| == 4 && |y| == 2
    ensures [r] + x + y == [r, x[0], x[1], x[2], x[3], y[0], y[1]]
  {
  }

  /** A tree of height 3 prints its root line and the blocks below its
      first two levels. */
  lemma PictureBlocks(t: Tree)
    requires Height(t) == 3
    ensures Render(t) == [RootRow(t, 3)] + Block(Level(t, 1), 3, 1) + Block(Level(t, 2), 3, 2)
  {
    RenderStep(t, 3, 1);
    RenderStep(t, 3, 2);
  }

  lemma TopLevels(t: Tree)
    requires t.Node?
    ensures Level(t, 1) == [t] && Level(t, 2) == [t.left, t.right]
  {
    assert Level(t, 2) == Level(t.left, 1) + Level(t.right, 1);
  }

  lemma RootLine()
    ensures RootRow(Perfect(), 3) == "      (A)"
  {
    assert BranchLen(3, 1) == 3;
    assert Spaces(6) == "      ";
  }

  /** The seven lines printed for the perfect tree of height 3: the root,
      three branch lines, the labels of B and C, one branch line and the
      labels of D, E, F and G. The sixth line keeps the trailing gap of its
      last branch cell; only label lines drop it. */
  lemma PerfectPicture(t: Tree)
    requires t == Perfect()
    ensures Render(t) == [
      "      (A)",
      "      / \\",
      "     /   \\",
      "    /     \\",
      "  (B)     (C)",
      "  / \\     / \\     ",
      "(D) (E) (F) (G)"
    ]
  {
    PictureRows(t);
    RootLine();
    FirstBranchLines();
    FirstLabelLine();
    SecondBranchLine();
    SecondLabelLine();
  }
}

/** The three kinds of output line: the root line, the branch lines drawn
    below one level, and the label line showing the next level's nodes. Each
    line is returned as a string without its line break. */
module Rows {
  import opened BTNodes
  import opened Spacing

  /** A run of n blanks. */
  function Spaces(n: nat): (s: string)
    ensures |s| == n
  {
    seq(n, _ => ' ')
  }

  /** The three-column box of a present node, "(x)", or three blanks. */
  function Box(t: Tree): (s: string)
    ensures |s| == 3
  {
    if t.Node? then ['(', t.data, ')'] else "   "
  }

  /** The pieces of a line written one after another. */
  function Join(cs: seq<string>): (r: string)
  {
    if cs == [] then "" else Join(cs[..|cs| - 1]) + cs[|cs| - 1]
  }

  lemma JoinSnoc(cs: seq<string>, j: nat)
    requires j < |cs|
    ensures Join(cs[..j + 1]) == Join(cs[..j]) + cs[j]
  {
    assert cs[..j + 1][..j] == cs[..j];
  }

  /** A line built so far, extended by the next piece. */
  lemma JoinExtend(s: string, cs: seq<string>, j: nat)
    requires j < |cs|
    ensures s + Join(cs[..j]) + cs[j] == s + Join(cs[..j + 1])
  {
    JoinSnoc(cs, j);
  }

  lemma {:induction false} JoinCons(s: string, cs: seq<string>)
    ensures Join([s] + cs) == s + Join(cs)
    decreases |cs|
  {
    if cs != [] {
      var n := |cs| - 1;
      assert ([s] + cs)[..n + 1] == [s] + cs[..n];
      JoinCons(s, cs[..n]);
    } else {
      assert [s] + cs == [s];
    }
  }

  /** Pieces of equal width w laid end to end. */
  lemma {:induction false} JoinLength(cs: seq<string>, w: nat)
    requires forall i :: 0 <= i < |cs| ==> |cs[i]| == w
    ensures |Join(cs)| == |cs| * w
    decreases |cs|
  {
    if cs != [] {
      JoinLength(cs[..|cs| - 1], w);
    }
  }

  /** Character o of piece p sits at column p * w + o when the pieces before
      it are w wide. */
  lemma {:induction false} JoinAt(cs: seq<string>, w: nat, p: nat, o: nat)
    requires p < |cs| && o < |cs[p]|
    requires forall i :: 0 <= i < p ==> |cs[i]| == w
    ensures p * w + o < |Join(cs)| && Join(cs)[p * w + o] == cs[p][o]
    decreases |cs|
  {
    var init := cs[..|cs| - 1];
    if p == |cs| - 1 {
      JoinLength(init, w);
    } else {
      JoinAt(init, w, p, o);
    }
  }

  /** One buffer entry of a branch line: '/' under a present left child,
      the intra gap, '\' under a present right child, the inter gap; an
      absent entry is blank over the same width. */
  function BranchCell(t: Tree, intra: nat, inter: nat): (s: string)
    ensures |s| == 2 + intra + inter
  {
    if t.Nil? then Spaces(1 + intra + 1 + inter)
    else [if t.left.Node? then '/' else ' '] + Spaces(intra) + [if t.right.Node? then '\\' else ' '] + Spaces(inter)
  }

  function BranchCells(v: seq<Tree>, intra: nat, inter: nat): (cs: seq<string>)
    ensures |cs| == |v|
  {
    seq(|v|, i requires 0 <= i < |v| => BranchCell(v[i], intra, inter))
  }

  /** A branch line: the indent, then one cell per buffer entry. */
  function BranchRow(v: seq<Tree>, indent: nat, intra: nat, inter: nat): (r: string)
    ensures |r| >= indent
  {
    Spaces(indent) + Join(BranchCells(v, intra, inter))
  }

  lemma AppendAt(s: string, t: string, x: nat)
    requires x < |t|
    ensures |s| + x < |s + t| && (s + t)[|s| + x] == t[x]
  {
  }

  /** In a line made of an indent and pieces, column o of piece p stands at
      indent + p * w + o when the pieces before it are w wide. */
  lemma RowCellAt(indent: nat, cs: seq<string>, w: nat, p: nat, o: nat)
    requires p < |cs| && o < |cs[p]|
    requires forall i :: 0 <= i < p ==> |cs[i]| == w
    ensures indent + (p * w + o) < |Spaces(indent) + Join(cs)|
    ensures (Spaces(indent) + Join(cs))[indent + (p * w + o)] == cs[p][o]
  {
    var x: nat := p * w;
    JoinAt(cs, w, p, o);
    AppendAt(Spaces(indent), Join(cs), x + o);
  }

  lemma BranchCellAt(t: Tree, intra: nat, inter: nat, o: nat)
    requires o < 2 + intra + inter
    ensures BranchCell(t, intra, inter)[o]
         == if o == 0 && HasLeft(t) then '/' else if o == 1 + intra && HasRight(t) then '\\' else ' '
  {
    if t.Node? {
      var l := [if t.left.Node? then '/' else ' '];
      var r := [if t.right.Node? then '\\' else ' '];
      var c := l + Spaces(intra) + r + Spaces(inter);
      assert BranchCell(t, intra, inter) == c;
      if o == 0 {
        assert c[o] == l[0];
      } else if o < 1 + intra {
        assert c[o] == Spaces(intra)[o - 1];
      } else if o == 1 + intra {
        assert c[o] == r[0];
      } else {
        assert c[o] == Spaces(inter)[o - 2 - intra];
      }
    }
  }

  /** A branch line is as long as its indent plus one full cell per entry. */
  lemma BranchRowLength(v: seq<Tree>, indent: nat, intra: nat, inter: nat)
    ensures |BranchRow(v, indent, intra, inter)| == indent + |v| * (2 + intra + inter)
  {
    JoinLength(BranchCells(v, intra, inter), 2 + intra + inter);
  }

  /** Column by column: entry p's cell starts at column
      indent + p (2 + intra + inter); '/' stands at its first column exactly
      when its left child is present, '\' at column 1 + intra exactly when
      its right child is, and every other column, the indent included, is
      blank. */
  lemma BranchRowAt(v: seq<Tree>, indent: nat, intra: nat, inter: nat, p: nat, o: nat)
    requires p < |v| && o < 2 + intra + inter
    ensures var r, x := BranchRow(v, indent, intra, inter), indent + (p * (2 + intra + inter) + o);
            x < |r| && r[x] == if o == 0 && HasLeft(v[p]) then '/'
                               else if o == 1 + intra && HasRight(v[p]) then '\\'
                               else ' '
    ensures forall x :: 0 <= x < indent ==> BranchRow(v, indent, intra, inter)[x] == ' '
  {
    var cs := BranchCells(v, intra, inter);
    JoinLength(cs, 2 + intra + inter);
    RowCellAt(indent, cs, 2 + intra + inter, p, o);
    assert cs[p] == BranchCell(v[p], intra, inter);
    BranchCellAt(v[p], intra, inter, o);
  }

  /** The n branch lines of a block entered with indent `indent` and gap g:
      line k is indented k columns less, has intra gap 1 + 2k and the gap g
      decremented k times. The gap must stay non-negative on every line:
      an even gap bottoms out at 0, an odd one must outlast the block. */
  function BranchRows(v: seq<Tree>, indent: nat, g: int, n: nat): (r: seq<string>)
    requires indent + 1 >= n && g >= 0 && (g % 2 == 0 || g >= 2 * n - 1)
    ensures |r| == n
  {
    if n == 0 then []
    else BranchRows(v, indent, g, n - 1) + [BranchRow(v, indent - (n - 1), Intra(n - 1), GapAfter(g, n - 1))]
  }

  /** One more branch line appends one row. */
  lemma BranchRowsSnoc(v: seq<Tree>, indent: nat, g: int, n: nat)
    requires indent >= n && g >= 0 && (g % 2 == 0 || g >= 2 * n + 1)
    ensures GapAfter(g, n) >= 0
    ensures BranchRows(v, indent, g, n + 1)
         == BranchRows(v, indent, g, n) + [BranchRow(v, indent - n, Intra(n), GapAfter(g, n))]
  {
  }

  /** Line k of a block, on its own. */
  lemma {:induction false} BranchRowsAt(v: seq<Tree>, indent: nat, g: int, n: nat, k: nat)
    requires indent + 1 >= n && g >= 0 && (g % 2 == 0 || g >= 2 * n - 1)
    requires k < n
    ensures GapAfter(g, k) >= 0
    ensures BranchRows(v, indent, g, n)[k] == BranchRow(v, indent - k, Intra(k), GapAfter(g, k))
    decreases n
  {
    if k < n - 1 {
      BranchRowsAt(v, indent, g, n - 1, k);
    } else {
      assert k == n - 1;
    }
  }

  /** One buffer entry of a label line: the left child's box, the inter gap,
      the right child's box, then a trailing gap; an absent entry is blank
      over the same width. */
  function LabelCell(t: Tree, inter: nat, trail: nat): (s: string)
    ensures |s| == 6 + inter + trail
  {
    if t.Nil? then Spaces(3 + inter + 3) + Spaces(trail)
    else Box(t.left) + Spaces(inter) + Box(t.right) + Spaces(trail)
  }

  /** The cells of a label line: the trailing gap is the inter gap, except
      after the last entry, where it is dropped. */
  function LabelCells(v: seq<Tree>, inter: nat): (cs: seq<string>)
    ensures |cs| == |v|
  {
    seq(|v|, i requires 0 <= i < |v| => LabelCell(v[i], inter, if i == |v| - 1 then 0 else inter))
  }

  /** A label line: the indent, then one cell per buffer entry. */
  function LabelRow(v: seq<Tree>, indent: nat, inter: nat): (r: string)
    ensures |r| >= indent
  {
    Spaces(indent) + Join(LabelCells(v, inter))
  }

  lemma LabelCellAt(t: Tree, inter: nat, trail: nat, o: nat)
    requires o < 3
    ensures LabelCell(t, inter, trail)[o] == Box(LeftOf(t))[o]
    ensures LabelCell(t, inter, trail)[3 + inter + o] == Box(RightOf(t))[o]
  {
    if t.Node? {
      var c := Box(t.left) + Spaces(inter) + Box(t.right) + Spaces(trail);
      assert LabelCell(t, inter, trail) == c;
      assert c[o] == Box(t.left)[o];
      assert c[3 + inter + o] == Box(t.right)[o];
    }
  }

  /** The label line ends right after the last entry's right box: it is as
      long as its full-width cells plus the last cell, whose trailing gap is
      dropped. */
  lemma LabelRowLength(v: seq<Tree>, indent: nat, inter: nat)
    requires |v| >= 1
    ensures |LabelRow(v, indent, inter)| == indent + |v| * (6 + 2 * inter) - inter
  {
    var w := 6 + 2 * inter;
    var cs := LabelCells(v, inter);
    var n := |v| - 1;
    var init := cs[..n];
    JoinLength(init, w);
    assert Join(cs) == Join(init) + cs[n];
    assert |v| * w == n * w + w;
  }

  /** Column by column: entry p starts at column indent + p * (6 + 2 inter);
      its first three columns show the left child's box and the three
      columns after the inter gap the right child's box (blanks for an
      absent child or entry); the indent is blank. */
  lemma LabelRowAt(v: seq<Tree>, indent: nat, inter: nat, p: nat, o: nat)
    requires p < |v| && o < 3
    ensures indent + (p * (6 + 2 * inter) + (3 + inter + o)) < |LabelRow(v, indent, inter)|
    ensures LabelRow(v, indent, inter)[indent + (p * (6 + 2 * inter) + o)] == Box(LeftOf(v[p]))[o]
    ensures LabelRow(v, indent, inter)[indent + (p * (6 + 2 * inter) + (3 + inter + o))] == Box(RightOf(v[p]))[o]
    ensures forall x :: 0 <= x < indent ==> LabelRow(v, indent, inter)[x] == ' '
  {
    var cs := LabelCells(v, inter);
    LabelCellsWidth(v, inter, p);
    RowCellAt(indent, cs, 6 + 2 * inter, p, o);
    RowCellAt(indent, cs, 6 + 2 * inter, p, 3 + inter + o);
    var trail := if p == |v| - 1 then 0 else inter;
    assert cs[p] == LabelCell(v[p], inter, trail);
    LabelCellAt(v[p], inter, trail, o);
  }

  /** Every entry before the last takes the full width 6 + 2 inter. */
  lemma LabelCellsWidth(v: seq<Tree>, inter: nat, p: nat)
    requires p < |v|
    ensures forall i :: 0 <= i < p ==> |LabelCells(v, inter)[i]| == 6 + 2 * inter
  {
  }

  lemma LabelCellBlank(t: Tree, inter: nat, trail: nat, o: nat)
    requires 3 <= o < 3 + inter || 6 + inter <= o < 6 + inter + trail
    ensures LabelCell(t, inter, trail)[o] == ' '
  {
    if t.Node? {
      var c := Box(t.left) + Spaces(inter) + Box(t.right) + Spaces(trail);
      assert LabelCell(t, inter, trail) == c;
    }
  }

  /** Between the boxes of entry p lie inter blank columns, and between
      entry p and entry p + 1 another inter blank columns; nothing is
      printed after the last entry's right box. */
  lemma LabelRowBlank(v: seq<Tree>, indent: nat, inter: nat, p: nat, o: nat)
    requires p < |v|
    requires 3 <= o < 3 + inter || (p < |v| - 1 && 6 + inter <= o < 6 + 2 * inter)
    ensures var r, x := LabelRow(v, indent, inter), indent + (p * (6 + 2 * inter) + o);
            x < |r| && r[x] == ' '
  {
    var cs := LabelCells(v, inter);
    var trail := if p == |v| - 1 then 0 else inter;
    assert cs[p] == LabelCell(v[p], inter, trail);
    LabelCellsWidth(v, inter, p);
    RowCellAt(indent, cs, 6 + 2 * inter, p, o);
    LabelCellBlank(v[p], inter, trail, o);
  }

  /** btPrettyPrint.cpp lines 50-57: the cell one buffer entry contributes
      to a branch line. */
  method BranchEntry(t: Tree, intraSpacing: nat, interSpacing: nat) returns (cell: string)
    ensures cell == BranchCell(t, intraSpacing, interSpacing)
  {
    if t == Nil {
      cell := Spaces(1 + intraSpacing + 1 + interSpacing);
    } else {
      cell := [if t.left != Nil then '/' else ' '];
      cell := cell + Spaces(intraSpacing);
      cell := cell + [if t.right != Nil then '\\' else ' '];
      cell := cell + Spaces(interSpacing);
    }
  }

  /** btPrettyPrint.cpp lines 48-58: one branch line, the indent then each
      entry's cell in buffer order. */
  method BranchLine(v: seq<Tree>, indent: nat, intraSpacing: nat, interSpacing: nat) returns (line: string)
    ensures line == BranchRow(v, indent, intraSpacing, interSpacing)
  {
    ghost var cs := BranchCells(v, intraSpacing, interSpacing);
    line := Spaces(indent);
    var j := 0;
    while j < |v|
      invariant j <= |v|
      invariant line == Spaces(indent) + Join(cs[..j])
    {
      var cell := BranchEntry(v[j], intraSpacing, interSpacing);
      assert cell == cs[j];
      JoinExtend(Spaces(indent), cs, j);
      line := line + cell;
      j := j + 1;
    }
    assert cs[..j] == cs;
  }

  /** btPrettyPrint.cpp lines 42-70: branchLen branch lines, each one column
      less indented, with the intra gap growing by 2 and the inter gap
      shrinking by 2 while it is positive; returns the gap for the label line.
      The caller must keep every gap and indent it prints non-negative, which
      string(n, ' ') needs: an even gap bottoms out at 0, an odd one must
      outlast the block. */
  method PrintBranches(v: seq<Tree>, branchLen: int, indent: int, interSpacing: int)
    returns (lines: seq<string>, nextInter: int)
    requires branchLen > 0 ==> indent + 1 >= branchLen && interSpacing >= 0
    requires branchLen > 0 ==> interSpacing % 2 == 0 || interSpacing >= 2 * branchLen - 1
    ensures |lines| == if branchLen > 0 then branchLen else 0
    ensures branchLen > 0 ==> lines == BranchRows(v, indent, interSpacing, branchLen)
    ensures nextInter == NextGap(interSpacing, |lines|)
  {
    var intraSpacing := 1;
    var len, ind, inter := branchLen, indent, interSpacing;
    lines := [];
    while len > 0
      invariant |lines| <= if branchLen > 0 then branchLen else 0
      invariant len == branchLen - |lines|
      invariant ind == indent - |lines|
      invariant intraSpacing == Intra(|lines|)
      invariant inter == GapAfter(interSpacing, |lines|)
      invariant branchLen > 0 ==> lines == BranchRows(v, indent, interSpacing, |lines|)
    {
      var line := BranchLine(v, ind, intraSpacing, inter);
      GapAfterStep(interSpacing, |lines|);
      BranchRowsSnoc(v, indent, interSpacing, |lines|);
      lines := lines + [line];
      ind := ind - 1;
      len := len - 1;
      intraSpacing := intraSpacing + 2;
      if inter > 0 {
        inter := inter - 2;
      }
    }
    nextInter := if inter == 0 then intraSpacing - 2 else inter - 2;
  }

  /** btPrettyPrint.cpp lines 72-94: one label line, the indent then, per
      entry, its children's boxes separated by the inter gap and followed by
      it, except that the gap after the last entry is dropped. */
  method PrintNodes(v: seq<Tree>, indent: nat, interSpacing: nat) returns (line: string)
    ensures line == LabelRow(v, indent, interSpacing)
  {
    ghost var cs := LabelCells(v, interSpacing);
    ghost var pieces := [Spaces(indent)] + cs;
    var inter := interSpacing;
    line := Spaces(indent);
    assert pieces[..1] == [line];
    var j := 0;
    while j < |v|
      invariant j <= |v|
      invariant j < |v| ==> inter == interSpacing
      invariant line == Join(pieces[..j + 1])
    {
      var cell: string;
      if v[j] == Nil {
        cell := Spaces(3 + inter + 3);
      } else {
        cell := Box(v[j].left);
        cell := cell + Spaces(inter);
        cell := cell + Box(v[j].right);
      }
      if j + 1 == |v| {
        inter := 0;
      }
      cell := cell + Spaces(inter);
      assert pieces[j + 1] == LabelCell(v[j], interSpacing, inter);
      line := line + cell;
      JoinSnoc(pieces, j + 1);
      j := j + 1;
    }
    assert pieces[..j + 1] == pieces;
    JoinCons(Spaces(indent), cs);
  }

  /** btPrettyPrint.cpp lines 96-102: the root line, the indent then the
      root's box. */
  method PrintRoot(v: seq<Tree>, indent: nat) returns (line: string)
    requires |v| >= 1 && v[0].Node?
    ensures |line| == indent + 3
    ensures forall x :: 0 <= x < indent ==> line[x] == ' '
    ensures line[indent..] == ['(', v[0].data, ')']
  {
    line := Spaces(indent);
    line := line + ['(', v[0].data, ')'];
  }
}

/** The spacing arithmetic of the printer. Every quantity depends only on
    the tree height D and the current depth c (root at depth 1). */
module Spacing {

  function Pow2(n: nat): (r: nat)
    ensures r >= 1
  {
    if n == 0 then 1 else 2 * Pow2(n - 1)
  }

  lemma Pow2Succ(n: nat)
    ensures Pow2(n + 1) == 2 * Pow2(n)
  {
  }

  lemma {:induction false} Pow2Grows(n: nat)
    requires n >= 2
    ensures Pow2(n) == 4 * Pow2(n - 2) && Pow2(n) >= 4
  {
  }

  /** Number of branch rows drawn below depth c, 2^(D-c) - 1. */
  function BranchLen(D: nat, c: nat): (b: nat)
    requires c <= D
    ensures c < D <==> b >= 1
  {
    Pow2(D - c) - 1
  }

  /** The intra gap on row k of a branch block: 1, 3, 5, ... */
  function Intra(k: nat): nat
  {
    1 + 2 * k
  }

  /** The inter gap on row k of a branch block entered with gap g: it drops
      by 2 per row while it is positive, and otherwise stays put. */
  function GapAfter(g: int, k: nat): int
  {
    if g <= 0 then g
    else if g - 2 * k >= 0 then g - 2 * k
    else if g % 2 == 0 then 0
    else -1
  }

  /** One more row applies the guarded decrement once. */
  lemma GapAfterStep(g: int, k: nat)
    ensures GapAfter(g, k + 1) == if GapAfter(g, k) > 0 then GapAfter(g, k) - 2 else GapAfter(g, k)
  {
    if g > 0 && g - 2 * k == 1 {
      assert g % 2 == 1;
    }
  }

  /** The gap handed on after a block of n branch rows entered with gap g:
      the last intra gap minus 2 when the inter gap bottomed out at 0,
      otherwise the last inter gap minus 2. */
  function NextGap(g: int, n: nat): int
  {
    var last := GapAfter(g, n);
    if last == 0 then Intra(n) - 2 else last - 2
  }

  /** The gap threaded from the root: 0 before the first block, then each
      block's NextGap feeds the next. */
  function Threaded(D: nat, c: nat): int
    requires c < D
  {
    if c == 0 then 0 else NextGap(Threaded(D, c - 1), BranchLen(D, c))
  }

  /** Closed form of the label-row gap of depth c+1: 2^(D-c+1) - 3. */
  function Gap(D: nat, c: nat): (g: nat)
    requires 1 <= c < D
    ensures g >= 1 && g % 2 == 1
  {
    Pow2Grows(D - c + 1);
    Pow2(D - c + 1) - 3
  }

  /** Closed form of the gap entering the block below depth c: 0 for the
      first block, else the label gap of the level above. It fits the block:
      an even gap bottoms out at 0, an odd one outlasts the block's rows. */
  function EntryGap(D: nat, c: nat): (g: nat)
    requires 1 <= c < D
    ensures g % 2 == 0 || g >= 2 * BranchLen(D, c) - 1
  {
    if c == 1 then 0
    else
      Pow2Grows(D - c + 2);
      Gap(D, c - 1)
  }

  /** One block turns its closed-form entry gap into the closed-form label
      gap, which is in turn the entry gap of the block below. */
  lemma BlockGap(D: nat, c: nat)
    requires 1 <= c < D
    ensures NextGap(EntryGap(D, c), BranchLen(D, c)) == Gap(D, c)
    ensures c + 1 < D ==> EntryGap(D, c + 1) == Gap(D, c)
  {
    var b := BranchLen(D, c);
    if c == 1 {
      assert GapAfter(0, b) == 0;
      assert Pow2(D) == 2 * Pow2(D - 1);
    } else {
      var g := Gap(D, c - 1);
      Pow2Grows(D - c + 2);
      assert Pow2(D - c + 1) == 2 * Pow2(D - c);
      assert g - 2 * b == 2 * Pow2(D - c) - 1;
      assert GapAfter(g, b) == 2 * Pow2(D - c) - 1;
    }
  }

  /** The gap threaded from the root through the blocks equals the closed
      form, so it is always odd and at least 1. */
  lemma {:induction false} ThreadedClosedForm(D: nat, c: nat)
    requires 1 <= c < D
    ensures Threaded(D, c) == Gap(D, c)
    ensures Threaded(D, c - 1) == EntryGap(D, c)
  {
    if c > 1 {
      ThreadedClosedForm(D, c - 1);
    }
    BlockGap(D, c);
  }

  /** The distance between the boxes of consecutive entries of level c in
      the picture: 2^(D-c+2), four columns at the bottom level. */
  function Pitch(D: nat, c: nat): (w: nat)
    requires c <= D
    ensures w >= 4
  {
    4 * Pow2(D - c)
  }

  /** The column where the box of entry q of level c starts. */
  function BoxCol(D: nat, c: nat, q: nat): (x: nat)
    requires 1 <= c <= D
    ensures x >= 2 * BranchLen(D, c)
  {
    2 * BranchLen(D, c) + q * Pitch(D, c)
  }

  /** Below the first block every branch line has the pitch of its level:
      the intra gap grows by 2 exactly as the inter gap shrinks by 2. */
  lemma BranchPitch(D: nat, c: nat, k: nat)
    requires 1 < c < D && k < BranchLen(D, c)
    ensures 2 + Intra(k) + GapAfter(EntryGap(D, c), k) == Pitch(D, c)
  {
    Pow2Grows(D - c + 2);
  }

  /** A label line has the pitch of the level above it, twice the pitch of
      its own level, and a box plus the inter gap spans one pitch of its
      own level. */
  lemma LabelPitch(D: nat, c: nat)
    requires 1 <= c < D
    ensures 6 + 2 * Gap(D, c) == Pitch(D, c) == 2 * Pitch(D, c + 1)
    ensures 3 + Gap(D, c) == Pitch(D, c + 1)
    ensures 2 * BranchLen(D, c) + 2 == Pitch(D, c + 1)
  {
    assert Pow2(D - c) == 2 * Pow2(D - (c + 1));
    assert Pow2(D - c + 1) == 2 * Pow2(D - c);
  }

  /** The slashes of a block meet the boxes of the level beneath: moving
      one column out per line, the last line's slash of entry q sits over
      the closing parenthesis of its left child's box and its backslash
      over the opening parenthesis of its right child's box. */
  lemma {:induction false} BranchMeetsChildren(D: nat, c: nat, q: nat)
    requires 1 <= c < D
    ensures BoxCol(D, c, q) - (BranchLen(D, c) - 1) == BoxCol(D, c + 1, 2 * q) + 2
    ensures BoxCol(D, c, q) + 2 + (BranchLen(D, c) - 1) == BoxCol(D, c + 1, 2 * q + 1)
  {
    LabelPitch(D, c);
    var p, p' := Pitch(D, c), Pitch(D, c + 1);
    assert (2 * q) * p' == q * p;
    assert (2 * q + 1) * p' == q * p + p';
  }

  /** Lines printed once the labels of levels 1 .. c are out: the root
      line, then per level above c its branch lines and one label line. */
  function LineCount(D: nat, c: nat): nat
    requires 1 <= c <= D
  {
    if c == 1 then 1 else LineCount(D, c - 1) + BranchLen(D, c - 1) + 1
  }

  lemma {:induction false} LineCountClosedForm(D: nat, c: nat)
    requires 1 <= c <= D
    ensures LineCount(D, c) == Pow2(D) - Pow2(D - c + 1) + 1
    decreases c
  {
    if c > 1 {
      LineCountClosedForm(D, c - 1);
      var m := D - c + 1;
      assert D - (c - 1) + 1 == m + 1 && D - (c - 1) == m;
      Pow2Succ(m);
    }
  }

  /** The columns of the two children of entry p of level c on the label
      line below it, computed from that line's indent and gaps. */
  lemma ChildCols(D: nat, c: nat, p: nat, o: nat)
    requires 1 <= c < D
    ensures BoxCol(D, c + 1, 2 * p) + o == 2 * BranchLen(D, c + 1) + (p * (6 + 2 * Gap(D, c)) + o)
    ensures BoxCol(D, c + 1, 2 * p + 1) + o == 2 * BranchLen(D, c + 1) + (p * (6 + 2 * Gap(D, c)) + (3 + Gap(D, c) + o))
  {
    LabelPitch(D, c);
    var w' := Pitch(D, c + 1);
    assert (2 * p) * w' == p * (2 * w');
    assert (2 * p + 1) * w' == p * (2 * w') + w';
  }

  /** The column where entry q's cell starts on branch line k of the block
      below level c is k columns left of where its box starts. */
  lemma CellCol(D: nat, c: nat, q: nat, k: nat)
    requires 1 <= c < D && q < Pow2(c - 1) && k < BranchLen(D, c)
    ensures BoxCol(D, c, q) - k
         == (2 * BranchLen(D, c) - k) + (q * (2 + Intra(k) + GapAfter(EntryGap(D, c), k)) + 0)
    ensures BoxCol(D, c, q) + 2 + k
         == (2 * BranchLen(D, c) - k) + (q * (2 + Intra(k) + GapAfter(EntryGap(D, c), k)) + (1 + Intra(k)))
  {
    if c == 1 {
      assert q == 0;
    } else {
      BranchPitch(D, c, k);
    }
  }
}

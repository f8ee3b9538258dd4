/** Level materialisation: the breadth-first expansion of the tree into a
    flat vector of (node-or-absent, depth) entries, every level padded to a
    power of two so that entry k of a level has its children at 2k and 2k+1
    of the next level. */
module Levels {
  import opened BTNodes
  import opened Spacing

  /** Level d of the tree (root at depth 1), padded to 2^(d-1) entries: the
      levels of the two subtrees side by side, absent placeholders below an
      absent node. */
  function Level(t: Tree, d: nat): (r: seq<Tree>)
    requires d >= 1
    ensures |r| == Pow2(d - 1)
  {
    if d == 1 then [t] else Level(LeftOf(t), d - 1) + Level(RightOf(t), d - 1)
  }

  /** The two entries a level entry contributes to the next level: a present
      node's child links, or two absent placeholders. */
  function Kids(t: Tree): (r: seq<Tree>)
    ensures r == [LeftOf(t), RightOf(t)]
  {
    if t.Nil? then [Nil, Nil] else [t.left, t.right]
  }

  /** One round of the breadth-first walk: the kids of every entry, in order,
      so that entry i of the result is the left (i even) or right (i odd)
      kid of entry i / 2. */
  function Expand(s: seq<Tree>): (r: seq<Tree>)
    ensures |r| == 2 * |s|
  {
    seq(2 * |s|, i requires 0 <= i < 2 * |s| => if i % 2 == 0 then LeftOf(s[i / 2]) else RightOf(s[i / 2]))
  }

  predicate AllNil(s: seq<Tree>)
  {
    forall k :: 0 <= k < |s| ==> s[k].Nil?
  }

  /** Some entry of the sequence is a present node with a present child. */
  predicate AnyChild(s: seq<Tree>)
  {
    exists k :: 0 <= k < |s| && HasChild(s[k])
  }

  /** One entry of the materialised vector: a node (or absent) and its depth. */
  datatype Entry = Entry(node: Tree, depth: nat)

  /** The entries of one level, tagged with its depth. */
  function Tag(s: seq<Tree>, d: nat): (r: seq<Entry>)
    ensures |r| == |s|
  {
    seq(|s|, k requires 0 <= k < |s| => Entry(s[k], d))
  }

  /** The materialised vector holding levels 1 .. n in order. */
  function Flat(t: Tree, n: nat): (r: seq<Entry>)
    ensures |r| == Pow2(n) - 1
  {
    if n == 0 then [] else Flat(t, n - 1) + Tag(Level(t, n), n)
  }

  lemma AllNilAppend(a: seq<Tree>, b: seq<Tree>)
    ensures AllNil(a + b) <==> AllNil(a) && AllNil(b)
  {
    if AllNil(a + b) {
      forall k | 0 <= k < |a| ensures a[k].Nil? {
        assert (a + b)[k] == a[k];
      }
      forall k | 0 <= k < |b| ensures b[k].Nil? {
        assert (a + b)[|a| + k] == b[k];
      }
    }
  }

  lemma ExpandAppend(a: seq<Tree>, b: seq<Tree>)
    ensures Expand(a + b) == Expand(a) + Expand(b)
  {
    var e, ea, eb := Expand(a + b), Expand(a), Expand(b);
    forall i | 0 <= i < |e| ensures e[i] == (ea + eb)[i] {
      if i < 2 * |a| {
        assert (a + b)[i / 2] == a[i / 2];
      } else {
        var j := i - 2 * |a|;
        assert j / 2 == i / 2 - |a| && j % 2 == i % 2;
        assert (a + b)[i / 2] == b[j / 2];
      }
    }
  }

  lemma ExpandSnoc(s: seq<Tree>, m: nat)
    requires m < |s|
    ensures Expand(s[..m + 1]) == Expand(s[..m]) + Kids(s[m])
  {
    assert s[..m + 1] == s[..m] + [s[m]];
    ExpandAppend(s[..m], [s[m]]);
    assert Expand([s[m]]) == Kids(s[m]);
  }

  lemma ExpandSingle(t: Tree)
    ensures Expand([t]) == Level(t, 2)
  {
    assert Level(t, 2) == [LeftOf(t)] + [RightOf(t)];
  }

  /** The breadth-first round turns each padded level into the next one. */
  lemma {:induction false} LevelExpand(t: Tree, d: nat)
    requires d >= 1
    ensures Expand(Level(t, d)) == Level(t, d + 1)
    decreases d
  {
    if d == 1 {
      ExpandSingle(t);
    } else {
      var l, r := LeftOf(t), RightOf(t);
      LevelExpand(l, d - 1);
      LevelExpand(r, d - 1);
      var a, b := Level(l, d - 1), Level(r, d - 1);
      calc {
        Expand(Level(t, d));
        Expand(a + b);
        { ExpandAppend(a, b); }
        Expand(a) + Expand(b);
        Level(t, d + 1);
      }
    }
  }

  /** Heap order: entry k of level d has its children at 2k and 2k+1 of
      level d+1, and an absent entry has two absent children. */
  lemma LevelHeapOrder(t: Tree, d: nat, k: nat)
    requires d >= 1 && k < Pow2(d - 1)
    ensures Level(t, d + 1)[2 * k] == LeftOf(Level(t, d)[k])
    ensures Level(t, d + 1)[2 * k + 1] == RightOf(Level(t, d)[k])
  {
    LevelExpand(t, d);
    var e := Expand(Level(t, d));
    assert e[2 * k] == LeftOf(Level(t, d)[(2 * k) / 2]);
    assert e[2 * k + 1] == RightOf(Level(t, d)[(2 * k + 1) / 2]);
  }

  /** A level holds a present node exactly down to the tree height. */
  lemma {:induction false} LevelPresent(t: Tree, d: nat)
    requires d >= 1
    ensures !AllNil(Level(t, d)) <==> d <= Height(t)
    decreases d
  {
    if d == 1 {
      assert Level(t, 1)[0] == t;
    } else {
      var l, r := LeftOf(t), RightOf(t);
      LevelPresent(l, d - 1);
      LevelPresent(r, d - 1);
      AllNilAppend(Level(l, d - 1), Level(r, d - 1));
    }
  }

  /** Expanding a level adds a present entry exactly when some entry has a
      present child. */
  lemma AnyChildExpand(s: seq<Tree>)
    ensures AnyChild(s) <==> !AllNil(Expand(s))
  {
    var e := Expand(s);
    if AnyChild(s) {
      var k :| 0 <= k < |s| && HasChild(s[k]);
      assert e[2 * k].Node? || e[2 * k + 1].Node? by {
        assert e[2 * k] == LeftOf(s[(2 * k) / 2]);
        assert e[2 * k + 1] == RightOf(s[(2 * k + 1) / 2]);
      }
    }
    if !AllNil(e) {
      var i :| 0 <= i < |e| && e[i].Node?;
      assert HasChild(s[i / 2]);
    }
  }

  lemma AnyChildSnoc(s: seq<Tree>, m: nat)
    requires m < |s|
    ensures AnyChild(s[..m + 1]) <==> AnyChild(s[..m]) || HasChild(s[m])
  {
    var p, q := s[..m], s[..m + 1];
    if AnyChild(q) && !HasChild(s[m]) {
      var k :| 0 <= k < |q| && HasChild(q[k]);
      assert k < m && p[k] == q[k];
    }
    if AnyChild(p) {
      var k :| 0 <= k < |p| && HasChild(p[k]);
      assert q[k] == p[k];
    }
    if HasChild(s[m]) {
      assert q[m] == s[m];
    }
  }

  lemma TagAppend(a: seq<Tree>, b: seq<Tree>, d: nat)
    ensures Tag(a + b, d) == Tag(a, d) + Tag(b, d)
  {
    var x, y := Tag(a + b, d), Tag(a, d) + Tag(b, d);
    forall k | 0 <= k < |x| ensures x[k] == y[k] {
      if k >= |a| {
        assert (a + b)[k] == b[k - |a|];
      }
    }
  }

  /** Levels 1 .. e are a prefix of levels 1 .. n. */
  lemma {:induction false} FlatPrefix(t: Tree, e: nat, n: nat)
    requires e <= n
    ensures Flat(t, e) <= Flat(t, n)
    decreases n
  {
    if e < n {
      FlatPrefix(t, e, n - 1);
      var a := Flat(t, n - 1);
      assert Flat(t, n) == a + Tag(Level(t, n), n);
      assert a <= Flat(t, n);
    }
  }

  /** The deepest level of the vector occupies its tail. */
  lemma FlatLast(t: Tree, n: nat, k: nat)
    requires n >= 1 && k < Pow2(n - 1)
    ensures Flat(t, n)[Pow2(n - 1) - 1 + k] == Entry(Level(t, n)[k], n)
  {
    var a := Flat(t, n - 1);
    var x := Tag(Level(t, n), n);
    assert Flat(t, n) == a + x;
    assert (a + x)[|a| + k] == x[k];
  }

  /** Level e sits at indices 2^(e-1)-1 .. 2^e-2 of the vector, tagged with depth e. */
  lemma FlatLevel(t: Tree, e: nat, n: nat, k: nat)
    requires 1 <= e <= n && k < Pow2(e - 1)
    ensures Pow2(e) - 1 <= |Flat(t, n)| && Flat(t, n)[Pow2(e - 1) - 1 + k] == Entry(Level(t, e)[k], e)
  {
    FlatPrefix(t, e, n);
    FlatLast(t, e, k);
  }

  /** The level below the height, kept at the end of the vector, is all absent. */
  lemma FlatTailAbsent(t: Tree, n: nat)
    requires n >= 1 && Height(t) < n
    ensures forall j :: Pow2(n - 1) - 1 <= j < |Flat(t, n)| ==> Flat(t, n)[j] == Entry(Nil, n)
  {
    LevelPresent(t, n);
    forall j | Pow2(n - 1) - 1 <= j < |Flat(t, n)| ensures Flat(t, n)[j] == Entry(Nil, n) {
      var k := j - (Pow2(n - 1) - 1);
      FlatLast(t, n, k);
      assert Level(t, n)[k].Nil?;
    }
  }

  /** Heap order over the whole vector: the entry at index p, on a level
      above the last, has its children at indices 2p+1 and 2p+2, one level
      deeper; an absent entry has two absent children. */
  lemma FlatHeapOrder(t: Tree, n: nat, e: nat, p: nat)
    requires 1 <= e < n && Pow2(e - 1) - 1 <= p < Pow2(e) - 1
    ensures 2 * p + 2 < |Flat(t, n)|
    ensures Flat(t, n)[p].depth == e
    ensures Flat(t, n)[2 * p + 1] == Entry(LeftOf(Flat(t, n)[p].node), e + 1)
    ensures Flat(t, n)[2 * p + 2] == Entry(RightOf(Flat(t, n)[p].node), e + 1)
  {
    var k := p - (Pow2(e - 1) - 1);
    assert Pow2(e) == 2 * Pow2(e - 1);
    FlatLevel(t, e, n, k);
    FlatChildren(t, n, e, k);
    LevelHeapOrder(t, e, k);
  }

  /** The two entries of level e + 1 below entry k of level e, in the vector. */
  lemma FlatChildren(t: Tree, n: nat, e: nat, k: nat)
    requires 1 <= e < n && k < Pow2(e - 1)
    ensures Pow2(e) + 2 * k < |Flat(t, n)|
    ensures Flat(t, n)[Pow2(e) - 1 + 2 * k] == Entry(Level(t, e + 1)[2 * k], e + 1)
    ensures Flat(t, n)[Pow2(e) - 1 + (2 * k + 1)] == Entry(Level(t, e + 1)[2 * k + 1], e + 1)
  {
    var f := e + 1;
    assert Pow2(e) == 2 * Pow2(e - 1);
    FlatLevel(t, f, n, 2 * k);
    FlatLevel(t, f, n, 2 * k + 1);
    assert f - 1 == e;
  }

  /** The part x of a prefix y == a + x of w sits in w right after a. */
  lemma SliceOfStep<T>(w: seq<T>, y: seq<T>, a: seq<T>, x: seq<T>, i: nat, j: nat)
    requires y == a + x && y <= w && i == |a| && j == |y|
    ensures j <= |w| && w[i..j] == x
  {
    assert w[..j] == y;
    assert y[i..] == x;
  }

  /** Level c occupies one contiguous slice of the vector, each entry tagged
      with depth c, and the entry just past it (the first of level c+1,
      present in the vector) carries another depth. */
  lemma FlatSpan(t: Tree, n: nat, c: nat)
    requires 1 <= c < n
    ensures Pow2(c) - 1 == Pow2(c - 1) - 1 + |Level(t, c)| && Pow2(c) - 1 < |Flat(t, n)|
    ensures Flat(t, n)[Pow2(c - 1) - 1 .. Pow2(c) - 1] == Tag(Level(t, c), c)
    ensures Flat(t, n)[Pow2(c) - 1].depth != c
  {
    FlatSlice(t, n, c);
    FlatDepth(t, n, c + 1, Pow2(c) - 1);
  }

  lemma FlatSlice(t: Tree, n: nat, c: nat)
    requires 1 <= c <= n
    ensures Pow2(c) - 1 <= |Flat(t, n)|
    ensures Flat(t, n)[Pow2(c - 1) - 1 .. Pow2(c) - 1] == Tag(Level(t, c), c)
  {
    FlatPrefix(t, c, n);
    SliceOfStep(Flat(t, n), Flat(t, c), Flat(t, c - 1), Tag(Level(t, c), c), Pow2(c - 1) - 1, Pow2(c) - 1);
  }

  /** The first entry of level e carries depth e. */
  lemma FlatDepth(t: Tree, n: nat, e: nat, i: nat)
    requires 1 <= e <= n && i == Pow2(e - 1) - 1
    ensures i < |Flat(t, n)| && Flat(t, n)[i].depth == e
  {
    FlatLevel(t, e, n, 0);
  }

  /** One parent's kids pushed onto the vector extend the expansion of the
      parents before it. */
  lemma PushKids(done: seq<Entry>, parents: seq<Tree>, m: nat, d: nat)
    requires m < |parents|
    ensures done + Tag(Expand(parents[..m]), d) + Tag(Kids(parents[m]), d)
         == done + Tag(Expand(parents[..m + 1]), d)
    ensures AnyChild(parents[..m + 1]) <==> AnyChild(parents[..m]) || HasChild(parents[m])
  {
    ExpandSnoc(parents, m);
    TagAppend(Expand(parents[..m]), Kids(parents[m]), d);
    AnyChildSnoc(parents, m);
  }

  /** One round applied to the vector of levels 1 .. n yields levels
      1 .. n+1, and the round adds a present node exactly when level n+1
      is within the tree height. */
  lemma FlatGrow(t: Tree, n: nat)
    requires n >= 1
    ensures Flat(t, n) + Tag(Expand(Level(t, n)), n + 1) == Flat(t, n + 1)
    ensures AnyChild(Level(t, n)) <==> n + 1 <= Height(t)
  {
    LevelExpand(t, n);
    AnyChildExpand(Level(t, n));
    LevelPresent(t, n + 1);
  }

  /** btPrettyPrint.cpp lines 121-132, one round of the expansion: walking the
      parent entries from index i0, push each parent's two children at the new
      depth (two absent entries for an absent parent), noting whether any
      parent has a present child. */
  method PushChildren(v0: seq<Entry>, i0: nat, maxNodes: nat, depth: nat,
                      ghost pre: seq<Entry>, ghost parents: seq<Tree>, ghost pd: nat)
    returns (v: seq<Entry>, i: nat, lvlNotEmpty: bool)
    requires v0 == pre + Tag(parents, pd) && i0 == |pre|
    requires maxNodes == 2 * |parents|
    ensures v == v0 + Tag(Expand(parents), depth)
    ensures i == i0 + |parents|
    ensures lvlNotEmpty == AnyChild(parents)
  {
    v, i, lvlNotEmpty := v0, i0, false;
    ghost var m := 0;  // parents visited so far, j / 2
    var j := 0;
    while j < maxNodes
      invariant j == 2 * m && m <= |parents|
      invariant i == i0 + m
      invariant v == v0 + Tag(Expand(parents[..m]), depth)
      invariant lvlNotEmpty == AnyChild(parents[..m])
    {
      assert v[i] == Tag(parents, pd)[m];
      var kids: seq<Tree>;
      if v[i].node != Nil {
        if v[i].node.left != Nil || v[i].node.right != Nil {
          lvlNotEmpty := true;
        }
        kids := [v[i].node.left, v[i].node.right];
      } else {
        kids := [Nil, Nil];
      }
      assert kids == Kids(parents[m]);
      PushKids(v0, parents, m, depth);
      v := v + Tag(kids, depth);
      i := i + 1;
      j := j + 2;
      m := m + 1;
    }
    assert parents[..m] == parents;
  }

  /** btPrettyPrint.cpp lines 109-134: push the root at depth 1, then expand
      one level per round until a round adds no present node; that all-absent
      level stays in the vector and the depth falls back to the tree height.
      */
  method Materialize(root: Tree) returns (v: seq<Entry>, maxDepth: nat)
    requires root.Node?
    ensures maxDepth == Height(root)
    ensures v == Flat(root, maxDepth + 1)
    ensures |v| == Pow2(maxDepth + 1) - 1
  {
    var depth: nat := 1;
    v := [Entry(root, depth)];
    assert v == Flat(root, 1) by {
      assert Flat(root, 0) == [];
      assert Level(root, 1) == [root];
    }
    LevelPresent(root, 1);
    var i := 0;
    while true
      invariant 1 <= depth <= Height(root)
      invariant v == Flat(root, depth)
      invariant i == Pow2(depth - 1) - 1
      decreases Height(root) - depth
    {
      ghost var parents := Level(root, depth);
      ghost var pre := Flat(root, depth - 1);
      FlatGrow(root, depth);
      ghost var d := depth;
      ghost var next := Flat(root, d + 1);
      var lvlNotEmpty;
      depth := depth + 1;
      var maxNodes := Pow2(depth - 1);
      v, i, lvlNotEmpty := PushChildren(v, i, maxNodes, depth, pre, parents, d);
      assert v == next;
      if !lvlNotEmpty {
        depth := depth - 1;
        assert depth == d;
        break;
      }
    }
    maxDepth := depth;
  }
}

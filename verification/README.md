# bt-printer, modelled in Dafny

bt-printer draws a binary tree as ASCII art. `printBT` works in three steps:

1. It walks the tree breadth first into a vector of (node-or-null, depth) entries. Every level is padded to 2^(d-1) entries.
2. It works out, for every depth, the branch length, the indent and the gaps.
3. It prints a root line. Then, below each level above the last, it prints a block: `branchLen` lines of `/` and `\` and one line with the boxes `(x)` of the next level.

The model keeps the imperative shape of btPrettyPrint.cpp:
- `Materialize` and `PushChildren` grow the entry vector with the source's loops.
- `PrintBranches`, `BranchLine` and `PrintNodes` build each output line cell by cell, with the gaps the source updates.
- `NextLevel` and `RefillLevel` empty and refill the level buffer from an iterator position.
- `PrintBT` threads the gap returned by `PrintBranches` from one block to the next.

Output is a `seq<string>` of lines. Each line is a string without its line break.

Every method is proved against an independent specification:
- `Flat(t, n)` holds levels 1 .. n of the tree. `Level(t, d)` is level d, defined recursively on the tree.
- `Render(root)` is the picture, stated from the levels and the closed forms of the spacing. The branch length below depth c is 2^(D-c) - 1. The label gap is 2^(D-c+1) - 3.

`PrintBT` is proved to return exactly `Render(root)`. The lemmas about `Levels`, `Spacing`, `Rows` and `Layout` then say what that picture is:
- heap order of the vector;
- the stopping depth of the walk;
- the closed form of the threaded gap, which is never negative;
- line counts and line lengths;
- the column of every slash, backslash and box, and that each slash meets the box of the child it leads to;
- the example picture in the header's documentation.

Files and modules:

| file | module | contents |
|---|---|---|
| bt_node.dfy | `BTNodes` | the node (`BTNode`), tree height |
| spacing.dfy | `Spacing` | powers of two, branch length, gap arithmetic and its closed forms, box columns |
| levels.dfy | `Levels` | padded levels, the entry vector (`BTNodeDepth`), the materialisation loop |
| rows.dfy | `Rows` | the cells and lines, `printBranches`, `printNodes`, `printRoot` |
| layout.dfy | `Layout` | the whole picture, the print loop, `printBT` |
| samples.dfy | `Samples` | the header's example tree and its picture, the demo tree |

## Model

| member | source | states |
|---|---|---|
| BTNodes.MakeNode | btPrettyPrint.h:27-28 | The constructor yields a present node holding exactly the given value and the given left and right links. |
| BTNodes.LeafByDefault | btPrettyPrint.h:27-28 | A node built from a value alone has two absent children, no child at all, and height 1. |
| BTNodes.ChildrenIndependent | btPrettyPrint.h:19-20 | A present left child with an absent right one, and the reverse, are both constructible. |
| BTNodes.Height | btPrettyPrint.cpp:107-134 | The depth the printer stops at: at least 1 exactly for a present root, 0 for the empty tree. |
| Spacing.BranchLen | btPrettyPrint.cpp:139-149 | 2^(D-c) - 1 branch rows are drawn below depth c; there is at least one exactly when c is above the last level. |
| Spacing.GapAfterStep | btPrettyPrint.cpp:62-64 | Each branch row applies the guarded decrement: the inter gap drops by 2 only while it is positive. |
| Spacing.Gap | btPrettyPrint.cpp:67-69 | The closed-form label gap 2^(D-c+1) - 3 is odd and at least 1. |
| Spacing.EntryGap | btPrettyPrint.cpp:138-150 | The gap entering a block is 0 for the first block and the previous label gap after that. It is even or outlasts the block's rows, so no row gets a negative gap. |
| Spacing.BlockGap | btPrettyPrint.cpp:64-69 | The value `printBranches` returns from the closed-form entry gap is the closed-form label gap, which is the next block's entry gap. |
| Spacing.ThreadedClosedForm | btPrettyPrint.cpp:138-150 | The gap threaded from 0 through every block equals 2^(D-c+1) - 3, so it is never negative. |
| Spacing.BranchPitch | btPrettyPrint.cpp:45-64 | Below the first block, every branch row has the pitch of its level: the intra gap grows by 2 as the inter gap shrinks by 2. |
| Spacing.LabelPitch | btPrettyPrint.cpp:76-92 | A label row's entries are one pitch of the level above apart, twice the pitch of their own level, and a box plus the gap spans one pitch. |
| Spacing.BranchMeetsChildren | btPrettyPrint.cpp:17-31 | The last slash of an entry stands over the closing parenthesis of its left child's box; the last backslash stands over the opening parenthesis of its right child's box. |
| Spacing.LineCountClosedForm | btPrettyPrint.cpp:143-161 | After the labels of level c, 2^D - 2^(D-c+1) + 1 lines have been printed. |
| Levels.Level | btPrettyPrint.cpp:120-131 | Level d holds exactly 2^(d-1) entries, absent placeholders included. |
| Levels.Flat | btPrettyPrint.cpp:113-131 | The vector of levels 1 .. n holds exactly 2^n - 1 entries. |
| Levels.LevelExpand | btPrettyPrint.cpp:121-132 | One expansion round (each entry's two kids, in order) turns level d into level d+1. |
| Levels.LevelHeapOrder | btPrettyPrint.cpp:121-131 | Entry k of level d has its children at entries 2k and 2k+1 of level d+1. An absent entry has two absent children. |
| Levels.LevelPresent | btPrettyPrint.cpp:116-134 | A level holds a present node exactly when its depth is at most the tree height. |
| Levels.AnyChildExpand | btPrettyPrint.cpp:122-124 | A round raises the flag exactly when the next level contains a present node. |
| Levels.FlatLevel | btPrettyPrint.cpp:113-131 | Level e sits at indices 2^(e-1)-1 .. 2^e-2 of the vector, tagged with depth e. |
| Levels.FlatHeapOrder | btPrettyPrint.cpp:115-131 | The entry at index p has its children at indices 2p+1 and 2p+2, one level deeper. An absent parent has two absent children. |
| Levels.FlatTailAbsent | btPrettyPrint.cpp:133 | The level below the height, kept at the end of the vector, is all absent. |
| Levels.FlatSpan | btPrettyPrint.cpp:158-161 | Each level is one contiguous run of its depth in the vector, followed by an entry of another depth, so the refill loop stops inside the vector. |
| Levels.FlatGrow | btPrettyPrint.cpp:116-133 | One round appends the next level to the vector, and raises the flag exactly when that level is within the height. |
| Levels.PushChildren | btPrettyPrint.cpp:121-132 | The round pushes the kids of every parent, advances the parent index past the level, and sets the flag exactly when some parent has a present child. |
| Levels.Materialize | btPrettyPrint.cpp:109-134 | The loop stops with depth equal to the tree height. The vector holds levels 1 .. height+1, 2^(height+1) - 1 entries, the all-absent last level included. |
| Rows.Box | btPrettyPrint.cpp:80-88 | A box is always three columns wide, present or not. |
| Rows.BranchCell | btPrettyPrint.cpp:50-57 | Every buffer entry, present or absent, occupies 1 + intra + 1 + inter columns of a branch row. |
| Rows.BranchCellAt | btPrettyPrint.cpp:50-57 | Within a cell, '/' appears at column 0 exactly when the left child is present, and '\' at column 1 + intra exactly when the right child is present. Every other column is blank, and so is the whole cell of an absent entry. |
| Rows.BranchRowLength | btPrettyPrint.cpp:48-58 | A branch row is its indent plus one full cell per entry; the trailing gap is kept. |
| Rows.BranchRowAt | btPrettyPrint.cpp:48-58 | Column by column: the indent is blank; entry p's '/' and '\' stand at its cell's columns 0 and 1 + intra exactly when the children are present; everything else is blank. |
| Rows.BranchRows | btPrettyPrint.cpp:47-65 | A block of n branch rows has exactly n lines. |
| Rows.BranchRowsAt | btPrettyPrint.cpp:47-65 | Row k of a block has indent indent0 - k, intra gap 1 + 2k and the inter gap after k guarded decrements, which stays non-negative. |
| Rows.LabelCell | btPrettyPrint.cpp:77-91 | An entry occupies 3 + inter + 3 + trail columns of a label row, present or absent. |
| Rows.LabelCellAt | btPrettyPrint.cpp:80-88 | A label cell shows the left child's box in its first three columns and the right child's box after the inter gap (blanks when absent). |
| Rows.LabelRowLength | btPrettyPrint.cpp:90-91 | A label row ends right after the last entry's right box: its trailing gap is dropped. |
| Rows.LabelRowAt | btPrettyPrint.cpp:75-92 | Column by column: the indent is blank, and entry p's two child boxes stand at indent + p(6 + 2 inter) and 3 + inter columns further on. |
| Rows.BranchEntry | btPrettyPrint.cpp:50-57 | The two branches of the inner loop body build exactly the entry's cell: `/` or blank, the intra gap, `\` or blank, the inter gap, and all blanks for an absent entry. |
| Rows.LabelRowBlank | btPrettyPrint.cpp:75-92 | The inter gap between an entry's two boxes is blank, and so is the inter gap between an entry and the next one, for present and absent entries alike. |
| Rows.BranchLine | btPrettyPrint.cpp:48-58 | The inner loop builds exactly the branch row of the buffer for the given indent and gaps. |
| Rows.PrintBranches | btPrettyPrint.cpp:42-70 | Emits exactly branchLen lines (none when branchLen <= 0), the block of branch rows, and returns intra - 2 when the inter gap reached 0, otherwise inter - 2. |
| Rows.PrintNodes | btPrettyPrint.cpp:72-94 | Builds exactly the label row: per entry the child boxes around the inter gap, then the gap, forced to 0 after the last entry. |
| Rows.PrintRoot | btPrettyPrint.cpp:96-102 | The root line is indent blanks followed by `(` value `)`. |
| Layout.Block | btPrettyPrint.cpp:149-154 | The block below a level has its branch lines plus one label line. |
| Layout.RenderUpTo | btPrettyPrint.cpp:143-161 | The lines printed up to the labels of level c number LineCount(D, c). |
| Layout.RenderLength | btPrettyPrint.cpp:139-161 | The picture of a tree of height D has 2^D - 1 lines: one root line, and for each c in 1 .. D-1, 2^(D-c) - 1 branch lines and one label line. The empty tree has none. |
| Layout.RenderUpToPrefix | btPrettyPrint.cpp:146-161 | Printing more levels only appends lines. |
| Layout.RenderPrefix | btPrettyPrint.cpp:146-161 | The lines printed up to any level open the final picture. |
| Layout.RenderBlock | btPrettyPrint.cpp:146-161 | The block below level c - 1 occupies lines LineCount(D, c-1) .. LineCount(D, c) of the picture. |
| Layout.RenderFirstLine | btPrettyPrint.cpp:139-144 | An empty tree prints nothing. Otherwise the first line is the root line: the root's box `(` value `)` after 2^D - 2 blanks, that is twice the first branch length, for a tree of height D. |
| Layout.LeafPicture | btPrettyPrint.cpp:139-146 | A childless node prints its box `(` value `)` as the only line, unindented: the loop over depths never runs. |
| Layout.LabelLineBoxes | btPrettyPrint.cpp:72-94 | On the label line below level c, entry p's left and right child boxes stand at the box columns of entries 2p and 2p+1 of level c+1. |
| Layout.BranchDiagonal | btPrettyPrint.cpp:42-70 | On branch line k below level c, entry q's slash stands k columns left of its box exactly when the left child is present, and its backslash k columns right of the box exactly when the right child is present. |
| Layout.RefillLevel | btPrettyPrint.cpp:158-161 | The refill loop copies exactly the run of entries of the current depth into the buffer and stops just past it. |
| Layout.NextLevel | btPrettyPrint.cpp:157-161 | After emptying and refilling, the buffer holds exactly the level at the new depth, and the iterator sits at the start of the next level. |
| Layout.PrintLevel | btPrettyPrint.cpp:148-154 | One pass prints exactly the level's block and hands on the closed-form label gap. |
| Layout.PrintLevels | btPrettyPrint.cpp:137-162 | Starting from the root line, with gap 0 and the root level in the buffer, the loop prints every block down to the last level. |
| Layout.PrintBT | btPrettyPrint.cpp:104-163 | An empty tree prints nothing; otherwise the output is exactly the picture `Render(root)`. |
| Samples.Demo | btPrettyPrint.cpp:167-208 | The demo tree A(B(D(H,I),E),C(F(L,-),G)) has height 4, so the printer stops at depth 4. |
| Samples.PictureRows | btPrettyPrint.h:36-42 | Any tree of height 3 prints seven lines: the root line; three branch lines at indents 6, 5 and 4 with intra gaps 1, 3 and 5 and inter gap 0; the label line at indent 2 with gap 5; one branch line at indent 2 with gaps 1 and 5; the label line at indent 0 with gap 1. |
| Samples.PerfectPicture | btPrettyPrint.h:36-42 | The perfect tree A(B(D,E),C(F,G)) prints exactly the seven lines of the header's example. |

## Left out

- Console output: `cout` and `endl` become returned strings and a sequence of lines. Line breaks are not part of the strings.
- `pow(2, …)` on doubles becomes the integer `Pow2`. The floating-point computation and its conversion back to `int` are not modelled.
- 32-bit `int` overflow is not modelled. Depths, gaps and vector sizes are unbounded integers. Overflow would need a tree over 30 levels tall, whose padded vector could not be allocated anyway.
- Template genericity and `operator<<` on arbitrary `Comparable` data are not modelled. A label is one `char`, which fits the three-column box the layout assumes.
- Raw `BTNode*` links, node ownership and lifetime are not modelled. The tree is an inductive value, so shared or cyclic nodes cannot be expressed.
- The unused `interSpacing` parameter of `printRoot` is dropped.
- The commented-out `main` is not modelled as a program. Only its tree's height is stated (`Samples.Demo`).
- The header's example shows the second branch row without its trailing blanks. The source keeps the trailing gap on branch rows, so `Samples.PerfectPicture` keeps those five blanks.
- Rows.PrintBranches: requires its caller to keep every indent and gap it prints non-negative: an even gap, or an odd one that outlasts the block. `string(n, ' ')` with a negative n throws `std::length_error`, and that exception is not modelled. `Layout.PrintBT` proves that the gap it threads always meets this.
- Rows.PrintNodes: takes a non-negative indent and gap, for the same reason.
- Rows.PrintRoot: requires a buffer whose first entry is present. The source dereferences `v[0]`, and `printBT` only calls it with the root after its null check.
- Levels.Materialize: requires a present root. `printBT` returns before materialising when the root is null, and `Layout.PrintBT` models that branch.

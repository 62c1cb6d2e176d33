# Merger-tree images: reorder, layout and raster

`vr_trees_to_image` turns the merger trees of a halo catalogue into images. A
tree has one row per snapshot and one column per branch. Each image has three
rasters: halo mass, displacement from the root halo, and halo type.

The forest is a set of flat arrays, one per snapshot. They are addressed by
64-bit halo IDs, encoded as `snapshot * 10^12 + index + 1`. Each tree is
processed in three steps:

1. **Reorder.** `reorder_progenitors` rewrites the tree's first-progenitor
   and sibling links in place, so that the deepest branch is walked first.
2. **Layout.** `place_pixels` runs a depth-first walk that lays every halo
   out as a pixel. The first progenitor keeps its descendant's column, and
   every further sibling gets a fresh column. The rows are then normalised
   to a tight bounding box.
3. **Raster.** The `construct_and_write` step fills each raster with a fill
   value, then scatters the pixels into it.

This project models these steps in Dafny and proves their properties. It
covers three versions:

- the library in `src/lib.rs`: modules `HaloIds`, `Tables`, `SiblingLists`,
  `Pixels` and `Forest`;
- the image generator in `src/bin/gen_tree_images.rs`: module `Raster`;
- the older stand-alone program in `src/main.rs`, with its `pixel_counts`
  test: module `Legacy`.

The forest is a class, `HaloProps`, whose two link tables are fields that
the reorder reassigns. The walk, the lerp, the normalisation and the raster
fill and scatter are loops over sequences and 2-D arrays. Every panic of the
program is an `Err` of a `Result`. For the library, the debug-build checks
are modelled as always on:

- at most 5000 sibling steps per reorder loop;
- reorder depth at most the number of snapshots;
- at most 50000 columns;
- an underflowing `usize` snapshot difference fails.

Some behaviours are surprising. They are modelled as the code has them, and
each one is proved.

- **Promotion splice.** When a sibling is promoted to first progenitor, the
  splice never relinks the promoted sibling's predecessor. Promoting the
  sibling right after the leader only swaps the two. Promoting a later
  sibling drops every sibling in between from the list
  (`SiblingLists.PromoteOnChain`).
- **The lerp adds nothing.** Both call sites pass the descendant first, so
  `lerp` runs over the empty range from the later snapshot to the earlier
  one (`Forest.HaloProps.LerpEdge`). The sibling call site passes the
  descendant's column, not the sibling's.
- **Duplicates are overwritten.** The scatter does not reject two pixels on
  one cell: the later pixel wins (`Raster.CellValueLast`). No two pixels
  share a cell when every progenitor link points to an earlier snapshot.
  This is proved for the layouts of both versions.
- **Sibling lists end in a self-link.** The last sibling of a list links
  to itself, and none links back to the head. In `src/lib.rs` both the
  reorder and the walk also stop at a link back to the descendant
  (`src/lib.rs:89`, `src/lib.rs:221`); `src/main.rs` stops at a self-link
  only (`src/main.rs:89`), so there a link back to the descendant makes the loop
  visit the descendant again, one level deeper. The two versions share one model,
  `Forest.Reorder` and `Forest.Tour`, parameterised by a `Forest.Rules`
  record that holds these differences.
- **Type 0 looks empty in `src/main.rs`.** `src/bin/gen_tree_images.rs`
  fills the type raster with -1, so an empty cell is told apart from a
  halo of either type (`Raster.TypeSentinel`). `src/main.rs` fills it with
  0, so a cell holding a type-0 halo reads exactly as a cell with no
  pixel (`Legacy.TypeZeroLooksEmpty`).

## Model

| member | source | states |
|---|---|---|
| HaloIds.SnapBounds | src/lib.rs:46-49 | the snapshot is the quotient of the ID by 10^12: `snap * 10^12 <= id < (snap + 1) * 10^12` |
| HaloIds.IdToInd | src/lib.rs:51-54 | fails (u64 underflow) exactly when `id mod 10^12 = 0`; otherwise the index plus one is below 10^12 and recombines with the snapshot to the ID |
| HaloIds.IdToSnapInd | src/lib.rs:68-70 | fails exactly when the index fails, and then with `InvalidIdentifier`; otherwise the pair recombines to the ID |
| HaloIds.Recombine | src/lib.rs:68-70 | a decoded pair is the ID's quotient by 10^12 and an index whose successor is below 10^12, and `snap * 10^12 + ind + 1` gives back the ID |
| HaloIds.Encode | src/lib.rs:46-54 | the packing `snap * 10^12 + ind + 1` that the decoders invert never has a zero low part |
| HaloIds.DecodeEncode | src/lib.rs:46-54 | decoding `snap * 10^12 + ind + 1`, when `ind + 1 < 10^12`, gives back `(snap, ind)` |
| HaloIds.EncodeDecode | src/lib.rs:68-70 | every ID that decodes is the packing of the pair it decodes to |
| HaloIds.DecodeInjective | src/lib.rs:68-70 | two valid IDs that decode to the same cell are equal |
| HaloIds.DecodeFailsIffLowZero | src/lib.rs:51-54 | decoding fails with `InvalidIdentifier` if and only if the low part is zero; the codec of `src/main.rs` (lines 55-58) is the same |
| Tables.Lookup | src/lib.rs:76-77 | the double index `table[snap][ind]` succeeds exactly when the ID decodes to a cell inside the arrays, and fails only with `InvalidIdentifier` or `IndexOutOfRange` |
| Tables.Store | src/lib.rs:96-97 | writing through an ID changes that cell only: the shape is kept and every other ID reads as before |
| Tables.LookupCell | src/lib.rs:68-77 | a lookup reads `t[snap][ind]`; it fails with `InvalidIdentifier` on an undecodable ID, else with `IndexOutOfRange` |
| Tables.SameShapeLookup | src/lib.rs:92-97 | arrays of one shape fail on the same IDs, so the reorder's writes never change which IDs can be read |
| SiblingLists.Chain | src/lib.rs:84-93 | the siblings a walk visits from `x`, starting at `x`, every one with a readable link |
| SiblingLists.ChainIsLinked | src/lib.rs:89-93 | a finished walk is a well-formed sibling list: each element links to the next, and only the last one ends the walk |
| SiblingLists.LinkedIsChain | src/lib.rs:89-93 | conversely, the walk from the head of a well-formed list visits exactly that list |
| SiblingLists.Splice | src/lib.rs:96-102 | the promotion rewrite keeps the shape of the link arrays |
| SiblingLists.SpliceLinks | src/lib.rs:96-102 | the splice sets `next[cur] = leader`, and sets `next[leader]` to `cur`'s old successor, or to itself when `cur` was last; every other link is unchanged |
| SiblingLists.SpliceRelinks | src/lib.rs:95-104 | promoting position `j` of a list gives the list `cur, leader, after-cur`; the predecessor of `cur` still links to `cur` |
| SiblingLists.PromoteOnChain | src/lib.rs:95-104 | as seen by the next walk: the sibling set survives (as a multiset) if and only if `cur` directly followed the leader, and the skipped siblings are dropped |
| SiblingLists.PromotedOrder | src/lib.rs:95-104 | moving `s[j]` to the front and cutting `s[1..j]` permutes `s` exactly when `j = 1` |
| Pixels.CellSet | src/main.rs:339-342 | the set of cells the pixels land on: every pixel's cell, and nothing else |
| Pixels.CellCount | src/main.rs:339-346 | the number of marked cells is at most the number of pixels, with equality if and only if no two pixels share a cell |
| Pixels.ColsOf | src/lib.rs:244-250 | the column of every pushed pixel, in push order |
| Pixels.ColsOfConcat | src/lib.rs:211-223 | the columns of two walks appended are the two column lists appended |
| Pixels.DistinctConcat | src/lib.rs:221-238 | two lists of pixels that are each clash-free and share no cell join without a clash |
| Pixels.FirstProgenitorBand | src/lib.rs:210-211 | the first-progenitor subtree stays in its band up to the descendant's row, and its column lies strictly below that row when the progenitor is earlier |
| Pixels.ColumnsConcat | src/lib.rs:221-223 | a sibling subtree walked in the fresh column `max_col + 1` joins the earlier siblings' columns without a clash |
| Pixels.BandJoin | src/lib.rs:210-239 | the first-progenitor subtree and the further siblings (in later columns) join without a clash and stay in the band |
| Pixels.OwnPixelBand | src/lib.rs:244-250 | the halo's own pixel, pushed last, closes the band without a clash when its column is below it |
| Pixels.PixelsOfEach | src/lib.rs:241-250 | the recursive pixel-to-halo relation holds if and only if every pixel has its halo's snapshot, mass, type and displacement |
| Pixels.PixelsOfConcat | src/lib.rs:211-223 | appending the pixels of two walks keeps each pixel matched to its halo |
| Pixels.MinSnap | src/lib.rs:181 | the minimum row: none exactly when there are no pixels; otherwise it is some pixel's row and no row is smaller |
| Pixels.MaxSnap | src/lib.rs:182 | the maximum row: none exactly when there are no pixels; otherwise it is some pixel's row and no row is larger |
| Pixels.MaxCol | src/lib.rs:187 | the maximum column, with the same properties |
| Pixels.ShiftRows | src/lib.rs:184-186 | every pixel's row moves up by `first_snap`; nothing else changes |
| Pixels.ShiftKeepsDistinct | src/lib.rs:184-186 | moving all rows by the same amount keeps a clash-free layout clash-free |
| Pixels.ShiftKeepsCols | src/lib.rs:184-186 | moving the rows leaves every pixel's column as it was |
| Pixels.PixelsOfShift | src/lib.rs:184-186 | after the shift, each pixel is still its halo's pixel, with rows counted from `first_snap` |
| Pixels.ShiftFits | src/lib.rs:181-194 | shifting by the least row gives a box that fits tightly: every pixel is inside; the first row, the last row and the last column are occupied; `n_rows = last - first + 1` |
| Pixels.Normalize | src/lib.rs:181-196 | a non-empty pixel list: `first_snap` and `last_snap` are its least and greatest rows, the pixels are shifted by `first_snap`, and the box fits tightly |
| Pixels.ImageOfNormalized | src/lib.rs:167-196 | normalising a walk that ends with the root's pixel in column 0 gives an image of the tree |
| Pixels.ImageOfWalk | src/lib.rs:167-196 | when no pixel is in a row after the root's, the image also ends at the root's snapshot, with the root in the last row |
| Forest.FirstMaxPush | src/lib.rs:90-105 | one sibling step: the lead changes only on a strictly greater depth, and the lead stays the first sibling of maximal depth |
| Forest.Reorder | src/lib.rs:73-126 | `reorder_progenitors` as a definition on the two link arrays, under the rules of either version. When it goes through: the shapes are kept; the depth lies between `depth` and, where the version checks it, the number of snapshots; `id` could be read; and no halo outside `id` and the halos it reordered has a link changed. No failure is a shape mismatch. |
| Forest.SiblingPass | src/lib.rs:89-117 | the sibling loop run from a loop state to its end, at a self-link or (in `src/lib.rs`) a link back to `id`: the shapes are kept, the depth is at least the running maximum, the set of reordered halos only grows, and other halos' links are kept |
| Forest.SiblingStep | src/lib.rs:90-116 | one turn of the sibling loop: the step count rises by one and the state stays runnable; the shapes and other halos' links are kept; past the cap (5000 in `src/lib.rs`, 1000 in `src/main.rs`) it fails |
| Forest.Turn | src/lib.rs:95-105 | what a turn writes: the shapes are kept, and no first-progenitor link other than `id`'s changes |
| Forest.TurnSlots | src/lib.rs:95-96 | a turn writes the first-progenitor slot of `id` alone: to the promoted sibling when it is strictly deeper than the leader, and not at all otherwise |
| Forest.StepTrace | src/lib.rs:90-105 | a turn extends the trace of siblings and their depths, and the lead stays the first sibling of maximal depth |
| Forest.StepSlot | src/lib.rs:95-96 | after a turn that did not reorder `id` itself, `id`'s first-progenitor slot holds the leader |
| Forest.ReorderUnfolds | src/lib.rs:77-88 | a halo with a progenitor: its reorder is the reorder of its first progenitor one level deeper, then the sibling loop from that progenitor's link, whose result it returns |
| Forest.SiblingPassTrace | src/lib.rs:89-117 | the loop returns the depth of the first strictly deepest sibling, every sibling is deeper than `id`, and the trace extends the one it started from; unless a nested pass reordered `id` through a cycle, that sibling holds `id`'s first-progenitor slot |
| Forest.ReorderPromotes | src/lib.rs:73-126 | a halo with a progenitor: the depth returned is the greatest subtree depth, the first sibling visited is the old first progenitor, every sibling is deeper than `id`, and, unless a cycle led back to `id`, the first strictly deepest sibling is left in `id`'s first-progenitor slot |
| Forest.ReorderLeaf | src/lib.rs:76-78 | a halo whose first-progenitor link is itself returns its depth and leaves both link arrays as they were |
| Forest.StepIsTurn | src/lib.rs:90-116 | a turn whose nested reorder and link read went through ends in the `Turn` state, or in `TooManyProgenitors` past the cap |
| Forest.StepPromotes | src/lib.rs:95-105 | a strictly deeper sibling: `id`'s slot is set to it, the splice is applied with the loop's own stop test (line 98), and it becomes the leader with its depth |
| Forest.StepKeeps | src/lib.rs:95 | a sibling no deeper than the leader: nothing is written, and the leader and its depth stay |
| Forest.PassStops | src/lib.rs:89 | at a self-link or a link back to `id`, the loop ends at once with the running maximum and the links it has |
| Forest.PassFails | src/lib.rs:90-116 | the loop fails with the error of the turn that fails |
| Forest.PassAdvances | src/lib.rs:89-117 | a turn that went through is followed by the rest of the loop from the state it leaves |
| Forest.StepFails | src/lib.rs:90-93 | a turn fails with the nested reorder's error, or else with that of reading the sibling's link |
| Forest.Tour | src/lib.rs:199-251 | the walk's visiting order on the links alone: the first progenitor's subtree in column `col`, each further sibling's subtree in a fresh column, then `id` itself in `col`; it fails where the walk fails on the links, and the column counter never decreases |
| Forest.Above | src/lib.rs:210-239 | the part of the tour above `id`; in `src/lib.rs` it fails with `SnapshotUnderflow` when the first progenitor is later than `id`; the counter never decreases |
| Forest.SiblingTour | src/lib.rs:220-238 | the tour from one sibling link on: nothing at the loop's stop test; otherwise the sibling's subtree in column `max_col + 1`, failing past the column cap or (in `src/lib.rs`) on a sibling later than `id`; the counter never decreases |
| Forest.SiblingTourStep | src/lib.rs:221-232 | one sibling of the tour: its subtree, then the tour from its link |
| Forest.TourCloses | src/lib.rs:207-250 | the tour of `id` is the part above it (nothing for a halo without progenitors), then `id` in column `col` |
| Forest.ResumesTrans | src/lib.rs:221-238 | two stretches of one sibling loop make one stretch, their halos and columns appended |
| Forest.ShiftedVisits | src/lib.rs:184-186 | normalising the rows keeps the tour's columns, and keeps a clash-free layout clash-free |
| Forest.PlacedImage | src/lib.rs:167-197 | a walk from the root in column 0 that follows the tour, once normalised, is the tree's image, with the tour's halos and columns, and clash-free when links point to earlier snapshots |
| Forest.HaloProps.constructor | src/lib.rs:29-35 | the forest holds the five given tables |
| Forest.HaloProps.ReorderProgenitors | src/lib.rs:73-126 | Only the two link arrays change, and their shape is kept. The result and the links left are exactly those of `Forest.Reorder` on the old links, under the `src/lib.rs` rules, error included. `Forest.ReorderPromotes` says what that is: the greatest subtree depth, with the first strictly deepest sibling promoted. |
| Forest.HaloProps.ReorderSiblings | src/lib.rs:89-117 | the loop leaves exactly what `Forest.SiblingPass` from its starting state gives: it stops at a self-link or a link back to `id`, promotes only on a strictly greater depth, and fails after 5000 turns |
| Forest.HaloProps.NextSibling | src/lib.rs:90-105 | one turn ends as `Forest.SiblingStep` says: with its error, or with its links, leader, next link and depth |
| Forest.HaloProps.TakeTurn | src/lib.rs:92-105 | the turn after the nested reorder: reads the sibling's link, then promotes and splices exactly when the sibling is strictly deeper, as `Forest.SiblingStep` says |
| Forest.HaloProps.Lerp | src/lib.rs:128-165 | succeeds exactly when both halos' cells can be read, and appends `LerpPixels`, one pixel per snapshot of `a_snap..b_snap`; it appends nothing when `b_snap <= a_snap`; it fails with `InvalidIdentifier` when an ID does not decode, else with `IndexOutOfRange` |
| Forest.LerpPixels | src/lib.rs:153-164 | one pixel per snapshot of the half-open range, in snapshot order, all in column `col` with `a`'s type |
| Forest.HaloProps.LerpEdge | src/lib.rs:216-229 | at both call sites (the sibling one passes the descendant's column): fails with `SnapshotUnderflow` exactly when the progenitor is later than its descendant; when it succeeds, the pixel list is unchanged, because no interpolated pixel is ever produced |
| Forest.HaloProps.WalkSiblings | src/lib.rs:220-238 | every further sibling's subtree is appended in columns after the counter's old value, with the halos and columns of `Forest.SiblingTour`; the counter never decreases, and sibling subtrees never clash when links point to earlier snapshots |
| Forest.HaloProps.WalkSibling | src/lib.rs:222-237 | one sibling: its subtree in column `max_col + 1`, the counter rising and at most 50000, the sibling no later than `id`, with the halos and columns of `Forest.Tour` |
| Forest.HaloProps.WalkProgenitors | src/lib.rs:210-239 | the progenitors' pixels stay in column `col` or in fresh columns, and in rows up to the descendant's, with the halos and columns of `Forest.Above`; when links point to earlier snapshots, they lie strictly below the descendant in column `col` and do not clash |
| Forest.HaloProps.WalkAndPlacePixels | src/lib.rs:199-251 | Appends one pixel per halo of the subtree, each matched to its halo, in the order and columns of `Forest.Tour`, with `id`'s own pixel last at `(snap(id), col)`. Other pixels lie in columns handed out after `max_col`, and the counter never decreases. When links point to earlier snapshots, no two pixels share a cell. |
| Forest.HaloProps.PlacePixels | src/lib.rs:167-197 | The result is an image of the tree: one pixel per halo, in the order and columns of `Forest.Tour`, with the root last in column 0 and in the last row. `last_snap` is the root's snapshot, and the box fits tightly. When links point to earlier snapshots, no two pixels share a cell. No failure is a shape mismatch. |
| Raster.CellValueUntouched | src/bin/gen_tree_images.rs:94-97 | a cell no pixel lands on keeps the fill value |
| Raster.CellValueHit | src/bin/gen_tree_images.rs:95-97 | a cell some pixel lands on holds the value of one of the pixels on that cell |
| Raster.CellValueLast | src/bin/gen_tree_images.rs:95-97 | duplicates are overwritten, not rejected: a cell holds the value of the last pixel on it in list order |
| Raster.CellValueDistinct | src/bin/gen_tree_images.rs:95-97 | with no clashes, every pixel's own value is in its cell |
| Raster.PixelTypesAreFlags | src/lib.rs:269-274 | a pixel read from a forest whose types are the 0/1 host flag has type 0 or 1 |
| Raster.TypeSentinel | src/bin/gen_tree_images.rs:118-119 | with types 0 or 1, the type raster holds -1 in a cell if and only if no pixel lands on it |
| Raster.Fill | src/bin/gen_tree_images.rs:94 | every cell of the array holds the fill value |
| Raster.Scatter | src/bin/gen_tree_images.rs:95-97 | succeeds exactly when every pixel is inside the array; then each cell holds its last pixel's value, or what it held before |
| Raster.ConstructAndWrite | src/bin/gen_tree_images.rs:92-104 | succeeds exactly when every pixel is inside the array; then each cell holds its last pixel's value or the fill, whatever it held before |
| Raster.Contents | src/bin/gen_tree_images.rs:98-102 | the data written is the array's cells, row by row |
| Raster.Render | src/bin/gen_tree_images.rs:112-119 | The three rasters have the layout's `n_rows x n_cols` shape. Mass and displacement are filled with 0, and the reused array carries no mass into the displacement raster. Type is filled with the given value. The call succeeds exactly when every pixel is inside the box. |
| Raster.SnapshotFitsU32 | src/bin/gen_tree_images.rs:83-90 | every snapshot an ID can carry is below 2^32, so the `u32` attribute conversion never fails |
| Raster.ProcessTarget | src/bin/gen_tree_images.rs:76-120 | The reorder goes through as `Forest.Reorder` says, and the layout is laid out on the links it leaves: the tree's image, in the tour's order, clash-free when links point to earlier snapshots. The rasters are scattered from it with fill 0, 0 and -1, and the scatter never fails. `last_snap` fits a `u32`, the link arrays keep their shape, and no failure is a shape mismatch. |
| Raster.EmptyCellsMarked | src/bin/gen_tree_images.rs:118-119 | in a rendered image of a forest of 0/1 types, the type raster holds -1 exactly in the cells without a pixel |
| Raster.GenTreeImages | src/bin/gen_tree_images.rs:72-120 | one rendered image per target ID, in order, each made as `Raster.ProcessTarget` says on the links the reorder before it left; the ghost link history runs from the old arrays to the new ones |
| Legacy.FreshConcat | src/main.rs:145-155 | a sibling subtree in a fresh column joins the earlier siblings without a clash |
| Legacy.ColumnsJoin | src/main.rs:136-161 | the first-progenitor subtree and the further siblings join; only the first subtree uses column `col`, so that column stays below the descendant |
| Legacy.OwnPixelColumns | src/main.rs:170-176 | the own pixel, pushed last, keeps the column facts; when the column is below the descendant and clash-free, it closes the column without a clash |
| Legacy.OwnPixelCloses | src/main.rs:122-176 | the own pixel closes the walk: every pixel still matches its halo, the column facts (and, for ordered links, no clash) hold, and the walk is `Forest.Tour` under the `src/main.rs` rules |
| Legacy.PlacedImage | src/main.rs:234-265 | a walk from the root in column 0 that follows the tour, once normalised, is the tree's image, with the tour's halos and columns, and clash-free when links point to earlier snapshots |
| Legacy.HaloProps.constructor | src/main.rs:41-48 | the forest holds the five given tables |
| Legacy.HaloProps.ReorderProgenitors | src/main.rs:76-118 | Only the link arrays change, and their shape is kept. The result and the links left are exactly those of `Forest.Reorder` under the `src/main.rs` rules: no stop at a link back to `id`, a cap of 1000 turns, and no check of the result against the number of snapshots. |
| Legacy.HaloProps.ReorderSiblings | src/main.rs:89-114 | the loop leaves exactly what `Forest.SiblingPass` under the `src/main.rs` rules gives: it stops only at a self-link, never at the descendant's ID, promotes on a strictly greater depth with the same splice, and fails after 1000 turns in every build |
| Legacy.HaloProps.NextSibling | src/main.rs:90-113 | one turn ends as `Forest.SiblingStep` under the `src/main.rs` rules says |
| Legacy.HaloProps.TakeTurn | src/main.rs:91-105 | the turn after the nested reorder: reads the link, then promotes and splices exactly when the sibling is strictly deeper |
| Legacy.HaloProps.WalkSiblings | src/main.rs:142-160 | further siblings take fresh columns with no interpolation and no snapshot check, with the halos and columns of `Forest.SiblingTour`; the counter may not pass 1000 |
| Legacy.HaloProps.WalkSibling | src/main.rs:146-159 | one sibling: its subtree in column `max_col + 1`, the counter rising and at most 1000, with the halos and columns of `Forest.Tour` |
| Legacy.HaloProps.WalkProgenitors | src/main.rs:136-161 | the progenitors' pixels stay in `col` or in fresh columns, with the halos and columns of `Forest.Above`; when links point to earlier snapshots, they lie below the descendant in `col` and do not clash |
| Legacy.HaloProps.WalkAndPlacePixels | src/main.rs:120-177 | exactly one pixel per visited halo, each matched to its halo, in the order and columns of `Forest.Tour`, with the own pixel last at `(snap(id), col)`; no clash when links point to earlier snapshots |
| Legacy.HaloProps.PlacePixels | src/main.rs:234-265 | The result is an image of the tree: one pixel per halo, in the tour's order and columns, the root last in column 0, and a tight box with rows in `[0, n_rows)` and columns below `n_cols`. When links point to earlier snapshots, no two pixels share a cell. |
| Legacy.ProcessTarget | src/main.rs:281-316 | the reorder goes through as `Forest.Reorder` under the `src/main.rs` rules says, the layout is laid out on the links it leaves, and the three rasters are scattered from it, all zero-filled including the type raster; the scatter never fails, and `last_snap` fits a `u32` |
| Legacy.LastSnapOfImage | src/main.rs:285-293 | the last snapshot of an image is some halo's snapshot, so the `u32` attribute conversion never fails |
| Legacy.LastOnExists | src/main.rs:300-302 | every cell some pixel lands on has a last pixel on it in list order, whose value the scatter leaves |
| Legacy.TypeZeroLooksEmpty | src/main.rs:314-315 | with the type raster filled with 0, a cell reads 0 if and only if no pixel lands on it or the last pixel on it has type 0 |
| Legacy.GenImages | src/main.rs:281-316 | one rendered image per final descendant, in order, type fill 0, each made on the links the reorder before it left |
| Legacy.RowCount | src/main.rs:339-344 | a row marked with 1 on a set of cells sums to the number of marked cells in it |
| Legacy.GridCount | src/main.rs:339-344 | a marked array sums to the number of marked cells in it |
| Legacy.SumImage | src/main.rs:344 | `test_image.sum()`, the sum of every cell |
| Legacy.CountCheck | src/main.rs:339-346 | succeeds exactly when every pixel is inside the box; then the check passes if and only if no two pixels share a cell |
| Legacy.PixelCountsTest | src/main.rs:331-348 | the reorders chain: each starts from the links the one before it left, from the old arrays to the current ones; the test fails only on a tree laid out with some first-progenitor link that does not point to an earlier snapshot |

## Left out

- Input: the HDF5 readers `read_total_snaps`, `read_halos`,
  `read_final_descendants`, `read_unique_final_desc`, and `read_target_ids`
  with its `u64` parsing. This is file I/O through a library that is not
  shown, so the forest tables and the list of target IDs are parameters.
- Output: groups, attributes, datasets, `write_unit` and
  `dump_final_descendants` are file I/O. Each tree's rasters and snapshot
  attributes are returned as a `TreeImage` value instead.
- `src/bin/concat_output.rs`: HDF5 link creation with no logic of its own.
- The command line, logging and progress bars. Also dropped: the `debug`
  flag of the `src/main.rs` walk and its `println!` calls, which only
  print.
- Floating point:
  - Masses and displacements are reals.
  - The Euclidean displacement is the function parameter `dist`, and
    positions are only passed to it.
  - The `lerp` interpolation uses exact real arithmetic, not `f32`
    rounding. This cannot be observed, since that range is always empty.
- Set iteration order: the program visits the target IDs in `HashSet`
  order, which it does not fix. The model takes them in the order of the
  given sequence.
- Release builds of `src/lib.rs`: the model keeps every debug-build check.
  Without them, a release build would run on, wrap around or index out of
  range where the model returns an `Err`.
- Integer widths:
  - The `u32` depth counter is unbounded here; it cannot overflow, because
    depth stays below the number of snapshots.
  - `max_col` and rows are unbounded naturals; their caps keep them far
    from `usize` limits.
  - Halo IDs are exact `u64` values.
- Types: the type column is `i8` in `src/lib.rs` and `u8` in
  `src/main.rs`. Both are integers here.
- Forest.HaloProps.WalkAndPlacePixels: a `depth` parameter bounds the
  recursion, failing with `DepthExceeded` past the number of snapshots. The
  program has no such check. On cyclic links it recurses until the stack
  overflows. On an acyclic forest deeper than the number of snapshots (one
  snapshot holding the chain 1 -> 2 -> 3, say) it finishes where the model
  fails; in the pipeline of `src/lib.rs` the reorder before it already
  panics on such a forest, through its own depth check.
- Legacy.HaloProps.ReorderProgenitors: bounded by the same `depth`
  parameter. The program has no depth check, so on an acyclic forest deeper
  than the number of snapshots it finishes where the model fails.
- Legacy.HaloProps.WalkAndPlacePixels: bounded by the same `depth`
  parameter. It does not bound rows outside column `col`, because this walk
  never compares a sibling's snapshot with its descendant's.
- Forest.HaloProps.ReorderProgenitors: does not prove that the reorder keeps
  every first-progenitor link pointing to an earlier snapshot. The no-clash
  results of `Raster.ProcessTarget`, `Legacy.ProcessTarget` and
  `Legacy.PixelCountsTest` are therefore stated for the links each layout
  was made with.
- Forest.HaloProps.ReorderProgenitors: the depth check of
  `src/lib.rs:120-123` is also made on entry. A call entered too deep would
  return at least its depth and so fail the same check.
- Forest.HaloProps.ReorderSiblings: the sibling list a whole loop leaves
  is given by the definition `Forest.SiblingPass`, not restated as a list.
  Each single promotion is characterised by `SiblingLists.SpliceRelinks`
  and `SiblingLists.PromoteOnChain`.
- Forest.Tour: fails only where the links make the walk fail. The walk can
  also fail reading masses, types and positions, or in `lerp`. So a walk
  that goes through follows the tour, but a tour that goes through does
  not promise that the walk does.
- Raster.Scatter: after a failure, the array contents are not stated. The
  program has panicked by then.
- Method boundaries: some loops and branches of one source function are
  separate methods here. These are the reorder's sibling loop and its turn
  (`NextSibling`, `TakeTurn`), the walk's progenitor branch, its sibling
  loop and one turn of it (`WalkSibling`), and the lerp edge step. The
  order of reads, writes and failures is the program's.

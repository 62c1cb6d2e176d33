/** The raster builder and the per-tree pipeline of src/bin/gen_tree_images.rs:
    every target tree is reordered, laid out, and scattered into three
    `n_rows x n_cols` rasters (mass, displacement, type). */
module Raster {
  import opened Errors
  import opened HaloIds
  import opened Tables
  import opened Pixels
  import opened Forest

  /** The value the scatter leaves in cell `(r, c)` when the cell held `base`
      before it: the value of the last pixel in list order that lands on the
      cell, `base` if none does. */
  function CellValue<T>(ps: seq<Pixel>, value: Pixel -> T, base: T, r: nat, c: nat): T
    decreases |ps|
  {
    if ps == [] then base
    else if Cell(ps[|ps| - 1]) == (r, c) then value(ps[|ps| - 1])
    else CellValue(ps[..|ps| - 1], value, base, r, c)
  }

  /** A cell no pixel lands on keeps what it held. */
  lemma {:induction false} CellValueUntouched<T>(ps: seq<Pixel>, value: Pixel -> T, base: T, r: nat, c: nat)
    ensures (r, c) !in CellSet(ps) ==> CellValue(ps, value, base, r, c) == base
    decreases |ps|
  {
    if ps != [] && (r, c) !in CellSet(ps) {
      var n := |ps| - 1;
      assert CellSet(ps) == CellSet(ps[..n]) + {Cell(ps[n])};
      CellValueUntouched(ps[..n], value, base, r, c);
    }
  }

  /** A cell some pixel lands on holds the value of one of the pixels on it. */
  lemma {:induction false} CellValueHit<T>(ps: seq<Pixel>, value: Pixel -> T, base: T, r: nat, c: nat)
    ensures (r, c) in CellSet(ps) ==>
      exists k :: 0 <= k < |ps| && Cell(ps[k]) == (r, c) && CellValue(ps, value, base, r, c) == value(ps[k])
    decreases |ps|
  {
    if ps != [] && (r, c) in CellSet(ps) {
      var n := |ps| - 1;
      if Cell(ps[n]) != (r, c) {
        assert CellSet(ps) == CellSet(ps[..n]) + {Cell(ps[n])};
        CellValueHit(ps[..n], value, base, r, c);
        var k :| 0 <= k < n && Cell(ps[..n][k]) == (r, c) && CellValue(ps[..n], value, base, r, c) == value(ps[..n][k]);
        assert ps[..n][k] == ps[k];
      }
    }
  }

  /** Duplicates are overwritten, not rejected: the pixel that lands on a cell
      last in list order wins. */
  lemma {:induction false} CellValueLast<T>(ps: seq<Pixel>, value: Pixel -> T, base: T, k: nat)
    requires k < |ps|
    requires forall j :: k < j < |ps| ==> Cell(ps[j]) != Cell(ps[k])
    ensures CellValue(ps, value, base, ps[k].snap, ps[k].col) == value(ps[k])
    decreases |ps|
  {
    var n := |ps| - 1;
    if k < n {
      assert Cell(ps[n]) != Cell(ps[k]);
      forall j | k < j < n
        ensures Cell(ps[..n][j]) != Cell(ps[..n][k])
      {
        assert ps[..n][j] == ps[j];
      }
      CellValueLast(ps[..n], value, base, k);
      assert ps[..n][k] == ps[k];
    }
  }

  /** With no two pixels on one cell, every pixel's own value is in its cell. */
  lemma CellValueDistinct<T>(ps: seq<Pixel>, value: Pixel -> T, base: T, k: nat)
    requires CellsDistinct(ps) && k < |ps|
    ensures CellValue(ps, value, base, ps[k].snap, ps[k].col) == value(ps[k])
  {
    CellValueLast(ps, value, base, k);
  }

  function MassOf(p: Pixel): real {
    p.mass
  }

  function DisplacementOf(p: Pixel): real {
    p.displacement
  }

  function TypeOf(p: Pixel): int {
    p.typ
  }

  /** Every type in the forest is 0 or 1: the `hostHaloID != -1` flag
      (src/lib.rs:269-274). */
  ghost predicate FlagTypes(types: Table<int>) {
    forall h :: Lookup(types, h).Ok? ==> Lookup(types, h).value == 0 || Lookup(types, h).value == 1
  }

  /** Pixels read from a forest of flag types carry flag types. */
  lemma PixelTypesAreFlags(ps: seq<Pixel>, halos: seq<U64>, shift: nat, masses: Table<real>, types: Table<int>,
                           positions: Table<Position>, refPos: Position, dist: (Position, Position) -> real)
    requires PixelsOf(ps, halos, shift, masses, types, positions, refPos, dist) && FlagTypes(types)
    ensures forall k :: 0 <= k < |ps| ==> ps[k].typ == 0 || ps[k].typ == 1
  {
    PixelsOfEach(ps, halos, shift, masses, types, positions, refPos, dist);
    forall k | 0 <= k < |ps|
      ensures ps[k].typ == 0 || ps[k].typ == 1
    {
      assert IsPixelOf(ps[k], halos[k], shift, masses, types, positions, refPos, dist);
      assert Lookup(types, halos[k]).Ok?;
    }
  }

  /** With types 0 or 1, the type fill -1 marks exactly the cells no pixel
      lands on. */
  lemma TypeSentinel(ps: seq<Pixel>, r: nat, c: nat)
    requires forall k :: 0 <= k < |ps| ==> ps[k].typ == 0 || ps[k].typ == 1
    ensures CellValue(ps, TypeOf, -1, r, c) == -1 <==> (r, c) !in CellSet(ps)
  {
    CellValueUntouched(ps, TypeOf, -1, r, c);
    CellValueHit(ps, TypeOf, -1, r, c);
  }

  /** `$image.fill(...)`: every cell holds the fill value. */
  method Fill<T>(image: array2<T>, fill: T)
    modifies image
    ensures forall i, j :: 0 <= i < image.Length0 && 0 <= j < image.Length1 ==> image[i, j] == fill
  {
    var i := 0;
    while i < image.Length0
      invariant 0 <= i <= image.Length0
      invariant forall a, b :: 0 <= a < i && 0 <= b < image.Length1 ==> image[a, b] == fill
    {
      var j := 0;
      while j < image.Length1
        invariant 0 <= j <= image.Length1
        invariant forall a, b :: 0 <= a < i && 0 <= b < image.Length1 ==> image[a, b] == fill
        invariant forall b :: 0 <= b < j ==> image[i, b] == fill
      {
        image[i, j] := fill;
        j := j + 1;
      }
      i := i + 1;
    }
  }

  /** The scatter `image[[pixel.snap, pixel.col]] = pixel.prop` over the
      pixels in list order. A pixel outside the array is the index panic of
      the program; the pixels before it have been written by then. */
  method Scatter<T>(image: array2<T>, ps: seq<Pixel>, value: Pixel -> T) returns (r: Result<()>)
    modifies image
    ensures r.Ok? <==> forall k :: 0 <= k < |ps| ==> ps[k].snap < image.Length0 && ps[k].col < image.Length1
    ensures r.Err? ==> r.error == ShapeMismatch
    ensures r.Ok? ==> forall i, j :: 0 <= i < image.Length0 && 0 <= j < image.Length1 ==>
      image[i, j] == CellValue(ps, value, old(image[i, j]), i, j)
  {
    var k := 0;
    while k < |ps|
      invariant 0 <= k <= |ps|
      invariant forall q :: 0 <= q < k ==> ps[q].snap < image.Length0 && ps[q].col < image.Length1
      invariant forall i, j :: 0 <= i < image.Length0 && 0 <= j < image.Length1 ==>
        image[i, j] == CellValue(ps[..k], value, old(image[i, j]), i, j)
    {
      var p := ps[k];
      if p.snap >= image.Length0 || p.col >= image.Length1 {
        return Err(ShapeMismatch);
      }
      assert ps[..k + 1][..k] == ps[..k];
      image[p.snap, p.col] := value(p);
      k := k + 1;
    }
    assert ps[..k] == ps;
    r := Ok(());
  }

  /** The `construct_and_write` macro (src/bin/gen_tree_images.rs:92-104,
      without the dataset write): fill, then scatter. Whatever the array held
      before is gone: every cell holds its last pixel's value or the fill. */
  method ConstructAndWrite<T>(image: array2<T>, fill: T, ps: seq<Pixel>, value: Pixel -> T) returns (r: Result<()>)
    modifies image
    ensures r.Ok? <==> forall k :: 0 <= k < |ps| ==> ps[k].snap < image.Length0 && ps[k].col < image.Length1
    ensures r.Err? ==> r.error == ShapeMismatch
    ensures r.Ok? ==> forall i, j :: 0 <= i < image.Length0 && 0 <= j < image.Length1 ==>
      image[i, j] == CellValue(ps, value, fill, i, j)
  {
    Fill(image, fill);
    r := Scatter(image, ps, value);
  }

  /** The data a dataset is written from: the array's cells, row by row. */
  function Contents<T>(image: array2<T>): (rows: seq<seq<T>>)
    reads image
    ensures |rows| == image.Length0
    ensures forall i :: 0 <= i < |rows| ==> |rows[i]| == image.Length1
    ensures forall i, j :: 0 <= i < |rows| && 0 <= j < image.Length1 ==> rows[i][j] == image[i, j]
  {
    seq(image.Length0, i requires 0 <= i < image.Length0 reads image =>
      seq(image.Length1, j requires 0 <= j < image.Length1 reads image => image[i, j]))
  }

  /** `grid` is the `nRows x nCols` raster of the pixels for one field, with
      `fill` where no pixel lands. */
  ghost predicate IsRaster<T>(grid: seq<seq<T>>, ps: seq<Pixel>, value: Pixel -> T, fill: T, nRows: nat, nCols: nat) {
    && |grid| == nRows
    && (forall i :: 0 <= i < nRows ==> |grid[i]| == nCols)
    && (forall i, j :: 0 <= i < nRows && 0 <= j < nCols ==> grid[i][j] == CellValue(ps, value, fill, i, j))
  }

  /** What the program writes for one target: the two snapshot attributes and
      the three rasters, with the layout they were scattered from. */
  datatype TreeImage = TreeImage(id: U64, firstSnap: nat, lastSnap: nat, layout: Layout,
                                 mass: seq<seq<real>>, displacement: seq<seq<real>>, typ: seq<seq<int>>)

  /** The three rasters of a tree image, scattered from its layout: mass and
      displacement filled with 0, type with `typeFill`. */
  ghost predicate Rendered(t: TreeImage, typeFill: int) {
    var ps, props := t.layout.pixels, t.layout.props;
    && t.firstSnap == props.firstSnap && t.lastSnap == props.lastSnap
    && IsRaster(t.mass, ps, MassOf, 0.0, props.nRows, props.nCols)
    && IsRaster(t.displacement, ps, DisplacementOf, 0.0, props.nRows, props.nCols)
    && IsRaster(t.typ, ps, TypeOf, typeFill, props.nRows, props.nCols)
  }

  /** The rasters of one tree (src/bin/gen_tree_images.rs:112-119): mass and
      displacement are built one after the other in a single zeroed `f32`
      array, type in a zeroed integer array filled with `typeFill`. The fill
      before each scatter keeps the mass values out of the displacement
      raster. A pixel outside the box is the index panic. */
  method Render(id: U64, layout: Layout, typeFill: int) returns (r: Result<TreeImage>)
    ensures r.Ok? <==> forall k :: 0 <= k < |layout.pixels| ==>
      layout.pixels[k].snap < layout.props.nRows && layout.pixels[k].col < layout.props.nCols
    ensures r.Err? ==> r.error == ShapeMismatch
    ensures r.Ok? ==> r.value.id == id && r.value.layout == layout && Rendered(r.value, typeFill)
  {
    var ps, props := layout.pixels, layout.props;
    var image := new real[props.nRows, props.nCols]((i, j) => 0.0);
    var written := ConstructAndWrite(image, 0.0, ps, MassOf);
    if written.Err? {
      return Err(written.error);
    }
    var mass := Contents(image);
    written := ConstructAndWrite(image, 0.0, ps, DisplacementOf);
    assert written.Ok?;
    var displacement := Contents(image);
    var typeImage := new int[props.nRows, props.nCols]((i, j) => 0);
    written := ConstructAndWrite(typeImage, typeFill, ps, TypeOf);
    assert written.Ok?;
    var typ := Contents(typeImage);
    r := Ok(TreeImage(id, props.firstSnap, props.lastSnap, layout, mass, displacement, typ));
  }

  const U32_LIMIT: nat := 0x1_0000_0000

  /** Every snapshot number an ID can carry fits the `u32` attribute, so the
      `u32::try_from(..).unwrap()` of the snapshot attributes never fails. */
  lemma SnapshotFitsU32(id: U64)
    ensures IdToSnap(id) < U32_LIMIT
  {
    assert id < U32_LIMIT * SNAP_BASE;
  }

  /** The two link arrays of the forest at one point of the run. */
  datatype Links = Links(progs: Table<U64>, next: Table<U64>)

  /** Each pass `q` of a run over `ids` reordered the links `links[q]` into
      `links[q + 1]`. */
  ghost predicate ReorderChain(rules: Rules, links: seq<Links>, ids: seq<U64>) {
    && |links| <= |ids| + 1
    && forall q :: 0 <= q < |links| - 1 ==>
      ReordersTo(rules, links[q].progs, links[q].next, ids[q], links[q + 1].progs, links[q + 1].next)
  }

  /** One more reorder extends the chain. */
  lemma ReorderChainAppend(rules: Rules, links: seq<Links>, ids: seq<U64>, after: Links)
    requires ReorderChain(rules, links, ids) && 1 <= |links| <= |ids|
    requires ReordersTo(rules, links[|links| - 1].progs, links[|links| - 1].next, ids[|links| - 1],
                        after.progs, after.next)
    ensures ReorderChain(rules, links + [after], ids)
  {
    var links' := links + [after];
    forall q | 0 <= q < |links'| - 1
      ensures ReordersTo(rules, links'[q].progs, links'[q].next, ids[q], links'[q + 1].progs, links'[q + 1].next)
    {
      if q < |links| - 1 {
        assert links'[q] == links[q] && links'[q + 1] == links[q + 1];
      }
    }
  }

  /** Tree image `t` is what a pass makes of target `id` on links `before`:
      the reorder goes through and leaves links `after`; the root's position
      can be read; the layout, with `halos` naming the halo of each pixel, is
      laid out on the new links; and the rasters are scattered from it, the
      type raster filled with -1. */
  ghost predicate Made(t: TreeImage, id: U64, halos: seq<U64>, before: Links, after: Links, masses: Table<real>,
                       types: Table<int>, positions: Table<Position>, dist: (Position, Position) -> real)
  {
    && t.id == id && Rendered(t, -1)
    && ReordersTo(LIBRARY, before.progs, before.next, id, after.progs, after.next)
    && Lookup(positions, id).Ok?
    && LaidOut(t.layout, halos, id, after.progs, after.next, masses, types, positions,
               Lookup(positions, id).value, dist)
  }

  /** The passes `0..k` made `images` from `ids`, each on the links the one
      before it left. */
  ghost predicate MadeAll(images: seq<TreeImage>, ids: seq<U64>, halos: seq<seq<U64>>, links: seq<Links>, k: nat,
                          masses: Table<real>, types: Table<int>, positions: Table<Position>,
                          dist: (Position, Position) -> real)
  {
    && k <= |ids| && |images| == k && |halos| == k && |links| == k + 1
    && forall q :: 0 <= q < k ==>
      Made(images[q], ids[q], halos[q], links[q], links[q + 1], masses, types, positions, dist)
  }

  /** One more pass extends the run. */
  lemma MadeAppend(images: seq<TreeImage>, ids: seq<U64>, halos: seq<seq<U64>>, links: seq<Links>, k: nat,
                   masses: Table<real>, types: Table<int>, positions: Table<Position>,
                   dist: (Position, Position) -> real, t: TreeImage, h: seq<U64>, after: Links)
    requires MadeAll(images, ids, halos, links, k, masses, types, positions, dist) && k < |ids|
    requires Made(t, ids[k], h, links[k], after, masses, types, positions, dist)
    ensures MadeAll(images + [t], ids, halos + [h], links + [after], k + 1, masses, types, positions, dist)
  {
    var images', halos', links' := images + [t], halos + [h], links + [after];
    forall q | 0 <= q < k + 1
      ensures Made(images'[q], ids[q], halos'[q], links'[q], links'[q + 1], masses, types, positions, dist)
    {
      if q < k {
        assert images'[q] == images[q] && halos'[q] == halos[q] && links'[q] == links[q] && links'[q + 1] == links[q + 1];
      }
    }
  }

  /** One pass of the loop in `main` (src/bin/gen_tree_images.rs:76-120):
      reorder the tree of `id` in place, lay it out, and build the mass and
      displacement rasters in one reused `f32` array and the type raster in
      an `i8` array. A panic of the reorder or the layout is an `Err`; the
      scatter itself cannot fail, because the layout fits its pixels into the
      box it returns. */
  method ProcessTarget(forest: HaloProps, id: U64, dist: (Position, Position) -> real)
    returns (r: Result<TreeImage>, ghost halos: seq<U64>)
    modifies forest`progenitors, forest`nextProgenitors
    ensures Shape(forest.progenitors) == Shape(old(forest.progenitors))
    ensures Shape(forest.nextProgenitors) == Shape(old(forest.nextProgenitors))
    ensures r.Err? ==> r.error != ShapeMismatch
    ensures r.Ok? ==> r.value.lastSnap < U32_LIMIT
    ensures r.Ok? ==>
      Made(r.value, id, halos, Links(old(forest.progenitors), old(forest.nextProgenitors)),
           Links(forest.progenitors, forest.nextProgenitors), forest.masses, forest.types, forest.positions, dist)
  {
    halos := [];
    var depth := forest.ReorderProgenitors(id, 0);
    if depth.Err? {
      return Err(depth.error), halos;
    }
    var placed;
    placed, halos := forest.PlacePixels(id, dist);
    if placed.Err? {
      return Err(placed.error), halos;
    }
    var layout := placed.value;
    SnapshotFitsU32(id);

    r := Render(id, layout, -1);
    assert r.Ok?;
  }

  /** The type raster of a forest whose types are flags holds -1 exactly in
      the cells of the box no pixel lands on. */
  lemma EmptyCellsMarked(t: TreeImage, halos: seq<U64>, masses: Table<real>, types: Table<int>,
                         positions: Table<Position>, refPos: Position, dist: (Position, Position) -> real)
    requires Rendered(t, -1) && FlagTypes(types)
    requires PixelsOf(t.layout.pixels, halos, t.layout.props.firstSnap, masses, types, positions, refPos, dist)
    ensures forall i, j :: 0 <= i < t.layout.props.nRows && 0 <= j < t.layout.props.nCols ==>
      (t.typ[i][j] == -1 <==> (i, j) !in CellSet(t.layout.pixels))
  {
    var ps := t.layout.pixels;
    PixelTypesAreFlags(ps, halos, t.layout.props.firstSnap, masses, types, positions, refPos, dist);
    forall i, j | 0 <= i < t.layout.props.nRows && 0 <= j < t.layout.props.nCols
      ensures t.typ[i][j] == -1 <==> (i, j) !in CellSet(ps)
    {
      TypeSentinel(ps, i, j);
    }
  }

  /** The loop of `main` over the target IDs (src/bin/gen_tree_images.rs:72-120):
      one forest, reordered in place by every pass, so each tree is laid out
      with the links the earlier passes left. The first failure stops the
      run. */
  method GenTreeImages(forest: HaloProps, ids: seq<U64>, dist: (Position, Position) -> real)
    returns (r: Result<seq<TreeImage>>, ghost links: seq<Links>, ghost halos: seq<seq<U64>>)
    modifies forest`progenitors, forest`nextProgenitors
    ensures Shape(forest.progenitors) == Shape(old(forest.progenitors))
    ensures Shape(forest.nextProgenitors) == Shape(old(forest.nextProgenitors))
    ensures r.Err? ==> r.error != ShapeMismatch
    ensures r.Ok? ==> MadeAll(r.value, ids, halos, links, |ids|, forest.masses, forest.types, forest.positions, dist)
    ensures r.Ok? ==> links[0] == Links(old(forest.progenitors), old(forest.nextProgenitors))
    ensures r.Ok? ==> links[|ids|] == Links(forest.progenitors, forest.nextProgenitors)
  {
    var images: seq<TreeImage> := [];
    links, halos := [Links(forest.progenitors, forest.nextProgenitors)], [];
    var k := 0;
    while k < |ids|
      invariant MadeAll(images, ids, halos, links, k, forest.masses, forest.types, forest.positions, dist)
      invariant Shape(forest.progenitors) == Shape(old(forest.progenitors))
      invariant Shape(forest.nextProgenitors) == Shape(old(forest.nextProgenitors))
      invariant links[0] == Links(old(forest.progenitors), old(forest.nextProgenitors))
      invariant links[k] == Links(forest.progenitors, forest.nextProgenitors)
    {
      var t;
      ghost var h;
      t, h := ProcessTarget(forest, ids[k], dist);
      if t.Err? {
        return Err(t.error), links, halos;
      }
      MadeAppend(images, ids, halos, links, k, forest.masses, forest.types, forest.positions, dist, t.value, h,
                 Links(forest.progenitors, forest.nextProgenitors));
      images, links, halos := images + [t.value], links + [Links(forest.progenitors, forest.nextProgenitors)], halos + [h];
      k := k + 1;
    }
    r := Ok(images);
  }
}

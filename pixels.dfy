/** The records exchanged between the layout and the raster builder
    (`Pixel` and `ImageProps`, src/lib.rs:19-26 and 37-43; src/main.rs:32-39
    and 226-232), the raster cell a pixel occupies, and the bounding-box scans
    of `place_pixels` (src/lib.rs:181-187). */
module Pixels {
  import opened Errors
  import opened HaloIds
  import opened Tables

  /** A row of the positions array. Positions are only handed to the distance
      function, never computed on. */
  datatype Position = Position(x: real, y: real, z: real)

  /** One pixel: `snap` is the row (a snapshot during the walk, an offset from
      the first snapshot after normalization), `col` the branch column. */
  datatype Pixel = Pixel(snap: nat, col: nat, mass: real, typ: int, displacement: real)

  datatype ImageProps = ImageProps(firstSnap: nat, lastSnap: nat, nRows: nat, nCols: nat)

  /** The pair `place_pixels` returns. */
  datatype Layout = Layout(pixels: seq<Pixel>, props: ImageProps)

  function Cell(p: Pixel): (nat, nat) {
    (p.snap, p.col)
  }

  /** No two pixels land on the same raster cell. */
  predicate CellsDistinct(ps: seq<Pixel>) {
    forall i, j :: 0 <= i < j < |ps| ==> Cell(ps[i]) != Cell(ps[j])
  }

  /** The cells the pixels land on. */
  function CellSet(ps: seq<Pixel>): (cells: set<(nat, nat)>)
    ensures forall k :: 0 <= k < |ps| ==> Cell(ps[k]) in cells
    ensures forall c :: c in cells ==> exists k :: 0 <= k < |ps| && Cell(ps[k]) == c
  {
    if ps == [] then {} else CellSet(ps[..|ps| - 1]) + {Cell(ps[|ps| - 1])}
  }

  /** The column of every pixel, in list order. */
  function ColsOf(ps: seq<Pixel>): (cols: seq<nat>)
    ensures |cols| == |ps| && forall k :: 0 <= k < |ps| ==> cols[k] == ps[k].col
  {
    seq(|ps|, k requires 0 <= k < |ps| => ps[k].col)
  }

  lemma ColsOfConcat(a: seq<Pixel>, b: seq<Pixel>)
    ensures ColsOf(a + b) == ColsOf(a) + ColsOf(b)
  {
    assert forall k :: 0 <= k < |a| + |b| ==> ColsOf(a + b)[k] == (ColsOf(a) + ColsOf(b))[k];
  }

  /** Marking every pixel's cell marks as many cells as there are pixels exactly
      when no two pixels share a cell; otherwise fewer. */
  lemma {:induction false} CellCount(ps: seq<Pixel>)
    ensures |CellSet(ps)| <= |ps|
    ensures |CellSet(ps)| == |ps| <==> CellsDistinct(ps)
  {
    if ps != [] {
      var n := |ps| - 1;
      CellCount(ps[..n]);
      if Cell(ps[n]) in CellSet(ps[..n]) {
        var k :| 0 <= k < n && Cell(ps[..n][k]) == Cell(ps[n]);
        assert Cell(ps[k]) == Cell(ps[n]);
      } else {
        DistinctSnoc(ps);
      }
    }
  }

  /** A last pixel on a cell no earlier pixel occupies keeps the cells
      distinct exactly when they were. */
  lemma DistinctSnoc(ps: seq<Pixel>)
    requires |ps| > 0 && Cell(ps[|ps| - 1]) !in CellSet(ps[..|ps| - 1])
    ensures CellsDistinct(ps) <==> CellsDistinct(ps[..|ps| - 1])
  {
    var n := |ps| - 1;
    assert forall k :: 0 <= k < n ==> ps[..n][k] == ps[k];
    if CellsDistinct(ps[..n]) {
      forall i, j | 0 <= i < j < |ps|
        ensures Cell(ps[i]) != Cell(ps[j])
      {
        if j < n {
          assert Cell(ps[..n][i]) != Cell(ps[..n][j]);
        }
      }
    }
  }

  /** Appending two runs of pixels one after the other appends their join. */
  lemma AppendTwice(base: seq<Pixel>, a: seq<Pixel>, b: seq<Pixel>)
    ensures (base + a) + b == base + (a + b)
  {
  }

  /** Pixels of two lists that share no cell can be joined without a clash. */
  lemma DistinctConcat(a: seq<Pixel>, b: seq<Pixel>)
    requires CellsDistinct(a) && CellsDistinct(b)
    requires forall i, j :: 0 <= i < |a| && 0 <= j < |b| ==> Cell(a[i]) != Cell(b[j])
    ensures CellsDistinct(a + b)
  {
    var c := a + b;
    forall i, j | 0 <= i < j < |c|
      ensures Cell(c[i]) != Cell(c[j])
    {
      if j < |a| {
        assert c[i] == a[i] && c[j] == a[j];
      } else if i < |a| {
        assert c[i] == a[i] && c[j] == b[j - |a|];
      } else {
        assert c[i] == b[i - |a|] && c[j] == b[j - |a|];
      }
    }
  }

  /** The layout band of a subtree walked in column `col` with the counter at
      `lo`: every pixel is in `col` or in a column handed out after `lo` (up
      to `hi`), and no pixel is in a row after `snap`. */
  ghost predicate InBand(ps: seq<Pixel>, col: nat, lo: nat, hi: nat, snap: nat) {
    forall k :: 0 <= k < |ps| ==> (ps[k].col == col || lo < ps[k].col <= hi) && ps[k].snap <= snap
  }

  /** Every pixel in column `col` is in a row before `snap`. */
  ghost predicate ColumnBelow(ps: seq<Pixel>, col: nat, snap: nat) {
    forall k :: 0 <= k < |ps| && ps[k].col == col ==> ps[k].snap < snap
  }

  /** The first-progenitor subtree of a halo at snapshot `snap`: its band
      widens to the descendant's row, and lies below it when the progenitor is
      strictly earlier. */
  lemma FirstProgenitorBand(ps: seq<Pixel>, col: nat, lo: nat, hi: nat, progSnap: nat, snap: nat)
    requires InBand(ps, col, lo, hi, progSnap) && progSnap <= snap
    ensures InBand(ps, col, lo, hi, snap)
    ensures progSnap < snap ==> ColumnBelow(ps, col, snap)
  {
  }

  /** Every pixel is in a column handed out after `lo` (up to `hi`), and no
      pixel is in a row after `snap`: the band of the further siblings. */
  ghost predicate InColumns(ps: seq<Pixel>, lo: nat, hi: nat, snap: nat) {
    forall k :: 0 <= k < |ps| ==> lo < ps[k].col <= hi && ps[k].snap <= snap
  }

  /** A sibling subtree walked in the fresh column `m + 1` joins the further
      siblings gathered so far (whose columns are at most `m`) without a clash. */
  lemma ColumnsConcat(acc: seq<Pixel>, sub: seq<Pixel>, lo: nat, m: nat, hi: nat, subSnap: nat, snap: nat)
    requires InColumns(acc, lo, m, snap) && lo <= m
    requires InBand(sub, m + 1, m + 1, hi, subSnap) && subSnap <= snap && m < hi
    ensures InColumns(acc + sub, lo, hi, snap)
    ensures CellsDistinct(acc) && CellsDistinct(sub) ==> CellsDistinct(acc + sub)
  {
    var c := acc + sub;
    forall k | 0 <= k < |c|
      ensures lo < c[k].col <= hi && c[k].snap <= snap
    {
      if k >= |acc| {
        assert c[k] == sub[k - |acc|];
      } else {
        assert c[k] == acc[k];
      }
    }
    if CellsDistinct(acc) && CellsDistinct(sub) {
      DistinctConcat(acc, sub);
    }
  }

  /** The first-progenitor subtree (in column `col`, fresh columns up to `m`)
      and the further siblings (fresh columns after `m`) join without a clash,
      and keep column `col` below the descendant's row. */
  lemma BandJoin(first: seq<Pixel>, rest: seq<Pixel>, col: nat, lo: nat, m: nat, hi: nat, snap: nat)
    requires InBand(first, col, lo, m, snap) && InColumns(rest, m, hi, snap) && lo <= m <= hi
    ensures InBand(first + rest, col, lo, hi, snap)
    ensures col <= m && ColumnBelow(first, col, snap) ==> ColumnBelow(first + rest, col, snap)
    ensures col <= lo && CellsDistinct(first) && CellsDistinct(rest) ==> CellsDistinct(first + rest)
  {
    var c := first + rest;
    forall k | 0 <= k < |c|
      ensures (c[k].col == col || lo < c[k].col <= hi) && c[k].snap <= snap
      ensures k >= |first| ==> m < c[k].col
    {
      if k >= |first| {
        assert c[k] == rest[k - |first|];
      } else {
        assert c[k] == first[k];
      }
    }
    if col <= lo && CellsDistinct(first) && CellsDistinct(rest) {
      DistinctConcat(first, rest);
    }
  }

  /** The halo's own pixel, in its own row and column, closes the band. */
  lemma OwnPixelBand(acc: seq<Pixel>, own: Pixel, col: nat, lo: nat, hi: nat, snap: nat)
    requires InBand(acc, col, lo, hi, snap) && own.col == col && own.snap == snap
    ensures InBand(acc + [own], col, lo, hi, snap)
    ensures col <= lo && CellsDistinct(acc) && ColumnBelow(acc, col, snap) ==> CellsDistinct(acc + [own])
  {
    var c := acc + [own];
    assert forall k :: 0 <= k < |acc| ==> c[k] == acc[k];
    if col <= lo && CellsDistinct(acc) && ColumnBelow(acc, col, snap) {
      DistinctConcat(acc, [own]);
    }
  }

  /** `p` is the pixel of halo `h` with its row moved up by `shift`: its row is
      the halo's snapshot, its payload is read from that halo's cells, and its
      displacement is the distance from the halo to the tree root's position. */
  ghost predicate IsPixelOf(p: Pixel, h: U64, shift: nat, masses: Table<real>, types: Table<int>,
                            positions: Table<Position>, refPos: Position, dist: (Position, Position) -> real)
  {
    && p.snap + shift == IdToSnap(h)
    && Lookup(masses, h) == Ok(p.mass)
    && Lookup(types, h) == Ok(p.typ)
    && Lookup(positions, h).Ok?
    && p.displacement == dist(Lookup(positions, h).value, refPos)
  }

  /** Pixel `k` of `ps` is the pixel of halo `halos[k]`, for every `k`
      (stated pixel by pixel from the end; `PixelsOfEach` gives the
      quantified form). */
  ghost predicate PixelsOf(ps: seq<Pixel>, halos: seq<U64>, shift: nat, masses: Table<real>, types: Table<int>,
                           positions: Table<Position>, refPos: Position, dist: (Position, Position) -> real)
    decreases |ps|
  {
    && |ps| == |halos|
    && (|ps| > 0 ==>
          && PixelsOf(ps[..|ps| - 1], halos[..|ps| - 1], shift, masses, types, positions, refPos, dist)
          && IsPixelOf(ps[|ps| - 1], halos[|ps| - 1], shift, masses, types, positions, refPos, dist))
  }

  lemma {:induction false} PixelsOfEach(ps: seq<Pixel>, halos: seq<U64>, shift: nat, masses: Table<real>,
                                        types: Table<int>, positions: Table<Position>, refPos: Position,
                                        dist: (Position, Position) -> real)
    ensures PixelsOf(ps, halos, shift, masses, types, positions, refPos, dist) <==>
      && |ps| == |halos|
      && forall k :: 0 <= k < |ps| ==> IsPixelOf(ps[k], halos[k], shift, masses, types, positions, refPos, dist)
    decreases |ps|
  {
    if |ps| > 0 && |ps| == |halos| {
      var n := |ps| - 1;
      PixelsOfEach(ps[..n], halos[..n], shift, masses, types, positions, refPos, dist);
      assert forall k :: 0 <= k < n ==> ps[..n][k] == ps[k] && halos[..n][k] == halos[k];
    }
  }

  lemma PixelsOfConcat(a: seq<Pixel>, ha: seq<U64>, b: seq<Pixel>, hb: seq<U64>, shift: nat,
                       masses: Table<real>, types: Table<int>, positions: Table<Position>,
                       refPos: Position, dist: (Position, Position) -> real)
    requires PixelsOf(a, ha, shift, masses, types, positions, refPos, dist)
    requires PixelsOf(b, hb, shift, masses, types, positions, refPos, dist)
    ensures PixelsOf(a + b, ha + hb, shift, masses, types, positions, refPos, dist)
  {
    PixelsOfEach(a, ha, shift, masses, types, positions, refPos, dist);
    PixelsOfEach(b, hb, shift, masses, types, positions, refPos, dist);
    PixelsOfEach(a + b, ha + hb, shift, masses, types, positions, refPos, dist);
    forall k | 0 <= k < |a + b|
      ensures IsPixelOf((a + b)[k], (ha + hb)[k], shift, masses, types, positions, refPos, dist)
    {
      if k < |a| {
        assert (a + b)[k] == a[k] && (ha + hb)[k] == ha[k];
      } else {
        assert (a + b)[k] == b[k - |a|] && (ha + hb)[k] == hb[k - |a|];
      }
    }
  }

  /** `pixels.iter().map(|v| v.snap).min()`. */
  method MinSnap(ps: seq<Pixel>) returns (m: Option<nat>)
    ensures m.None? <==> ps == []
    ensures m.Some? ==> exists k :: 0 <= k < |ps| && ps[k].snap == m.value
    ensures m.Some? ==> forall k :: 0 <= k < |ps| ==> m.value <= ps[k].snap
  {
    if ps == [] {
      return None;
    }
    var lo := ps[0].snap;
    var i := 1;
    while i < |ps|
      invariant 1 <= i <= |ps|
      invariant exists k :: 0 <= k < i && ps[k].snap == lo
      invariant forall k :: 0 <= k < i ==> lo <= ps[k].snap
    {
      if ps[i].snap < lo {
        lo := ps[i].snap;
      }
      i := i + 1;
    }
    return Some(lo);
  }

  /** `pixels.iter().map(|v| v.snap).max()`. */
  method MaxSnap(ps: seq<Pixel>) returns (m: Option<nat>)
    ensures m.None? <==> ps == []
    ensures m.Some? ==> exists k :: 0 <= k < |ps| && ps[k].snap == m.value
    ensures m.Some? ==> forall k :: 0 <= k < |ps| ==> ps[k].snap <= m.value
  {
    if ps == [] {
      return None;
    }
    var hi := ps[0].snap;
    var i := 1;
    while i < |ps|
      invariant 1 <= i <= |ps|
      invariant exists k :: 0 <= k < i && ps[k].snap == hi
      invariant forall k :: 0 <= k < i ==> ps[k].snap <= hi
    {
      if ps[i].snap > hi {
        hi := ps[i].snap;
      }
      i := i + 1;
    }
    return Some(hi);
  }

  /** `pixels.iter().map(|v| v.col).max()`. */
  method MaxCol(ps: seq<Pixel>) returns (m: Option<nat>)
    ensures m.None? <==> ps == []
    ensures m.Some? ==> exists k :: 0 <= k < |ps| && ps[k].col == m.value
    ensures m.Some? ==> forall k :: 0 <= k < |ps| ==> ps[k].col <= m.value
  {
    if ps == [] {
      return None;
    }
    var hi := ps[0].col;
    var i := 1;
    while i < |ps|
      invariant 1 <= i <= |ps|
      invariant exists k :: 0 <= k < i && ps[k].col == hi
      invariant forall k :: 0 <= k < i ==> ps[k].col <= hi
    {
      if ps[i].col > hi {
        hi := ps[i].col;
      }
      i := i + 1;
    }
    return Some(hi);
  }

  /** The row shift of `place_pixels` (the `iter_mut` loop): every row moves up
      by `first`, nothing else changes. */
  method ShiftRows(ps: seq<Pixel>, first: nat) returns (shifted: seq<Pixel>)
    requires forall k :: 0 <= k < |ps| ==> first <= ps[k].snap
    ensures |shifted| == |ps|
    ensures forall k :: 0 <= k < |ps| ==> shifted[k] == ps[k].(snap := ps[k].snap - first)
  {
    shifted := ps;
    var i := 0;
    while i < |shifted|
      invariant 0 <= i <= |shifted| == |ps|
      invariant forall k :: 0 <= k < i ==> shifted[k] == ps[k].(snap := ps[k].snap - first)
      invariant forall k :: i <= k < |ps| ==> shifted[k] == ps[k]
    {
      shifted := shifted[i := shifted[i].(snap := shifted[i].snap - first)];
      i := i + 1;
    }
  }

  /** `shifted` is `ps` with every row moved up by `first`, which no row is
      below. */
  ghost predicate ShiftedBy(ps: seq<Pixel>, shifted: seq<Pixel>, first: nat) {
    && |shifted| == |ps|
    && (forall k :: 0 <= k < |ps| ==> first <= ps[k].snap)
    && (forall k :: 0 <= k < |ps| ==> shifted[k] == ps[k].(snap := ps[k].snap - first))
  }

  /** Moving rows leaves every column alone. */
  lemma ShiftKeepsCols(ps: seq<Pixel>, shifted: seq<Pixel>, first: nat)
    requires ShiftedBy(ps, shifted, first)
    ensures ColsOf(shifted) == ColsOf(ps)
  {
    assert forall k :: 0 <= k < |ps| ==> ColsOf(shifted)[k] == ColsOf(ps)[k];
  }

  /** Moving every row by the same amount keeps distinct cells distinct. */
  lemma ShiftKeepsDistinct(ps: seq<Pixel>, shifted: seq<Pixel>, first: nat)
    requires ShiftedBy(ps, shifted, first)
    ensures CellsDistinct(ps) ==> CellsDistinct(shifted)
  {
    if CellsDistinct(ps) {
      forall i, j | 0 <= i < j < |shifted|
        ensures Cell(shifted[i]) != Cell(shifted[j])
      {
        assert Cell(ps[i]) != Cell(ps[j]);
      }
    }
  }

  /** Moving every row up by `first` keeps each pixel the pixel of its halo,
      now at row offset `first`. */
  lemma PixelsOfShift(ps: seq<Pixel>, shifted: seq<Pixel>, halos: seq<U64>, first: nat, masses: Table<real>,
                      types: Table<int>, positions: Table<Position>, refPos: Position,
                      dist: (Position, Position) -> real)
    requires PixelsOf(ps, halos, 0, masses, types, positions, refPos, dist) && ShiftedBy(ps, shifted, first)
    ensures PixelsOf(shifted, halos, first, masses, types, positions, refPos, dist)
  {
    PixelsOfEach(ps, halos, 0, masses, types, positions, refPos, dist);
    PixelsOfEach(shifted, halos, first, masses, types, positions, refPos, dist);
    forall k | 0 <= k < |shifted|
      ensures IsPixelOf(shifted[k], halos[k], first, masses, types, positions, refPos, dist)
    {
      assert IsPixelOf(ps[k], halos[k], 0, masses, types, positions, refPos, dist);
    }
  }

  /** The image box `props` fits the shifted pixels tightly: it spans the
      snapshots `firstSnap..=lastSnap`, every pixel lies inside it, and its
      first row, its last row and its last column are occupied. */
  ghost predicate FitsTightly(ps: seq<Pixel>, props: ImageProps) {
    && props.firstSnap <= props.lastSnap
    && props.nRows == props.lastSnap - props.firstSnap + 1
    && (forall k :: 0 <= k < |ps| ==> ps[k].snap < props.nRows && ps[k].col < props.nCols)
    && (exists k :: 0 <= k < |ps| && ps[k].snap == 0)
    && (exists k :: 0 <= k < |ps| && ps[k].snap + 1 == props.nRows)
    && (exists k :: 0 <= k < |ps| && ps[k].col + 1 == props.nCols)
  }

  /** Shifting by the least row and measuring the extreme rows and columns
      gives a box that fits the shifted pixels tightly. */
  lemma {:induction false} ShiftFits(ps: seq<Pixel>, shifted: seq<Pixel>, first: nat, last: nat, lastCol: nat)
    requires (exists k :: 0 <= k < |ps| && ps[k].snap == first) && ShiftedBy(ps, shifted, first)
    requires (exists k :: 0 <= k < |ps| && ps[k].snap == last) && forall k :: 0 <= k < |ps| ==> ps[k].snap <= last
    requires (exists k :: 0 <= k < |ps| && ps[k].col == lastCol) && forall k :: 0 <= k < |ps| ==> ps[k].col <= lastCol
    ensures FitsTightly(shifted, ImageProps(first, last, last - first + 1, lastCol + 1))
  {
    var i :| 0 <= i < |ps| && ps[i].snap == first;
    assert shifted[i].snap == 0;
    var h :| 0 <= h < |ps| && ps[h].snap == last;
    assert shifted[h].snap + 1 == last - first + 1;
    var j :| 0 <= j < |ps| && ps[j].col == lastCol;
    assert shifted[j].col + 1 == lastCol + 1;
  }

  /** The normalization of `place_pixels` (src/lib.rs:181-196): the least and
      greatest rows, every row moved up by the least one, and the column count
      one past the greatest column. The `unwrap`s fail on no pixels. */
  method Normalize(ps: seq<Pixel>) returns (layout: Layout)
    requires |ps| >= 1
    ensures |layout.pixels| == |ps|
    ensures ShiftedBy(ps, layout.pixels, layout.props.firstSnap)
    ensures forall k :: 0 <= k < |ps| ==> ps[k].snap <= layout.props.lastSnap
    ensures exists k :: 0 <= k < |ps| && ps[k].snap == layout.props.lastSnap
    ensures FitsTightly(layout.pixels, layout.props)
  {
    var first := MinSnap(ps);
    var last := MaxSnap(ps);
    var shifted := ShiftRows(ps, first.value);
    var lastCol := MaxCol(ps);
    ShiftFits(ps, shifted, first.value, last.value, lastCol.value);
    layout := Layout(shifted, ImageProps(first.value, last.value, last.value - first.value + 1, lastCol.value + 1));
  }

  /** `layout` is an image of the tree of root `root`: one pixel per entry of
      `halos`, each the pixel of that halo with rows counted from the first
      snapshot, in a box that fits the pixels tightly; the root's own pixel
      comes last, in column 0. */
  ghost predicate ImageOf(layout: Layout, halos: seq<U64>, root: U64, masses: Table<real>,
                          types: Table<int>, positions: Table<Position>, refPos: Position,
                          dist: (Position, Position) -> real)
  {
    var ps, props := layout.pixels, layout.props;
    && |ps| >= 1 && |halos| == |ps| && FitsTightly(ps, props)
    && halos[|ps| - 1] == root && ps[|ps| - 1].col == 0
    && PixelsOf(ps, halos, props.firstSnap, masses, types, positions, refPos, dist)
  }

  /** An image of the tree that ends at the root's snapshot `top`, with the
      root's pixel in the last row. */
  ghost predicate ImageOfTree(layout: Layout, halos: seq<U64>, root: U64, top: nat, masses: Table<real>,
                              types: Table<int>, positions: Table<Position>, refPos: Position,
                              dist: (Position, Position) -> real)
  {
    && ImageOf(layout, halos, root, masses, types, positions, refPos, dist)
    && layout.props.lastSnap == top
    && layout.pixels[|layout.pixels| - 1].snap == layout.props.nRows - 1
  }

  /** Normalizing the pixels of a walk that ends with the root's own pixel in
      column 0 gives an image of the tree. */
  lemma ImageOfNormalized(ps: seq<Pixel>, halos: seq<U64>, layout: Layout, root: U64,
                          masses: Table<real>, types: Table<int>, positions: Table<Position>, refPos: Position,
                          dist: (Position, Position) -> real)
    requires |ps| >= 1 && |halos| == |ps| && halos[|ps| - 1] == root && ps[|ps| - 1].col == 0
    requires PixelsOf(ps, halos, 0, masses, types, positions, refPos, dist)
    requires ShiftedBy(ps, layout.pixels, layout.props.firstSnap)
    requires FitsTightly(layout.pixels, layout.props)
    ensures ImageOf(layout, halos, root, masses, types, positions, refPos, dist)
  {
    PixelsOfShift(ps, layout.pixels, halos, layout.props.firstSnap, masses, types, positions, refPos, dist);
  }

  /** Normalizing the pixels of a walk from the root gives the image of the
      tree: the walk ends with the root's own pixel in column 0, and no pixel
      of the walk is in a row after the root's. */
  lemma ImageOfWalk(ps: seq<Pixel>, halos: seq<U64>, layout: Layout, root: U64, top: nat, hi: nat,
                    masses: Table<real>, types: Table<int>, positions: Table<Position>, refPos: Position,
                    dist: (Position, Position) -> real)
    requires |ps| >= 1 && |halos| == |ps| && halos[|ps| - 1] == root
    requires ps[|ps| - 1].snap == top && ps[|ps| - 1].col == 0 && InBand(ps, 0, 0, hi, top)
    requires PixelsOf(ps, halos, 0, masses, types, positions, refPos, dist)
    requires ShiftedBy(ps, layout.pixels, layout.props.firstSnap)
    requires forall k :: 0 <= k < |ps| ==> ps[k].snap <= layout.props.lastSnap
    requires exists k :: 0 <= k < |ps| && ps[k].snap == layout.props.lastSnap
    requires FitsTightly(layout.pixels, layout.props)
    ensures ImageOfTree(layout, halos, root, top, masses, types, positions, refPos, dist)
  {
    var m :| 0 <= m < |ps| && ps[m].snap == layout.props.lastSnap;
    assert ps[m].snap <= top;
    ImageOfNormalized(ps, halos, layout, root, masses, types, positions, refPos, dist);
  }
}

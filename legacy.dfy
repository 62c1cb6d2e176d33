/** The older copy of the pipeline in src/main.rs: the same codec, forest and
    layout records, but a reorder whose sibling loop only stops at a
    self-link and always caps at 1000 steps, a walk without interpolation or
    snapshot check and with a column cap of 1000, type rasters filled with 0,
    and the `pixel_counts` test. */
module Legacy {
  import opened Errors
  import opened HaloIds
  import opened Tables
  import opened SiblingLists
  import opened Pixels
  import opened Raster
  import Forest

  /** The cap on sibling steps of one reorder loop (src/main.rs:108-113),
      checked in every build. */
  const MAX_SIBLING_STEPS: nat := 1000

  /** The rules of src/main.rs:76-177: a sibling list ends at a self-link
      only, the reorder does not check the depth it reached, and the walk
      takes no snapshot gap. */
  const RULES: Forest.Rules := Forest.Rules(MAX_SIBLING_STEPS, false, false, MAX_COLUMN, false)

  /** The cap on the column counter of the layout (src/main.rs:157-159). */
  const MAX_COLUMN: nat := 1000

  /** Every pixel is in column `col` or in a column handed out after `lo` (up
      to `hi`). */
  ghost predicate Columns(ps: seq<Pixel>, col: nat, lo: nat, hi: nat) {
    forall k :: 0 <= k < |ps| ==> ps[k].col == col || lo < ps[k].col <= hi
  }

  /** Every pixel is in a column handed out after `lo` (up to `hi`). */
  ghost predicate FreshColumns(ps: seq<Pixel>, lo: nat, hi: nat) {
    forall k :: 0 <= k < |ps| ==> lo < ps[k].col <= hi
  }

  /** No pixel in column `col` is in a row after `snap`. */
  ghost predicate ColumnAtMost(ps: seq<Pixel>, col: nat, snap: nat) {
    forall k :: 0 <= k < |ps| && ps[k].col == col ==> ps[k].snap <= snap
  }

  /** A sibling subtree walked in the fresh column `m + 1` joins the further
      siblings gathered so far (whose columns are at most `m`) without a clash. */
  lemma FreshConcat(acc: seq<Pixel>, sub: seq<Pixel>, lo: nat, m: nat, hi: nat)
    requires FreshColumns(acc, lo, m) && lo <= m
    requires Columns(sub, m + 1, m + 1, hi) && m < hi
    ensures FreshColumns(acc + sub, lo, hi)
    ensures CellsDistinct(acc) && CellsDistinct(sub) ==> CellsDistinct(acc + sub)
  {
    var c := acc + sub;
    forall k | 0 <= k < |c|
      ensures lo < c[k].col <= hi
    {
      if k >= |acc| {
        assert c[k] == sub[k - |acc|];
      } else {
        assert c[k] == acc[k];
      }
    }
    if CellsDistinct(acc) && CellsDistinct(sub) {
      DistinctConcat(acc, sub);
    }
  }

  /** The first-progenitor subtree (in column `col`, fresh columns up to `m`)
      and the further siblings (fresh columns after `m`) join without a clash;
      column `col` then holds only the first subtree's pixels. */
  lemma ColumnsJoin(first: seq<Pixel>, rest: seq<Pixel>, col: nat, lo: nat, m: nat, hi: nat,
                    progSnap: nat, snap: nat)
    requires Columns(first, col, lo, m) && FreshColumns(rest, m, hi) && lo <= m <= hi
    ensures Columns(first + rest, col, lo, hi)
    ensures col <= m && ColumnAtMost(first, col, progSnap) && progSnap < snap ==>
      ColumnBelow(first + rest, col, snap)
    ensures col <= lo && CellsDistinct(first) && CellsDistinct(rest) ==> CellsDistinct(first + rest)
  {
    var c := first + rest;
    forall k | 0 <= k < |c|
      ensures c[k].col == col || lo < c[k].col <= hi
      ensures k < |first| ==> c[k] == first[k]
      ensures k >= |first| ==> m < c[k].col
    {
      if k >= |first| {
        assert c[k] == rest[k - |first|];
      }
    }
    if col <= lo && CellsDistinct(first) && CellsDistinct(rest) {
      DistinctConcat(first, rest);
    }
  }

  /** The halo's own pixel, in its own row and column, closes the subtree; when
      the subtree's column `col` stayed below the halo's row (`inOrder`), it
      closes it without a clash. */
  lemma OwnPixelColumns(acc: seq<Pixel>, own: Pixel, col: nat, lo: nat, hi: nat, snap: nat, inOrder: bool)
    requires Columns(acc, col, lo, hi) && own.col == col && own.snap == snap
    requires inOrder ==> ColumnBelow(acc, col, snap) && CellsDistinct(acc)
    ensures Columns(acc + [own], col, lo, hi)
    ensures inOrder ==> ColumnAtMost(acc + [own], col, snap) && CellsDistinct(acc + [own])
  {
    var c := acc + [own];
    assert forall k :: 0 <= k < |acc| ==> c[k] == acc[k];
    if inOrder {
      DistinctConcat(acc, [own]);
    }
  }

  /** The walk of halo `id` closes with its own pixel `own`, pushed after
      what was walked above it (`added`, of halos `halos`): the pixels are
      the halo's, their columns are those the walk may use, and the tour of
      `id` under `RULES` visits them. */
  lemma OwnPixelCloses(progs: Table<U64>, next: Table<U64>, masses: Table<real>, types: Table<int>,
                       positions: Table<Position>, refPos: Position, dist: (Position, Position) -> real,
                       id: U64, progId: U64, col: nat, maxCol: nat, depth: nat, inOrder: bool,
                       halos: seq<U64>, added: seq<Pixel>, own: Pixel, hi: nat)
    requires depth <= |progs| && Lookup(progs, id) == Ok(progId)
    requires own.col == col && own.snap == IdToSnap(id)
    requires IsPixelOf(own, id, 0, masses, types, positions, refPos, dist)
    requires PixelsOf(added, halos, 0, masses, types, positions, refPos, dist)
    requires Columns(added, col, maxCol, hi)
    requires inOrder ==> ColumnBelow(added, col, IdToSnap(id)) && CellsDistinct(added)
    requires progId == id ==> halos == [] && added == [] && hi == maxCol
    requires progId != id ==>
      Forest.Above(RULES, progs, next, id, progId, col, maxCol, depth) == Ok(Forest.Route(halos, ColsOf(added), hi))
    ensures PixelsOf(added + [own], halos + [id], 0, masses, types, positions, refPos, dist)
    ensures Columns(added + [own], col, maxCol, hi)
    ensures inOrder ==> ColumnAtMost(added + [own], col, IdToSnap(id)) && CellsDistinct(added + [own])
    ensures Forest.Tour(RULES, progs, next, id, col, maxCol, depth)
            == Ok(Forest.Route(halos + [id], ColsOf(added + [own]), hi))
  {
    OwnPixelColumns(added, own, col, maxCol, hi, IdToSnap(id), inOrder);
    Forest.TourCloses(RULES, progs, next, id, progId, col, maxCol, depth, halos, added, own, hi);
    PixelsOfConcat(added, halos, [own], [id], 0, masses, types, positions, refPos, dist);
  }

  /** `layout` is the image of the tree of root `id` (whose position is
      `refPos`), `halos` names the halo of each of its pixels, its columns are
      those of the tour of the links under `RULES`, and no two pixels share a
      cell when progenitors are earlier than their descendants. */
  ghost predicate LaidOut(layout: Layout, halos: seq<U64>, id: U64, progs: Table<U64>, next: Table<U64>,
                          masses: Table<real>, types: Table<int>, positions: Table<Position>, refPos: Position,
                          dist: (Position, Position) -> real)
  {
    && ImageOf(layout, halos, id, masses, types, positions, refPos, dist)
    && (LinksEarlier(progs) ==> CellsDistinct(layout.pixels))
    && Forest.Visits(Forest.Tour(RULES, progs, next, id, 0, 0, 0), halos, ColsOf(layout.pixels))
  }

  /** The walk from root `id` in column 0, normalized, is laid out. */
  lemma PlacedImage(progs: Table<U64>, next: Table<U64>, masses: Table<real>, types: Table<int>,
                    positions: Table<Position>, id: U64, refPos: Position, dist: (Position, Position) -> real,
                    added: seq<Pixel>, halos: seq<U64>, hi: nat, layout: Layout)
    requires |added| >= 1 && |halos| == |added| && halos[|halos| - 1] == id && added[|added| - 1].col == 0
    requires PixelsOf(added, halos, 0, masses, types, positions, refPos, dist)
    requires LinksEarlier(progs) ==> CellsDistinct(added)
    requires Forest.Tour(RULES, progs, next, id, 0, 0, 0) == Ok(Forest.Route(halos, ColsOf(added), hi))
    requires ShiftedBy(added, layout.pixels, layout.props.firstSnap)
    requires FitsTightly(layout.pixels, layout.props)
    ensures LaidOut(layout, halos, id, progs, next, masses, types, positions, refPos, dist)
  {
    ImageOfNormalized(added, halos, layout, id, masses, types, positions, refPos, dist);
    Forest.ShiftedVisits(RULES, progs, next, id, halos, added, layout.pixels, layout.props.firstSnap, hi);
  }

  class HaloProps {
    var progenitors: Table<U64>
    var nextProgenitors: Table<U64>
    var masses: Table<real>
    var types: Table<int>
    var positions: Table<Position>

    constructor (progenitors: Table<U64>, nextProgenitors: Table<U64>, masses: Table<real>,
                 types: Table<int>, positions: Table<Position>)
      ensures this.progenitors == progenitors && this.nextProgenitors == nextProgenitors
      ensures this.masses == masses && this.types == types && this.positions == positions
    {
      this.progenitors := progenitors;
      this.nextProgenitors := nextProgenitors;
      this.masses := masses;
      this.types := types;
      this.positions := positions;
    }

    /** `reorder_progenitors` (src/main.rs:76-118): the post-order pass of
        src/lib.rs under `RULES`. What it leaves is `Forest.Reorder` of the
        links it started from, and `Forest.ReorderPromotes` says what that is.

        `depth` bounds the recursion: the program has no depth check, and a
        call entered deeper than the number of snapshots fails here instead
        of recursing further. */
    method ReorderProgenitors(id: U64, depth: nat) returns (r: Result<nat>)
      modifies this`progenitors, this`nextProgenitors
      decreases |progenitors| + 1 - depth, 2
      ensures Shape(progenitors) == Shape(old(progenitors))
      ensures Shape(nextProgenitors) == Shape(old(nextProgenitors))
      ensures Forest.EndsAs(r, progenitors, nextProgenitors,
                            Forest.Reorder(RULES, old(progenitors), old(nextProgenitors), id, depth))
    {
      if depth > |progenitors| {
        r := Err(DepthExceeded);
        return;
      }
      var maxDepth := depth;
      var lp := Lookup(progenitors, id);
      if lp.Err? {
        r := Err(lp.error);
        return;
      }
      var progId := lp.value;
      if progId != id {
        ghost var p0, n0 := progenitors, nextProgenitors;
        var first := ReorderProgenitors(progId, depth + 1);
        if first.Err? {
          r := Err(first.error);
          return;
        }
        ghost var firstPass := Forest.Reorder(RULES, p0, n0, progId, depth + 1).value;
        var ln := Lookup(nextProgenitors, progId);
        if ln.Err? {
          r := Err(ln.error);
          return;
        }
        SameShapeLookup(p0, progenitors, id);
        var rest := ReorderSiblings(id, progId, first.value, ln.value, depth, firstPass.below + {progId});
        if rest.Err? {
          r := Err(rest.error);
          return;
        }
        maxDepth := rest.value;
      }
      r := Ok(maxDepth);
    }

    /** The sibling loop of `reorder_progenitors` (src/main.rs:85-114) below
        halo `id`, whose first progenitor `first` reached `firstDepth`. It
        ends only when a link points to itself, and fails after
        `MAX_SIBLING_STEPS` turns in every build. The loop keeps the ghost
        state `st` of `Forest.SiblingPass` in step with its own. */
    method ReorderSiblings(id: U64, first: U64, firstDepth: nat, nextId: U64, depth: nat, ghost below0: set<U64>)
      returns (r: Result<nat>)
      requires depth <= |progenitors|
      requires Lookup(progenitors, id).Ok? && Lookup(nextProgenitors, first).Ok?
      modifies this`progenitors, this`nextProgenitors
      decreases |progenitors| + 1 - depth, 1
      ensures Shape(progenitors) == Shape(old(progenitors))
      ensures Shape(nextProgenitors) == Shape(old(nextProgenitors))
      ensures Forest.EndsAs(r, progenitors, nextProgenitors,
                            Forest.SiblingPass(RULES, Forest.LoopFrom(old(progenitors), old(nextProgenitors), first,
                                                                      nextId, firstDepth, below0), id, depth))
    {
      var progId, curId, next := first, first, nextId;
      var maxDepth, firstProgDepth := firstDepth, firstDepth;
      var counter := 0;
      ghost var st := Forest.LoopFrom(progenitors, nextProgenitors, first, nextId, firstDepth, below0);
      while next != curId
        invariant Shape(progenitors) == Shape(old(progenitors))
        invariant Shape(nextProgenitors) == Shape(old(nextProgenitors))
        invariant Forest.Running(RULES, st, id, depth)
        invariant st.progs == progenitors && st.next == nextProgenitors && st.leader == progId
        invariant st.cur == curId && st.nextId == next && st.maxDepth == maxDepth && st.steps == counter
        invariant maxDepth == firstProgDepth
        invariant Forest.SiblingPass(RULES, Forest.LoopFrom(old(progenitors), old(nextProgenitors), first, nextId,
                                                            firstDepth, below0), id, depth)
                  == Forest.SiblingPass(RULES, st, id, depth)
        decreases MAX_SIBLING_STEPS - counter
      {
        var turn, leader, link, leaderDepth;
        ghost var st';
        turn, leader, link, leaderDepth, st' := NextSibling(id, depth, progId, next, maxDepth, firstProgDepth, st);
        if turn.Err? {
          Forest.PassFails(RULES, st, id, depth);
          r := Err(turn.error);
          return;
        }
        curId := next;
        progId, next, maxDepth, firstProgDepth := leader, link, turn.value, leaderDepth;
        counter := counter + 1;
        if counter > MAX_SIBLING_STEPS {
          Forest.PassFails(RULES, st, id, depth);
          r := Err(TooManyProgenitors);
          return;
        }
        Forest.PassAdvances(RULES, st, id, depth, st');
        st := st';
      }
      Forest.PassStops(RULES, st, id, depth);
      r := Ok(maxDepth);
    }

    /** One turn of the sibling loop (src/main.rs:86-105) from ghost state
        `st`: sibling `next` is reordered, then `TakeTurn` reads its link and
        promotes it when it is strictly deeper. */
    method NextSibling(id: U64, depth: nat, progId: U64, next: U64, maxDepth: nat, firstProgDepth: nat,
                       ghost st: Forest.Loop)
      returns (r: Result<nat>, leader: U64, link: U64, leaderDepth: nat, ghost st': Forest.Loop)
      requires Forest.Running(RULES, st, id, depth) && !Forest.Stops(RULES, st, id) && maxDepth == firstProgDepth
      requires st.progs == progenitors && st.next == nextProgenitors && st.leader == progId
      requires st.nextId == next && st.maxDepth == maxDepth
      modifies this`progenitors, this`nextProgenitors
      decreases |progenitors| + 1 - depth, 0
      ensures Shape(progenitors) == Shape(old(progenitors))
      ensures Shape(nextProgenitors) == Shape(old(nextProgenitors))
      ensures Forest.StepEnds(RULES, st, id, depth, r, progenitors, nextProgenitors, leader, link, leaderDepth, st')
    {
      var sub := ReorderProgenitors(next, depth + 1);
      if sub.Err? {
        Forest.SubFailEnds(RULES, st, id, depth, sub, progenitors, nextProgenitors, progId, next, maxDepth);
        return Err(sub.error), progId, next, maxDepth, st;
      }
      ghost var subPass := Forest.SubPass(RULES, st, depth, sub, progenitors, nextProgenitors);
      r, leader, link, leaderDepth, st' := TakeTurn(id, depth, progId, next, maxDepth, sub.value, st, subPass);
    }

    /** The rest of a sibling turn (src/main.rs:89-104), once sibling `curId`
        has been reordered to depth `subDepth` as pass `subPass`: its link is
        read and, when it is strictly deeper than the leader, it is promoted;
        only a self-link makes it the end of the spliced list. */
    method TakeTurn(id: U64, depth: nat, progId: U64, curId: U64, maxDepth: nat, subDepth: nat,
                    ghost st: Forest.Loop, ghost subPass: Forest.Pass)
      returns (r: Result<nat>, leader: U64, link: U64, leaderDepth: nat, ghost st': Forest.Loop)
      requires Forest.Running(RULES, st, id, depth) && !Forest.Stops(RULES, st, id)
      requires Forest.Reorder(RULES, st.progs, st.next, st.nextId, depth + 1) == Ok(subPass)
      requires progenitors == subPass.progs && nextProgenitors == subPass.next && subDepth == subPass.depth
      requires st.leader == progId && st.nextId == curId && st.maxDepth == maxDepth
      modifies this`progenitors, this`nextProgenitors
      ensures Shape(progenitors) == Shape(old(progenitors))
      ensures Shape(nextProgenitors) == Shape(old(nextProgenitors))
      ensures Forest.StepEnds(RULES, st, id, depth, r, progenitors, nextProgenitors, leader, link, leaderDepth, st')
    {
      var lc := Lookup(nextProgenitors, curId);
      if lc.Err? {
        Forest.StepFails(RULES, st, id, depth);
        return Err(lc.error), progId, curId, maxDepth, st;
      }
      link := lc.value;
      if subDepth > maxDepth {
        st' := Forest.StepPromotes(RULES, st, id, depth, subPass, link);
        progenitors := Store(progenitors, id, curId);
        nextProgenitors := Splice(nextProgenitors, progId, curId, link, link == curId);
        leader, leaderDepth := curId, subDepth;
      } else {
        st' := Forest.StepKeeps(RULES, st, id, depth, subPass, link);
        leader, leaderDepth := progId, maxDepth;
      }
      r := Ok(leaderDepth);
    }

    /** The sibling loop of `walk_and_place_pixels` (src/main.rs:142-160):
        every further sibling bumps the counter and is walked in that fresh
        column. There is no interpolation and no snapshot check. The loop
        ends at a self-link; the counter may not pass `MAX_COLUMN`. What it
        visits is the sibling tour of `RULES`. */
    method WalkSiblings(id: U64, curId: U64, nextId: U64, w: Forest.Walk, refPos: Position,
                        depth: nat, dist: (Position, Position) -> real)
      returns (r: Result<Forest.Walk>, ghost added: seq<Pixel>, ghost halos: seq<U64>)
      requires depth <= |progenitors|
      decreases |progenitors| + 1 - depth, 1
      ensures r.Err? ==> r.error != ShapeMismatch
      ensures r.Ok? ==> r.value.pixels == w.pixels + added && w.maxCol <= r.value.maxCol
      ensures r.Ok? ==> PixelsOf(added, halos, 0, masses, types, positions, refPos, dist)
      ensures r.Ok? ==> FreshColumns(added, w.maxCol, r.value.maxCol)
      ensures r.Ok? && LinksEarlier(progenitors) ==> CellsDistinct(added)
      ensures r.Ok? ==> Forest.SiblingTour(RULES, progenitors, nextProgenitors, id, curId, nextId, w.maxCol, depth)
                        == Ok(Forest.Route(halos, ColsOf(added), r.value.maxCol))
    {
      added, halos := [], [];
      var cur, next, acc := curId, nextId, w;
      ghost var whole := Forest.SiblingTour(RULES, progenitors, nextProgenitors, id, curId, nextId, w.maxCol, depth);
      Forest.ResumesStart(whole);
      while next != cur
        invariant acc.pixels == w.pixels + added && w.maxCol <= acc.maxCol
        invariant PixelsOf(added, halos, 0, masses, types, positions, refPos, dist)
        invariant FreshColumns(added, w.maxCol, acc.maxCol)
        invariant LinksEarlier(progenitors) ==> CellsDistinct(added)
        invariant Forest.Resumes(whole, halos, ColsOf(added),
                    Forest.SiblingTour(RULES, progenitors, nextProgenitors, id, cur, next, acc.maxCol, depth))
        decreases MAX_COLUMN + 1 - if acc.maxCol <= MAX_COLUMN then acc.maxCol else MAX_COLUMN + 1
      {
        var step, link;
        ghost var subAdded, subHalos;
        step, link, subAdded, subHalos := WalkSibling(id, cur, next, acc, refPos, depth, dist);
        if step.Err? {
          return Err(step.error), added, halos;
        }
        FreshConcat(added, subAdded, w.maxCol, acc.maxCol, step.value.maxCol);
        PixelsOfConcat(added, halos, subAdded, subHalos, 0, masses, types, positions, refPos, dist);
        AppendTwice(w.pixels, added, subAdded);
        Forest.ResumesTrans(whole, halos, ColsOf(added),
          Forest.SiblingTour(RULES, progenitors, nextProgenitors, id, cur, next, acc.maxCol, depth),
          subHalos, ColsOf(subAdded),
          Forest.SiblingTour(RULES, progenitors, nextProgenitors, id, next, link, step.value.maxCol, depth));
        ColsOfConcat(added, subAdded);
        added, halos := added + subAdded, halos + subHalos;
        acc := step.value;
        cur, next := next, link;
      }
      assert halos + [] == halos && ColsOf(added) + [] == ColsOf(added);
      r := Ok(acc);
    }

    /** One turn of the walk's sibling loop (src/main.rs:146-159): the counter
        is bumped and sibling `next` walked in that fresh column, its link is
        read, and the walk fails once the counter passes `MAX_COLUMN`. */
    method WalkSibling(id: U64, cur: U64, next: U64, acc: Forest.Walk, refPos: Position,
                       depth: nat, dist: (Position, Position) -> real)
      returns (r: Result<Forest.Walk>, link: U64, ghost subAdded: seq<Pixel>, ghost subHalos: seq<U64>)
      requires depth <= |progenitors| && next != cur
      decreases |progenitors| + 1 - depth, 0
      ensures r.Err? ==> r.error != ShapeMismatch
      ensures r.Ok? ==> r.value.pixels == acc.pixels + subAdded && acc.maxCol < r.value.maxCol <= MAX_COLUMN
      ensures r.Ok? ==> PixelsOf(subAdded, subHalos, 0, masses, types, positions, refPos, dist)
      ensures r.Ok? ==> Columns(subAdded, acc.maxCol + 1, acc.maxCol + 1, r.value.maxCol)
      ensures r.Ok? && LinksEarlier(progenitors) ==> CellsDistinct(subAdded)
      ensures r.Ok? ==>
        Forest.Resumes(Forest.SiblingTour(RULES, progenitors, nextProgenitors, id, cur, next, acc.maxCol, depth),
                       subHalos, ColsOf(subAdded),
                       Forest.SiblingTour(RULES, progenitors, nextProgenitors, id, next, link, r.value.maxCol, depth))
    {
      var m := acc.maxCol;
      var sub;
      sub, subAdded, subHalos := WalkAndPlacePixels(next, acc.pixels, refPos, m + 1, m + 1, depth + 1, dist);
      if sub.Err? {
        return sub, next, subAdded, subHalos;
      }
      var lc := Lookup(nextProgenitors, next);
      if lc.Err? {
        return Err(lc.error), next, subAdded, subHalos;
      }
      link := lc.value;
      if sub.value.maxCol > MAX_COLUMN {
        return Err(TooWide), link, subAdded, subHalos;
      }
      Forest.SiblingTourStep(RULES, progenitors, nextProgenitors, id, cur, next, m, depth,
                             Forest.Route(subHalos, ColsOf(subAdded), sub.value.maxCol), link);
      r := sub;
    }

    /** The progenitor part of `walk_and_place_pixels` (src/main.rs:136-161)
        for a halo `id` whose first progenitor is `progId`: the first
        progenitor's subtree in column `col`, then the further siblings in
        fresh columns. */
    method WalkProgenitors(id: U64, progId: U64, w: Forest.Walk, refPos: Position, col: nat,
                           depth: nat, dist: (Position, Position) -> real)
      returns (r: Result<Forest.Walk>, ghost added: seq<Pixel>, ghost halos: seq<U64>)
      requires depth <= |progenitors|
      requires Lookup(progenitors, id) == Ok(progId) && progId != id
      decreases |progenitors| + 1 - depth, 2
      ensures r.Err? ==> r.error != ShapeMismatch
      ensures r.Ok? ==> r.value.pixels == w.pixels + added && w.maxCol <= r.value.maxCol
      ensures r.Ok? ==> PixelsOf(added, halos, 0, masses, types, positions, refPos, dist)
      ensures r.Ok? ==> Columns(added, col, w.maxCol, r.value.maxCol)
      ensures r.Ok? && LinksEarlier(progenitors) && col <= w.maxCol ==>
        ColumnBelow(added, col, IdToSnap(id)) && CellsDistinct(added)
      ensures r.Ok? ==> Forest.Above(RULES, progenitors, nextProgenitors, id, progId, col, w.maxCol, depth)
                        == Ok(Forest.Route(halos, ColsOf(added), r.value.maxCol))
    {
      var first;
      first, added, halos := WalkAndPlacePixels(progId, w.pixels, refPos, col, w.maxCol, depth + 1, dist);
      if first.Err? {
        return first, added, halos;
      }
      var mid := first.value;
      var ln := Lookup(nextProgenitors, progId);
      if ln.Err? {
        return Err(ln.error), added, halos;
      }
      var rest;
      ghost var restAdded, restHalos;
      rest, restAdded, restHalos := WalkSiblings(id, progId, ln.value, mid, refPos, depth, dist);
      if rest.Err? {
        return rest, added, halos;
      }
      ColumnsJoin(added, restAdded, col, w.maxCol, mid.maxCol, rest.value.maxCol, IdToSnap(progId), IdToSnap(id));
      ColsOfConcat(added, restAdded);
      PixelsOfConcat(added, halos, restAdded, restHalos, 0, masses, types, positions, refPos, dist);
      AppendTwice(w.pixels, added, restAdded);
      added, halos := added + restAdded, halos + restHalos;
      r := rest;
    }

    /** `walk_and_place_pixels` (src/main.rs:120-177) without the `debug`
        printing: the depth-first walk of src/lib.rs with exactly one pixel
        per visited halo. As there, `depth` only bounds the recursion.

        With progenitors earlier than their descendants, no two pixels share
        a cell; the rows of further siblings are not checked against the
        descendant's, so nothing bounds the rows outside column `col`. */
    method WalkAndPlacePixels(id: U64, pixels: seq<Pixel>, refPos: Position, col: nat, maxCol: nat,
                              depth: nat, dist: (Position, Position) -> real)
      returns (r: Result<Forest.Walk>, ghost added: seq<Pixel>, ghost halos: seq<U64>)
      decreases |progenitors| + 1 - depth, 3
      ensures r.Err? ==> r.error != ShapeMismatch
      ensures r.Ok? ==> r.value.pixels == pixels + added && maxCol <= r.value.maxCol
      ensures r.Ok? ==> |added| >= 1 && |halos| == |added|
      ensures r.Ok? ==> PixelsOf(added, halos, 0, masses, types, positions, refPos, dist)
      ensures r.Ok? ==> halos[|halos| - 1] == id && added[|added| - 1].col == col
      ensures r.Ok? ==> added[|added| - 1].snap == IdToSnap(id)
      ensures r.Ok? ==> Columns(added, col, maxCol, r.value.maxCol)
      ensures r.Ok? && LinksEarlier(progenitors) && col <= maxCol ==>
        ColumnAtMost(added, col, IdToSnap(id)) && CellsDistinct(added)
      ensures r.Ok? ==> Forest.Tour(RULES, progenitors, nextProgenitors, id, col, maxCol, depth)
                        == Ok(Forest.Route(halos, ColsOf(added), r.value.maxCol))
    {
      added, halos := [], [];
      if depth > |progenitors| {
        return Err(DepthExceeded), added, halos;
      }
      var lp := Lookup(progenitors, id);
      if lp.Err? {
        return Err(lp.error), added, halos;
      }
      var snap := IdToSnap(id);
      var progId := lp.value;
      var w := Forest.Walk(pixels, maxCol);
      if progId != id {
        var sub;
        sub, added, halos := WalkProgenitors(id, progId, w, refPos, col, depth, dist);
        if sub.Err? {
          return sub, added, halos;
        }
        w := sub.value;
      }
      var pos := Lookup(positions, id);
      var mass := Lookup(masses, id);
      var typ := Lookup(types, id);
      if pos.Err? || mass.Err? || typ.Err? {
        return Err(IndexOutOfRange), added, halos;
      }
      var own := Pixel(snap, col, mass.value, typ.value, dist(pos.value, refPos));
      OwnPixelCloses(progenitors, nextProgenitors, masses, types, positions, refPos, dist, id, progId, col, maxCol,
                     depth, LinksEarlier(progenitors) && col <= maxCol, halos, added, own, w.maxCol);
      AppendTwice(pixels, added, [own]);
      added, halos := added + [own], halos + [id];
      r := Ok(w.(pixels := w.pixels + [own]));
    }

    /** `place_pixels` (src/main.rs:234-265): the walk from the root in column
        0, then the normalization of src/lib.rs. */
    method PlacePixels(id: U64, dist: (Position, Position) -> real)
      returns (r: Result<Layout>, ghost halos: seq<U64>)
      ensures r.Err? ==> r.error != ShapeMismatch
      ensures r.Ok? ==> Lookup(positions, id).Ok?
      ensures r.Ok? ==> LaidOut(r.value, halos, id, progenitors, nextProgenitors, masses, types, positions,
                                Lookup(positions, id).value, dist)
    {
      halos := [];
      var refPos := Lookup(positions, id);
      if refPos.Err? {
        return Err(refPos.error), halos;
      }
      var walk;
      ghost var added;
      walk, added, halos := WalkAndPlacePixels(id, [], refPos.value, 0, 0, 0, dist);
      if walk.Err? {
        return Err(walk.error), halos;
      }
      assert walk.value.pixels == added;
      var layout := Normalize(walk.value.pixels);
      PlacedImage(progenitors, nextProgenitors, masses, types, positions, id, refPos.value, dist,
                  added, halos, walk.value.maxCol, layout);
      r := Ok(layout);
    }
  }

  /** Tree image `t` is what a pass makes of target `id` on links `before`:
      the reorder under `RULES` goes through and leaves links `after`; the
      root's position can be read; the layout, with `halos` naming the halo
      of each pixel, is laid out on the new links; and the rasters are
      scattered from it, the type raster filled with 0. */
  ghost predicate Made(t: TreeImage, id: U64, halos: seq<U64>, before: Links, after: Links, masses: Table<real>,
                       types: Table<int>, positions: Table<Position>, dist: (Position, Position) -> real)
  {
    && t.id == id && Rendered(t, 0)
    && Forest.ReordersTo(RULES, before.progs, before.next, id, after.progs, after.next)
    && Lookup(positions, id).Ok?
    && LaidOut(t.layout, halos, id, after.progs, after.next, masses, types, positions,
               Lookup(positions, id).value, dist)
  }

  /** The passes `0..k` made `images` from `ids`, each on the links the one
      before it left. */
  ghost predicate MadeAll(images: seq<TreeImage>, ids: seq<U64>, halos: seq<seq<U64>>, links: seq<Links>, k: nat,
                          masses: Table<real>, types: Table<int>, positions: Table<Position>,
                          dist: (Position, Position) -> real)
  {
    && k <= |ids| && |images| == k && |halos| == k && |links| == k + 1
    && forall q :: 0 <= q < k ==>
      Made(images[q], ids[q], halos[q], links[q], links[q + 1], masses, types, positions, dist)
  }

  /** One more pass extends the run. */
  lemma MadeAppend(images: seq<TreeImage>, ids: seq<U64>, halos: seq<seq<U64>>, links: seq<Links>, k: nat,
                   masses: Table<real>, types: Table<int>, positions: Table<Position>,
                   dist: (Position, Position) -> real, t: TreeImage, h: seq<U64>, after: Links)
    requires MadeAll(images, ids, halos, links, k, masses, types, positions, dist) && k < |ids|
    requires Made(t, ids[k], h, links[k], after, masses, types, positions, dist)
    ensures MadeAll(images + [t], ids, halos + [h], links + [after], k + 1, masses, types, positions, dist)
  {
    var images', halos', links' := images + [t], halos + [h], links + [after];
    forall q | 0 <= q < k + 1
      ensures Made(images'[q], ids[q], halos'[q], links'[q], links'[q + 1], masses, types, positions, dist)
    {
      if q < k {
        assert images'[q] == images[q] && halos'[q] == halos[q] && links'[q] == links[q] && links'[q + 1] == links[q + 1];
      }
    }
  }

  /** One pass of the loop in `main` (src/main.rs:281-316): reorder, lay out,
      and build the three rasters, the type raster zero-filled like the
      others. */
  method ProcessTarget(forest: HaloProps, id: U64, dist: (Position, Position) -> real)
    returns (r: Result<TreeImage>, ghost halos: seq<U64>)
    modifies forest`progenitors, forest`nextProgenitors
    ensures Shape(forest.progenitors) == Shape(old(forest.progenitors))
    ensures Shape(forest.nextProgenitors) == Shape(old(forest.nextProgenitors))
    ensures r.Err? ==> r.error != ShapeMismatch
    ensures r.Ok? ==> r.value.lastSnap < U32_LIMIT
    ensures r.Ok? ==>
      Made(r.value, id, halos, Links(old(forest.progenitors), old(forest.nextProgenitors)),
           Links(forest.progenitors, forest.nextProgenitors), forest.masses, forest.types, forest.positions, dist)
  {
    halos := [];
    var depth := forest.ReorderProgenitors(id, 0);
    if depth.Err? {
      return Err(depth.error), halos;
    }
    var placed;
    placed, halos := forest.PlacePixels(id, dist);
    if placed.Err? {
      return Err(placed.error), halos;
    }
    var layout := placed.value;
    LastSnapOfImage(layout, halos, id, forest.masses, forest.types, forest.positions,
                    Lookup(forest.positions, id).value, dist);
    r := Render(id, layout, 0);
    assert r.Ok?;
  }

  /** The last snapshot of an image is that of one of its halos, so it fits
      the `u32` attribute. */
  lemma LastSnapOfImage(layout: Layout, halos: seq<U64>, root: U64, masses: Table<real>,
                        types: Table<int>, positions: Table<Position>, refPos: Position,
                        dist: (Position, Position) -> real)
    requires ImageOf(layout, halos, root, masses, types, positions, refPos, dist)
    ensures layout.props.lastSnap < U32_LIMIT
  {
    var ps := layout.pixels;
    PixelsOfEach(ps, halos, layout.props.firstSnap, masses, types, positions, refPos, dist);
    var j :| 0 <= j < |ps| && ps[j].snap + 1 == layout.props.nRows;
    assert IsPixelOf(ps[j], halos[j], layout.props.firstSnap, masses, types, positions, refPos, dist);
    SnapshotFitsU32(halos[j]);
  }

  /** Pixel `k` is the last in list order that lands on cell `(r, c)`. */
  ghost predicate LastOn(ps: seq<Pixel>, k: nat, r: nat, c: nat) {
    && k < |ps| && Cell(ps[k]) == (r, c)
    && forall j :: k < j < |ps| ==> Cell(ps[j]) != (r, c)
  }

  /** A cell some pixel lands on has a last pixel on it. */
  lemma {:induction false} LastOnExists(ps: seq<Pixel>, r: nat, c: nat) returns (k: nat)
    requires (r, c) in CellSet(ps)
    ensures LastOn(ps, k, r, c)
    decreases |ps|
  {
    var n := |ps| - 1;
    if Cell(ps[n]) == (r, c) {
      k := n;
    } else {
      assert CellSet(ps) == CellSet(ps[..n]) + {Cell(ps[n])};
      k := LastOnExists(ps[..n], r, c);
      assert ps[..n][k] == ps[k];
      forall j | k < j < |ps|
        ensures Cell(ps[j]) != (r, c)
      {
        if j < n {
          assert ps[..n][j] == ps[j];
        }
      }
    }
  }

  /** The type raster filled with 0 (src/main.rs:303-305) reads 0 in a cell
      exactly when no pixel lands on it or the last pixel on it has type 0:
      it cannot tell a type-0 halo from an empty cell. */
  lemma TypeZeroLooksEmpty(ps: seq<Pixel>, r: nat, c: nat)
    ensures CellValue(ps, TypeOf, 0, r, c) == 0 <==>
      (r, c) !in CellSet(ps) || exists k: nat :: LastOn(ps, k, r, c) && ps[k].typ == 0
  {
    CellValueUntouched(ps, TypeOf, 0, r, c);
    if (r, c) in CellSet(ps) {
      var k := LastOnExists(ps, r, c);
      CellValueLast(ps, TypeOf, 0, k);
      forall k': nat | LastOn(ps, k', r, c)
        ensures k' == k
      {
        assert !(k < k') && !(k' < k);
      }
    }
  }

  /** The loop of `main` over the final descendants (src/main.rs:277-316). */
  method GenImages(forest: HaloProps, ids: seq<U64>, dist: (Position, Position) -> real)
    returns (r: Result<seq<TreeImage>>, ghost links: seq<Links>, ghost halos: seq<seq<U64>>)
    modifies forest`progenitors, forest`nextProgenitors
    ensures Shape(forest.progenitors) == Shape(old(forest.progenitors))
    ensures Shape(forest.nextProgenitors) == Shape(old(forest.nextProgenitors))
    ensures r.Err? ==> r.error != ShapeMismatch
    ensures r.Ok? ==> MadeAll(r.value, ids, halos, links, |ids|, forest.masses, forest.types, forest.positions, dist)
    ensures r.Ok? ==> links[0] == Links(old(forest.progenitors), old(forest.nextProgenitors))
    ensures r.Ok? ==> links[|ids|] == Links(forest.progenitors, forest.nextProgenitors)
  {
    var images: seq<TreeImage> := [];
    links, halos := [Links(forest.progenitors, forest.nextProgenitors)], [];
    var k := 0;
    while k < |ids|
      invariant MadeAll(images, ids, halos, links, k, forest.masses, forest.types, forest.positions, dist)
      invariant Shape(forest.progenitors) == Shape(old(forest.progenitors))
      invariant Shape(forest.nextProgenitors) == Shape(old(forest.nextProgenitors))
      invariant links[0] == Links(old(forest.progenitors), old(forest.nextProgenitors))
      invariant links[k] == Links(forest.progenitors, forest.nextProgenitors)
    {
      var t;
      ghost var h;
      t, h := ProcessTarget(forest, ids[k], dist);
      if t.Err? {
        return Err(t.error), links, halos;
      }
      MadeAppend(images, ids, halos, links, k, forest.masses, forest.types, forest.positions, dist, t.value, h,
                 Links(forest.progenitors, forest.nextProgenitors));
      images, links, halos := images + [t.value], links + [Links(forest.progenitors, forest.nextProgenitors)], halos + [h];
      k := k + 1;
    }
    r := Ok(images);
  }

  /** The sum of the first `n` cells of row `i`. */
  ghost function RowSum(a: array2<nat>, i: nat, n: nat): nat
    reads a
    requires i < a.Length0 && n <= a.Length1
  {
    if n == 0 then 0 else RowSum(a, i, n - 1) + a[i, n - 1]
  }

  /** The sum of the first `m` rows. */
  ghost function GridSum(a: array2<nat>, m: nat): nat
    reads a
    requires m <= a.Length0
  {
    if m == 0 then 0 else GridSum(a, m - 1) + RowSum(a, m - 1, a.Length1)
  }

  /** The array holds 1 in the cells of `cells` and 0 elsewhere. */
  ghost predicate Marks(a: array2<nat>, cells: set<(nat, nat)>)
    reads a
  {
    forall i, j :: 0 <= i < a.Length0 && 0 <= j < a.Length1 ==> a[i, j] == if (i, j) in cells then 1 else 0
  }

  /** A marked row sums to the number of its marked cells. */
  lemma {:induction false} RowCount(a: array2<nat>, cells: set<(nat, nat)>, i: nat, n: nat)
    requires Marks(a, cells) && i < a.Length0 && n <= a.Length1
    ensures RowSum(a, i, n) == |set c | c in cells && c.0 == i && c.1 < n|
  {
    if n > 0 {
      RowCount(a, cells, i, n - 1);
      var before := set c | c in cells && c.0 == i && c.1 < n - 1;
      var after := set c | c in cells && c.0 == i && c.1 < n;
      if (i, n - 1) in cells {
        assert after == before + {(i, n - 1)};
      } else {
        assert after == before;
      }
    }
  }

  /** A marked array sums to the number of its marked cells. */
  lemma {:induction false} GridCount(a: array2<nat>, cells: set<(nat, nat)>, m: nat)
    requires Marks(a, cells) && m <= a.Length0
    ensures GridSum(a, m) == |set c | c in cells && c.0 < m && c.1 < a.Length1|
  {
    if m > 0 {
      GridCount(a, cells, m - 1);
      RowCount(a, cells, m - 1, a.Length1);
      var before := set c | c in cells && c.0 < m - 1 && c.1 < a.Length1;
      var row := set c | c in cells && c.0 == m - 1 && c.1 < a.Length1;
      var after := set c | c in cells && c.0 < m && c.1 < a.Length1;
      assert after == before + row;
      assert before * row == {};
    }
  }

  /** `test_image.sum()`: the sum of all cells. */
  method SumImage(a: array2<nat>) returns (total: nat)
    ensures total == GridSum(a, a.Length0)
  {
    total := 0;
    var i := 0;
    while i < a.Length0
      invariant 0 <= i <= a.Length0
      invariant total == GridSum(a, i)
    {
      var j := 0;
      var row := 0;
      while j < a.Length1
        invariant 0 <= j <= a.Length1
        invariant row == RowSum(a, i, j)
      {
        row := row + a[i, j];
        j := j + 1;
      }
      total := total + row;
      i := i + 1;
    }
  }

  function One(p: Pixel): nat {
    1
  }

  /** The check of the `pixel_counts` test (src/main.rs:339-346) on one
      layout: mark the cell of every pixel with 1 in a zeroed array of the
      layout's box and compare the sum with the number of pixels. It passes
      exactly when no two pixels share a cell. */
  method CountCheck(layout: Layout) returns (r: Result<bool>)
    ensures r.Ok? <==> forall k :: 0 <= k < |layout.pixels| ==>
      layout.pixels[k].snap < layout.props.nRows && layout.pixels[k].col < layout.props.nCols
    ensures r.Err? ==> r.error == ShapeMismatch
    ensures r.Ok? ==> (r.value <==> CellsDistinct(layout.pixels))
  {
    var ps := layout.pixels;
    var image := new nat[layout.props.nRows, layout.props.nCols]((i, j) => 0);
    var marked := Scatter(image, ps, One);
    if marked.Err? {
      return Err(marked.error);
    }
    forall i, j | 0 <= i < image.Length0 && 0 <= j < image.Length1
      ensures image[i, j] == if (i, j) in CellSet(ps) then 1 else 0
    {
      CellValueUntouched(ps, One, 0, i, j);
      CellValueHit(ps, One, 0, i, j);
    }
    var total := SumImage(image);
    GridCount(image, CellSet(ps), image.Length0);
    assert (set c | c in CellSet(ps) && c.0 < image.Length0 && c.1 < image.Length1) == CellSet(ps);
    CellCount(ps);
    r := Ok(total == |ps|);
  }

  /** The `pixel_counts` test (src/main.rs:331-348): every final descendant is
      reordered and laid out in turn, and the check runs on its layout.
      `Ok(false)` is the test's failed assertion, which stops the run; a
      panic of the reorder or the layout is an `Err`. Ghost result: `links`
      records the links before the run and after every reorder. A failed
      check can only come from a tree laid out with some link that does not
      point to an earlier snapshot: the links the run stopped with. */
  method PixelCountsTest(forest: HaloProps, ids: seq<U64>, dist: (Position, Position) -> real)
    returns (r: Result<bool>, ghost links: seq<Links>)
    modifies forest`progenitors, forest`nextProgenitors
    ensures r.Err? ==> r.error != ShapeMismatch
    ensures r == Ok(false) ==> !LinksEarlier(forest.progenitors)
    ensures 1 <= |links| <= |ids| + 1 && (r == Ok(true) ==> |links| == |ids| + 1)
    ensures links[0] == Links(old(forest.progenitors), old(forest.nextProgenitors))
    ensures r.Ok? ==> links[|links| - 1] == Links(forest.progenitors, forest.nextProgenitors)
    ensures ReorderChain(RULES, links, ids)
  {
    links := [Links(forest.progenitors, forest.nextProgenitors)];
    var k := 0;
    while k < |ids|
      invariant 0 <= k <= |ids| && |links| == k + 1
      invariant links[0] == Links(old(forest.progenitors), old(forest.nextProgenitors))
      invariant links[k] == Links(forest.progenitors, forest.nextProgenitors)
      invariant ReorderChain(RULES, links, ids)
    {
      ghost var halos;
      var depth := forest.ReorderProgenitors(ids[k], 0);
      if depth.Err? {
        return Err(depth.error), links;
      }
      ReorderChainAppend(RULES, links, ids, Links(forest.progenitors, forest.nextProgenitors));
      links := links + [Links(forest.progenitors, forest.nextProgenitors)];
      var placed;
      placed, halos := forest.PlacePixels(ids[k], dist);
      if placed.Err? {
        return Err(placed.error), links;
      }
      var passed := CountCheck(placed.value);
      assert passed.Ok?;
      if !passed.value {
        return Ok(false), links;
      }
      k := k + 1;
    }
    r := Ok(true);
  }
}

/** The merger-tree reorder and the pixel layout of src/lib.rs, as methods of
    the forest (`HaloProps`, src/lib.rs:28-35). Only the two link arrays are
    ever written; masses, types and positions are read-only. */
module Forest {
  import opened Errors
  import opened HaloIds
  import opened Tables
  import opened SiblingLists
  import opened Pixels

  /** The debug-build cap on sibling steps of one reorder loop (src/lib.rs:111). */
  const MAX_SIBLING_STEPS: nat := 5000

  /** The debug-build cap on the column counter of the layout (src/lib.rs:235). */
  const MAX_COLUMN: nat := 50000

  /** Depth bookkeeping of the sibling loop: the sibling at `lead` reached the
      greatest depth, and every sibling before it was strictly shallower, so a
      tie never displaces the sibling found first. */
  ghost predicate FirstMaxAt(depths: seq<nat>, lead: nat) {
    && lead < |depths|
    && (forall j :: 0 <= j < |depths| ==> depths[j] <= depths[lead])
    && (forall j :: 0 <= j < lead ==> depths[j] < depths[lead])
  }

  /** One step of the sibling loop of the reorder: a sibling of depth `d` joins
      the list; it becomes the lead exactly when it is strictly deeper than the
      current one, and every earlier sibling keeps its place. */
  lemma FirstMaxPush(siblings: seq<U64>, depths: seq<nat>, lead: nat, depth: nat, s: U64, d: nat)
    requires |siblings| == |depths| && FirstMaxAt(depths, lead) && depth < d
    requires forall k :: 0 <= k < |depths| ==> depth < depths[k]
    ensures FirstMaxAt(depths + [d], if d > depths[lead] then |depths| else lead)
    ensures forall k :: 0 <= k < |depths| + 1 ==> depth < (depths + [d])[k]
    ensures (siblings + [s])[0] == siblings[0] && (siblings + [s])[lead] == siblings[lead]
    ensures (depths + [d])[lead] == depths[lead]
    ensures (siblings + [s])[|siblings|] == s && (depths + [d])[|depths|] == d
  {
    var ds := depths + [d];
    assert forall k :: 0 <= k < |depths| ==> ds[k] == depths[k];
  }

  /** What tells the two versions of the reorder and the walk apart: the
      cap on sibling turns of the reorder, whether a link back to the halo
      itself also ends a sibling list, whether the reorder checks the depth
      it reached against the number of snapshots, the cap on the column
      counter of the walk, and whether the walk takes the snapshot gap of
      every edge (failing when it underflows). */
  datatype Rules = Rules(cap: nat, stopsAtId: bool, checksDepth: bool, maxColumn: nat, checksGap: bool)

  /** The rules of src/lib.rs:73-126 and src/lib.rs:199-251. */
  const LIBRARY: Rules := Rules(MAX_SIBLING_STEPS, true, true, MAX_COLUMN, true)

  /** The two `&mut` arguments of the walk: the pixel list and the last column
      handed out. */
  datatype Walk = Walk(pixels: seq<Pixel>, maxCol: nat)

  function Max(a: nat, b: nat): nat {
    if a >= b then a else b
  }

  /** What a reorder pass leaves behind: the depth it returns, both link
      arrays, the halos it reordered below its own (`below`), and the trace of
      the sibling loop at its own level: the siblings visited, first
      progenitor first; the depth each of them returned; the position of the
      one left in the first-progenitor slot. */
  datatype Pass = Pass(depth: nat, progs: Table<U64>, next: Table<U64>, below: set<U64>,
                       siblings: seq<U64>, depths: seq<nat>, lead: nat)

  /** The state of the sibling loop of the reorder (src/lib.rs:85-117): the
      links, the sibling `leader` in the first-progenitor slot, the sibling
      `cur` visited last and its link `nextId`, the greatest depth so far,
      the steps taken, and the trace so far. */
  datatype Loop = Loop(progs: Table<U64>, next: Table<U64>, leader: U64, cur: U64, nextId: U64,
                       maxDepth: nat, steps: nat, below: set<U64>,
                       siblings: seq<U64>, depths: seq<nat>, lead: nat)

  /** A loop state the sibling loop of halo `id` at `depth` can run from. */
  ghost predicate Running(rules: Rules, l: Loop, id: U64, depth: nat) {
    && depth <= |l.progs| && l.steps <= rules.cap
    && Lookup(l.progs, id).Ok? && Lookup(l.next, l.leader).Ok?
  }

  /** The loop test (src/lib.rs:89): a link to itself or back to `id` ends
      the sibling list. */
  predicate Stops(rules: Rules, l: Loop, id: U64) {
    l.nextId == l.cur || (rules.stopsAtId && l.nextId == id)
  }

  /** The loop that starts once the first progenitor `first` of `id` was
      reordered to depth `firstDepth` and its link `nextId` read. */
  function LoopFrom(progs: Table<U64>, next: Table<U64>, first: U64, nextId: U64, firstDepth: nat,
                    below: set<U64>): Loop
  {
    Loop(progs, next, first, first, nextId, firstDepth, 0, below, [first], [firstDepth], 0)
  }

  /** Table `b` holds what `a` holds in the first-progenitor slot of every
      halo other than `id` and the halos in `below`. */
  ghost predicate Keeps(a: Table<U64>, b: Table<U64>, below: set<U64>, id: U64) {
    forall x :: x != id && x !in below ==> Lookup(b, x) == Lookup(a, x)
  }

  /** A pass over `mid` followed by a pass over `id` that counts `mid` and
      what the first one reordered among its own. */
  lemma KeepsChain(a: Table<U64>, b: Table<U64>, c: Table<U64>, belowAB: set<U64>, belowBC: set<U64>,
                   mid: U64, id: U64)
    requires Keeps(a, b, belowAB, mid) && Keeps(b, c, belowBC, id) && belowAB + {mid} <= belowBC
    ensures Keeps(a, c, belowBC, id)
  {
  }

  /** Two stretches of the same sibling loop. */
  lemma KeepsTrans(a: Table<U64>, b: Table<U64>, c: Table<U64>, belowAB: set<U64>, belowBC: set<U64>, id: U64)
    requires Keeps(a, b, belowAB, id) && Keeps(b, c, belowBC, id) && belowAB <= belowBC
    ensures Keeps(a, c, belowBC, id)
  {
  }

  /** `reorder_progenitors` (src/lib.rs:73-126) as a recursive definition on
      the two link arrays: every nested call sees the links the calls before
      it left, and every panic of the debug build is an `Err`. */
  ghost function Reorder(rules: Rules, progs: Table<U64>, next: Table<U64>, id: U64, depth: nat): (r: Result<Pass>)
    decreases |progs| + 1 - depth, 2
    ensures r.Ok? ==> Shape(r.value.progs) == Shape(progs) && Shape(r.value.next) == Shape(next)
    ensures r.Ok? ==> depth <= r.value.depth && (rules.checksDepth ==> r.value.depth <= |progs|)
    ensures r.Ok? ==> Lookup(progs, id).Ok?
    ensures r.Ok? ==> Keeps(progs, r.value.progs, r.value.below, id) && Keeps(next, r.value.next, r.value.below, id)
    ensures r.Err? ==> r.error != ShapeMismatch
  {
    if depth > |progs| then Err(DepthExceeded)
    else match Lookup(progs, id)
      case Err(e) => Err(e)
      case Ok(progId) =>
        if progId == id then Ok(Pass(depth, progs, next, {}, [], [], 0))
        else match Reorder(rules, progs, next, progId, depth + 1)
          case Err(e) => Err(e)
          case Ok(first) =>
            match Lookup(first.next, progId)
            case Err(e) => Err(e)
            case Ok(nextId) =>
              assert Lookup(first.progs, id).Ok? by { SameShapeLookup(progs, first.progs, id); }
              match SiblingPass(rules, LoopFrom(first.progs, first.next, progId, nextId, first.depth,
                                         first.below + {progId}), id, depth)
              case Err(e) => Err(e)
              case Ok(pass) =>
                KeepsChain(progs, first.progs, pass.progs, first.below, pass.below, progId, id);
                KeepsChain(next, first.next, pass.next, first.below, pass.below, progId, id);
                if rules.checksDepth && pass.depth > |progs| then Err(DepthExceeded) else Ok(pass)
  }

  /** The sibling loop run to its end from state `l`. */
  ghost function SiblingPass(rules: Rules, l: Loop, id: U64, depth: nat): (r: Result<Pass>)
    requires Running(rules, l, id, depth)
    decreases |l.progs| + 1 - depth, 1, rules.cap - l.steps
    ensures r.Ok? ==> Shape(r.value.progs) == Shape(l.progs) && Shape(r.value.next) == Shape(l.next)
    ensures r.Ok? ==> l.maxDepth <= r.value.depth && l.below <= r.value.below
    ensures r.Ok? ==> Keeps(l.progs, r.value.progs, r.value.below, id)
    ensures r.Ok? && l.leader in l.below ==> Keeps(l.next, r.value.next, r.value.below, id)
    ensures r.Err? ==> r.error != ShapeMismatch
  {
    if Stops(rules, l, id) then Ok(Pass(l.maxDepth, l.progs, l.next, l.below, l.siblings, l.depths, l.lead))
    else match SiblingStep(rules, l, id, depth)
      case Err(e) => Err(e)
      case Ok(l') =>
        var r := SiblingPass(rules, l', id, depth);
        if r.Ok? then
          KeepsTrans(l.progs, l'.progs, r.value.progs, l'.below, r.value.below, id);
          if l.leader in l.below then KeepsTrans(l.next, l'.next, r.value.next, l'.below, r.value.below, id); r
          else r
        else r
  }

  /** One turn of the sibling loop (src/lib.rs:90-116): the next sibling is
      reordered and its link read; it takes the first-progenitor slot, and
      is spliced to the head of the list, when strictly deeper than every
      sibling before it; then the step is counted against the cap. */
  ghost function SiblingStep(rules: Rules, l: Loop, id: U64, depth: nat): (r: Result<Loop>)
    requires Running(rules, l, id, depth)
    decreases |l.progs| + 1 - depth, 0
    ensures r.Ok? ==> Running(rules, r.value, id, depth)
    ensures r.Ok? ==> Shape(r.value.progs) == Shape(l.progs) && Shape(r.value.next) == Shape(l.next)
    ensures r.Ok? ==> r.value.steps == l.steps + 1 && l.maxDepth <= r.value.maxDepth && l.below <= r.value.below
    ensures r.Ok? ==> Keeps(l.progs, r.value.progs, r.value.below, id)
    ensures r.Ok? && l.leader in l.below ==> r.value.leader in r.value.below && Keeps(l.next, r.value.next, r.value.below, id)
    ensures r.Err? ==> r.error != ShapeMismatch
  {
    match Reorder(rules, l.progs, l.next, l.nextId, depth + 1)
    case Err(e) => Err(e)
    case Ok(sub) =>
      match Lookup(sub.next, l.nextId)
      case Err(e) => Err(e)
      case Ok(after) =>
        assert Lookup(sub.progs, id).Ok? && Lookup(sub.next, l.leader).Ok? by {
          SameShapeLookup(l.progs, sub.progs, id);
          SameShapeLookup(l.next, sub.next, l.leader);
        }
        if l.steps + 1 > rules.cap then Err(TooManyProgenitors)
        else
          var l' := Turn(rules, l, id, sub, after);
          KeepsChain(l.progs, sub.progs, l'.progs, sub.below, l'.below, l.nextId, id);
          if l.leader in l.below then KeepsChain(l.next, sub.next, l'.next, sub.below, l'.below, l.nextId, id); Ok(l')
          else Ok(l')
  }

  /** The state a turn leaves once sibling `l.nextId` was reordered into
      `sub` and its link `after` read: the sibling is promoted when its
      subtree is strictly deeper than every one before it. */
  function Turn(rules: Rules, l: Loop, id: U64, sub: Pass, after: U64): (l': Loop)
    requires Lookup(sub.progs, id).Ok? && Lookup(sub.next, l.leader).Ok? && Lookup(sub.next, l.nextId).Ok?
    ensures Shape(l'.progs) == Shape(sub.progs) && Shape(l'.next) == Shape(sub.next)
    ensures Keeps(sub.progs, l'.progs, l'.below, id)
    ensures l.leader in l.below ==> l'.leader in l'.below && Keeps(sub.next, l'.next, l'.below, id)
  {
    var promote := Max(l.maxDepth, sub.depth) > l.maxDepth;
    var progs' := if promote then Store(sub.progs, id, l.nextId) else sub.progs;
    var next' := if promote then Splice(sub.next, l.leader, l.nextId, after, after == l.nextId || (rules.stopsAtId && after == id))
                 else sub.next;
    Loop(progs', next', if promote then l.nextId else l.leader, l.nextId, after,
         Max(l.maxDepth, sub.depth), l.steps + 1, l.below + sub.below + {l.nextId},
         l.siblings + [l.nextId], l.depths + [sub.depth], if promote then |l.depths| else l.lead)
  }

  /** The sibling loop's bookkeeping at `depth`: the sibling at `lead` holds
      the first-progenitor slot and is the first of the strictly deepest,
      and every sibling is deeper than the halo whose loop it is. */
  ghost predicate TraceOk(l: Loop, depth: nat) {
    && |l.siblings| == |l.depths| && FirstMaxAt(l.depths, l.lead)
    && l.maxDepth == l.depths[l.lead] && l.leader == l.siblings[l.lead]
    && (forall k :: 0 <= k < |l.depths| ==> depth < l.depths[k])
  }

  /** One turn keeps the bookkeeping and extends the trace. */
  lemma StepTrace(rules: Rules, l: Loop, id: U64, depth: nat)
    requires Running(rules, l, id, depth) && SiblingStep(rules, l, id, depth).Ok? && TraceOk(l, depth)
    ensures var l' := SiblingStep(rules, l, id, depth).value;
      TraceOk(l', depth) && l.siblings <= l'.siblings && l.depths <= l'.depths
  {
    var sub := Reorder(rules, l.progs, l.next, l.nextId, depth + 1).value;
    FirstMaxPush(l.siblings, l.depths, l.lead, depth, l.nextId, sub.depth);
  }

  /** How a turn that went through is made up: the reorder of the next
      sibling, its link, and the state `Turn` builds from them. */
  lemma StepUnfolds(rules: Rules, l: Loop, id: U64, depth: nat) returns (sub: Pass, after: U64)
    requires Running(rules, l, id, depth) && SiblingStep(rules, l, id, depth).Ok?
    ensures Reorder(rules, l.progs, l.next, l.nextId, depth + 1) == Ok(sub) && Lookup(sub.next, l.nextId) == Ok(after)
    ensures Lookup(sub.progs, id).Ok? && Lookup(sub.next, l.leader).Ok?
    ensures SiblingStep(rules, l, id, depth) == Ok(Turn(rules, l, id, sub, after))
  {
    sub := Reorder(rules, l.progs, l.next, l.nextId, depth + 1).value;
    after := Lookup(sub.next, l.nextId).value;
    SameShapeLookup(l.progs, sub.progs, id);
    SameShapeLookup(l.next, sub.next, l.leader);
  }

  /** A turn writes the first-progenitor slot of `id` alone, and only when
      it promotes. */
  lemma TurnSlots(rules: Rules, l: Loop, id: U64, sub: Pass, after: U64, x: U64)
    requires Lookup(sub.progs, id).Ok? && Lookup(sub.next, l.leader).Ok? && Lookup(sub.next, l.nextId).Ok?
    ensures var l' := Turn(rules, l, id, sub, after);
      && (x != id ==> Lookup(l'.progs, x) == Lookup(sub.progs, x))
      && (x == id && sub.depth > l.maxDepth ==> Lookup(l'.progs, x) == Ok(l'.leader))
      && (sub.depth <= l.maxDepth ==> l'.progs == sub.progs && l'.leader == l.leader)
  {
  }

  /** A turn that does not reorder `id` itself leaves the new leader in the
      first-progenitor slot of `id`. */
  lemma StepSlot(rules: Rules, l: Loop, id: U64, depth: nat)
    requires Running(rules, l, id, depth) && !Stops(rules, l, id) && SiblingStep(rules, l, id, depth).Ok?
    requires Lookup(l.progs, id) == Ok(l.leader) && id !in SiblingStep(rules, l, id, depth).value.below
    ensures Lookup(SiblingStep(rules, l, id, depth).value.progs, id) == Ok(SiblingStep(rules, l, id, depth).value.leader)
  {
    var sub, after := StepUnfolds(rules, l, id, depth);
    TurnSlots(rules, l, id, sub, after, id);
  }

  /** How the reorder of a halo with a progenitor is made up: the pass over
      its first progenitor, then the sibling loop from there, whose result it
      returns. */
  lemma ReorderUnfolds(rules: Rules, progs: Table<U64>, next: Table<U64>, id: U64, depth: nat)
    returns (progId: U64, first: Pass, l: Loop)
    requires Reorder(rules, progs, next, id, depth).Ok? && Lookup(progs, id).value != id
    ensures Lookup(progs, id) == Ok(progId) && progId != id
    ensures Reorder(rules, progs, next, progId, depth + 1) == Ok(first)
    ensures Lookup(first.next, progId).Ok?
    ensures l == LoopFrom(first.progs, first.next, progId, Lookup(first.next, progId).value, first.depth,
                          first.below + {progId})
    ensures Running(rules, l, id, depth) && TraceOk(l, depth)
    ensures SiblingPass(rules, l, id, depth) == Reorder(rules, progs, next, id, depth)
    ensures first.below + {progId} <= Reorder(rules, progs, next, id, depth).value.below
  {
    progId := Lookup(progs, id).value;
    first := Reorder(rules, progs, next, progId, depth + 1).value;
    SameShapeLookup(progs, first.progs, id);
    l := LoopFrom(first.progs, first.next, progId, Lookup(first.next, progId).value, first.depth,
                  first.below + {progId});
  }

  /** The trace of the sibling loop: the sibling that ends in the
      first-progenitor slot is the first of the strictly deepest ones, the
      loop returns its depth, and every sibling is deeper than the halo whose
      loop it is. Unless a nested pass reordered `id` itself (which takes a
      cycle through `id`), the slot holds that sibling. */
  lemma {:induction false} SiblingPassTrace(rules: Rules, l: Loop, id: U64, depth: nat)
    requires Running(rules, l, id, depth) && TraceOk(l, depth)
    decreases rules.cap - l.steps
    ensures var r := SiblingPass(rules, l, id, depth);
      r.Ok? ==>
        && |r.value.siblings| == |r.value.depths| && FirstMaxAt(r.value.depths, r.value.lead)
        && r.value.depth == r.value.depths[r.value.lead]
        && l.siblings <= r.value.siblings && l.depths <= r.value.depths
        && (forall k :: 0 <= k < |r.value.depths| ==> depth < r.value.depths[k])
        && (Lookup(l.progs, id) == Ok(l.leader) && id !in r.value.below ==>
              Lookup(r.value.progs, id) == Ok(r.value.siblings[r.value.lead]))
  {
    if !Stops(rules, l, id) && SiblingStep(rules, l, id, depth).Ok? {
      var l' := SiblingStep(rules, l, id, depth).value;
      assert SiblingPass(rules, l, id, depth) == SiblingPass(rules, l', id, depth);
      StepTrace(rules, l, id, depth);
      if Lookup(l.progs, id) == Ok(l.leader) && SiblingPass(rules, l, id, depth).Ok?
         && id !in SiblingPass(rules, l, id, depth).value.below {
        StepSlot(rules, l, id, depth);
      }
      SiblingPassTrace(rules, l', id, depth);
    }
  }

  /** What a reorder of a halo with a progenitor leaves: the first of its
      strictly deepest progenitor subtrees sits in the first-progenitor slot
      (unless a cycle led back to the halo), the depth returned is that
      subtree's, and every progenitor's depth is greater than the halo's. */
  lemma ReorderPromotes(rules: Rules, progs: Table<U64>, next: Table<U64>, id: U64, depth: nat)
    requires Reorder(rules, progs, next, id, depth).Ok? && Lookup(progs, id).Ok? && Lookup(progs, id).value != id
    ensures var pass := Reorder(rules, progs, next, id, depth).value;
      && |pass.siblings| == |pass.depths| && FirstMaxAt(pass.depths, pass.lead)
      && pass.depth == pass.depths[pass.lead]
      && Lookup(progs, id) == Ok(pass.siblings[0])
      && (forall k :: 0 <= k < |pass.depths| ==> depth < pass.depths[k])
      && (id !in pass.below ==> Lookup(pass.progs, id) == Ok(pass.siblings[pass.lead]))
  {
    var progId, first, l := ReorderUnfolds(rules, progs, next, id, depth);
    SiblingPassTrace(rules, l, id, depth);
  }

  /** A halo without progenitors is left alone and returns its own depth. */
  lemma ReorderLeaf(rules: Rules, progs: Table<U64>, next: Table<U64>, id: U64, depth: nat)
    requires depth <= |progs| && Lookup(progs, id) == Ok(id)
    ensures Reorder(rules, progs, next, id, depth) == Ok(Pass(depth, progs, next, {}, [], [], 0))
  {
  }

  /** A turn that went through is the state `Turn` builds. */
  lemma StepIsTurn(rules: Rules, l: Loop, id: U64, depth: nat, sub: Pass, after: U64)
    requires Running(rules, l, id, depth)
    requires Reorder(rules, l.progs, l.next, l.nextId, depth + 1) == Ok(sub) && Lookup(sub.next, l.nextId) == Ok(after)
    requires Lookup(sub.progs, id).Ok? && Lookup(sub.next, l.leader).Ok?
    ensures SiblingStep(rules, l, id, depth) ==
      if l.steps + 1 > rules.cap then Err(TooManyProgenitors) else Ok(Turn(rules, l, id, sub, after))
  {
  }

  /** One turn of the loop that promotes the sibling it reorders, as the
      reorder method takes it. */
  lemma StepPromotes(rules: Rules, l: Loop, id: U64, depth: nat, sub: Pass, after: U64) returns (l': Loop)
    requires Running(rules, l, id, depth)
    requires Reorder(rules, l.progs, l.next, l.nextId, depth + 1) == Ok(sub) && Lookup(sub.next, l.nextId) == Ok(after)
    requires sub.depth > l.maxDepth
    ensures Lookup(sub.progs, id).Ok? && Lookup(sub.next, l.leader).Ok?
    ensures SiblingStep(rules, l, id, depth) == if l.steps + 1 > rules.cap then Err(TooManyProgenitors) else Ok(l')
    ensures l'.progs == Store(sub.progs, id, l.nextId)
    ensures l'.next == Splice(sub.next, l.leader, l.nextId, after, after == l.nextId || (rules.stopsAtId && after == id))
    ensures l'.leader == l.nextId && l'.cur == l.nextId && l'.nextId == after && l'.maxDepth == sub.depth
  {
    SameShapeLookup(l.progs, sub.progs, id);
    SameShapeLookup(l.next, sub.next, l.leader);
    StepIsTurn(rules, l, id, depth, sub, after);
    TurnPromotes(rules, l, id, sub, after);
    l' := Turn(rules, l, id, sub, after);
  }

  lemma TurnPromotes(rules: Rules, l: Loop, id: U64, sub: Pass, after: U64)
    requires Lookup(sub.progs, id).Ok? && Lookup(sub.next, l.leader).Ok? && Lookup(sub.next, l.nextId).Ok?
    requires sub.depth > l.maxDepth
    ensures Turn(rules, l, id, sub, after) ==
      Loop(Store(sub.progs, id, l.nextId),
           Splice(sub.next, l.leader, l.nextId, after, after == l.nextId || (rules.stopsAtId && after == id)),
           l.nextId, l.nextId, after, sub.depth, l.steps + 1, l.below + sub.below + {l.nextId},
           l.siblings + [l.nextId], l.depths + [sub.depth], |l.depths|)
  {
  }

  /** One turn of the loop that keeps the leader, as the reorder method
      takes it. */
  lemma StepKeeps(rules: Rules, l: Loop, id: U64, depth: nat, sub: Pass, after: U64) returns (l': Loop)
    requires Running(rules, l, id, depth)
    requires Reorder(rules, l.progs, l.next, l.nextId, depth + 1) == Ok(sub) && Lookup(sub.next, l.nextId) == Ok(after)
    requires sub.depth <= l.maxDepth
    ensures SiblingStep(rules, l, id, depth) == if l.steps + 1 > rules.cap then Err(TooManyProgenitors) else Ok(l')
    ensures l'.progs == sub.progs && l'.next == sub.next
    ensures l'.leader == l.leader && l'.cur == l.nextId && l'.nextId == after && l'.maxDepth == l.maxDepth
  {
    SameShapeLookup(l.progs, sub.progs, id);
    SameShapeLookup(l.next, sub.next, l.leader);
    StepIsTurn(rules, l, id, depth, sub, after);
    TurnKeeps(rules, l, id, sub, after);
    l' := Turn(rules, l, id, sub, after);
  }

  lemma TurnKeeps(rules: Rules, l: Loop, id: U64, sub: Pass, after: U64)
    requires Lookup(sub.progs, id).Ok? && Lookup(sub.next, l.leader).Ok? && Lookup(sub.next, l.nextId).Ok?
    requires sub.depth <= l.maxDepth
    ensures Turn(rules, l, id, sub, after) ==
      Loop(sub.progs, sub.next, l.leader, l.nextId, after, l.maxDepth, l.steps + 1,
           l.below + sub.below + {l.nextId}, l.siblings + [l.nextId], l.depths + [sub.depth], l.lead)
  {
  }

  /** The sibling loop past a state that does not stop fails with the
      error of the turn taken from it, or goes on from the state that turn
      leaves (`PassAdvances`). */
  lemma PassFails(rules: Rules, l: Loop, id: U64, depth: nat)
    requires Running(rules, l, id, depth) && !Stops(rules, l, id) && SiblingStep(rules, l, id, depth).Err?
    ensures SiblingPass(rules, l, id, depth) == Err(SiblingStep(rules, l, id, depth).error)
  {
  }

  /** The sibling loop from a state that stops returns that state. */
  lemma PassStops(rules: Rules, l: Loop, id: U64, depth: nat)
    requires Running(rules, l, id, depth) && Stops(rules, l, id)
    ensures SiblingPass(rules, l, id, depth) == Ok(Pass(l.maxDepth, l.progs, l.next, l.below, l.siblings, l.depths, l.lead))
  {
  }

  /** The sibling loop past a turn that went through. */
  lemma PassAdvances(rules: Rules, l: Loop, id: U64, depth: nat, l': Loop)
    requires Running(rules, l, id, depth) && !Stops(rules, l, id) && SiblingStep(rules, l, id, depth) == Ok(l')
    ensures SiblingPass(rules, l, id, depth) == SiblingPass(rules, l', id, depth)
  {
  }

  /** A turn fails with the error of the sibling's reorder, or else with that
      of reading its link. */
  lemma StepFails(rules: Rules, l: Loop, id: U64, depth: nat)
    requires Running(rules, l, id, depth)
    ensures Reorder(rules, l.progs, l.next, l.nextId, depth + 1).Err? ==>
      SiblingStep(rules, l, id, depth) == Err(Reorder(rules, l.progs, l.next, l.nextId, depth + 1).error)
    ensures var sub := Reorder(rules, l.progs, l.next, l.nextId, depth + 1);
      sub.Ok? && Lookup(sub.value.next, l.nextId).Err? ==>
        SiblingStep(rules, l, id, depth) == Err(Lookup(sub.value.next, l.nextId).error)
  {
  }

  /** A turn whose reorder of the next sibling failed ends with that error. */
  lemma SubFailEnds(rules: Rules, l: Loop, id: U64, depth: nat, r: Result<nat>, progs: Table<U64>,
                    next: Table<U64>, leader: U64, link: U64, leaderDepth: nat)
    requires Running(rules, l, id, depth) && !Stops(rules, l, id)
    requires EndsAs(r, progs, next, Reorder(rules, l.progs, l.next, l.nextId, depth + 1)) && r.Err?
    ensures StepEnds(rules, l, id, depth, Err(r.error), progs, next, leader, link, leaderDepth, l)
  {
  }

  /** The pass a reorder method that went through has made. */
  lemma SubPass(rules: Rules, l: Loop, depth: nat, r: Result<nat>, progs: Table<U64>, next: Table<U64>)
    returns (sub: Pass)
    requires EndsAs(r, progs, next, Reorder(rules, l.progs, l.next, l.nextId, depth + 1)) && r.Ok?
    ensures Reorder(rules, l.progs, l.next, l.nextId, depth + 1) == Ok(sub)
    ensures progs == sub.progs && next == sub.next && r.value == sub.depth
  {
    sub := Reorder(rules, l.progs, l.next, l.nextId, depth + 1).value;
  }

  /** The reorder of the tree of `id` from the top goes through on links
      `progs` and `next` and leaves `progs'` and `next'`. */
  ghost predicate ReordersTo(rules: Rules, progs: Table<U64>, next: Table<U64>, id: U64, progs': Table<U64>,
                             next': Table<U64>)
  {
    var p := Reorder(rules, progs, next, id, 0);
    p.Ok? && p.value.progs == progs' && p.value.next == next'
  }

  /** A reorder method ended as pass `p` says: with its error, or with the
      depth it returns and the links it leaves. */
  ghost predicate EndsAs(r: Result<nat>, progs: Table<U64>, next: Table<U64>, p: Result<Pass>) {
    if p.Err? then r == Err(p.error)
    else r == Ok(p.value.depth) && progs == p.value.progs && next == p.value.next
  }

  /** What one turn of the sibling loop leaves behind: the error `l` fails
      with, or the state `l'` reached (or the cap error) with its links,
      leader, next link and greatest depth. */
  ghost predicate StepEnds(rules: Rules, l: Loop, id: U64, depth: nat, r: Result<nat>, progs: Table<U64>, next: Table<U64>,
                           leader: U64, link: U64, leaderDepth: nat, l': Loop)
    requires Running(rules, l, id, depth) && !Stops(rules, l, id)
  {
    if r.Err? then SiblingStep(rules, l, id, depth) == Err(r.error)
    else
      && SiblingStep(rules, l, id, depth) == (if l.steps + 1 > rules.cap then Err(TooManyProgenitors) else Ok(l'))
      && r.value == leaderDepth && l'.progs == progs && l'.next == next && l'.leader == leader
      && l'.cur == l.nextId && l'.nextId == link && l'.maxDepth == r.value
  }

  /** The order in which the walk visits the halos of a tree, the column
      each one's pixel goes in, and the column counter the walk ends with. */
  datatype Route = Route(halos: seq<U64>, cols: seq<nat>, maxCol: nat)

  /** The walk of `walk_and_place_pixels` on the links alone: the halos
      above `id` (its first progenitor's subtree in column `col`, then each
      further sibling's subtree in a fresh column) and `id` itself last, in
      column `col`. It fails where the walk fails on the links: a depth past
      the number of snapshots, an unreadable link, an underflowing snapshot
      gap, a counter past its cap. */
  ghost function Tour(rules: Rules, progs: Table<U64>, next: Table<U64>, id: U64, col: nat, maxCol: nat,
                      depth: nat): (r: Result<Route>)
    decreases |progs| + 1 - depth, 2
    ensures r.Ok? ==> maxCol <= r.value.maxCol
  {
    if depth > |progs| then Err(DepthExceeded)
    else match Lookup(progs, id)
      case Err(e) => Err(e)
      case Ok(progId) =>
        if progId == id then Ok(Route([id], [col], maxCol))
        else match Above(rules, progs, next, id, progId, col, maxCol, depth)
          case Err(e) => Err(e)
          case Ok(a) => Ok(Route(a.halos + [id], a.cols + [col], a.maxCol))
  }

  /** The part of the tour above `id`, whose first progenitor is `progId`. */
  ghost function Above(rules: Rules, progs: Table<U64>, next: Table<U64>, id: U64, progId: U64, col: nat,
                       maxCol: nat, depth: nat): (r: Result<Route>)
    requires depth <= |progs|
    decreases |progs| + 1 - depth, 1
    ensures r.Ok? ==> maxCol <= r.value.maxCol
  {
    match Tour(rules, progs, next, progId, col, maxCol, depth + 1)
    case Err(e) => Err(e)
    case Ok(first) =>
      if rules.checksGap && IdToSnap(id) < IdToSnap(progId) then Err(SnapshotUnderflow)
      else match Lookup(next, progId)
        case Err(e) => Err(e)
        case Ok(nextId) =>
          match SiblingTour(rules, progs, next, id, progId, nextId, first.maxCol, depth)
          case Err(e) => Err(e)
          case Ok(rest) => Ok(Route(first.halos + rest.halos, first.cols + rest.cols, rest.maxCol))
  }

  /** The part of the tour from the sibling after `cur` (whose link is
      `nextId`) on: each sibling's subtree in the column after the counter. */
  ghost function SiblingTour(rules: Rules, progs: Table<U64>, next: Table<U64>, id: U64, cur: U64, nextId: U64,
                             maxCol: nat, depth: nat): (r: Result<Route>)
    requires depth <= |progs|
    decreases |progs| + 1 - depth, 0, if maxCol <= rules.maxColumn then rules.maxColumn + 1 - maxCol else 0
    ensures r.Ok? ==> maxCol <= r.value.maxCol
  {
    if nextId == cur || (rules.stopsAtId && nextId == id) then Ok(Route([], [], maxCol))
    else match Tour(rules, progs, next, nextId, maxCol + 1, maxCol + 1, depth + 1)
      case Err(e) => Err(e)
      case Ok(sub) =>
        if rules.checksGap && IdToSnap(id) < IdToSnap(nextId) then Err(SnapshotUnderflow)
        else match Lookup(next, nextId)
          case Err(e) => Err(e)
          case Ok(after) =>
            if sub.maxCol > rules.maxColumn then Err(TooWide)
            else match SiblingTour(rules, progs, next, id, nextId, after, sub.maxCol, depth)
              case Err(e) => Err(e)
              case Ok(rest) => Ok(Route(sub.halos + rest.halos, sub.cols + rest.cols, rest.maxCol))
  }

  /** A tour that went through visits `halos`, in columns `cols`. */
  ghost predicate Visits(t: Result<Route>, halos: seq<U64>, cols: seq<nat>) {
    t.Ok? && t.value.halos == halos && t.value.cols == cols
  }

  /** The tour from a sibling state goes on as the tour `rest` from a later
      one, after the halos and columns visited in between. */
  ghost predicate Resumes(whole: Result<Route>, halos: seq<U64>, cols: seq<nat>, rest: Result<Route>) {
    rest.Ok? ==> whole == Ok(Route(halos + rest.value.halos, cols + rest.value.cols, rest.value.maxCol))
  }

  /** One sibling of the tour: its subtree `sub`, then the tour from it. */
  lemma SiblingTourStep(rules: Rules, progs: Table<U64>, next: Table<U64>, id: U64, cur: U64, nextId: U64,
                        maxCol: nat, depth: nat, sub: Route, after: U64)
    requires depth <= |progs| && nextId != cur && !(rules.stopsAtId && nextId == id)
    requires Tour(rules, progs, next, nextId, maxCol + 1, maxCol + 1, depth + 1) == Ok(sub)
    requires !(rules.checksGap && IdToSnap(id) < IdToSnap(nextId))
    requires Lookup(next, nextId) == Ok(after) && sub.maxCol <= rules.maxColumn
    ensures Resumes(SiblingTour(rules, progs, next, id, cur, nextId, maxCol, depth), sub.halos, sub.cols,
                    SiblingTour(rules, progs, next, id, nextId, after, sub.maxCol, depth))
  {
  }

  /** A tour resumes as itself after nothing. */
  lemma ResumesStart(whole: Result<Route>)
    ensures Resumes(whole, [], ColsOf([]), whole)
  {
    if whole.Ok? {
      assert [] + whole.value.halos == whole.value.halos;
      assert ColsOf([]) + whole.value.cols == whole.value.cols;
    }
  }

  /** The tour of `id` is what was visited above it (nothing for a halo
      without progenitors), then `id` itself with its own pixel `own`. */
  lemma TourCloses(rules: Rules, progs: Table<U64>, next: Table<U64>, id: U64, progId: U64, col: nat,
                   maxCol: nat, depth: nat, halos: seq<U64>, added: seq<Pixel>, own: Pixel, hi: nat)
    requires depth <= |progs| && Lookup(progs, id) == Ok(progId) && own.col == col
    requires progId == id ==> halos == [] && added == [] && hi == maxCol
    requires progId != id ==> Above(rules, progs, next, id, progId, col, maxCol, depth) == Ok(Route(halos, ColsOf(added), hi))
    ensures Tour(rules, progs, next, id, col, maxCol, depth) == Ok(Route(halos + [id], ColsOf(added + [own]), hi))
  {
    ColsOfConcat(added, [own]);
    assert ColsOf([own]) == [col];
    if progId == id {
      assert halos + [id] == [id] && ColsOf(added) + [col] == [col];
    }
  }

  /** Two stretches of the same sibling tour. */
  lemma ResumesTrans(whole: Result<Route>, h1: seq<U64>, c1: seq<nat>, mid: Result<Route>, h2: seq<U64>,
                     c2: seq<nat>, rest: Result<Route>)
    requires Resumes(whole, h1, c1, mid) && Resumes(mid, h2, c2, rest)
    ensures Resumes(whole, h1 + h2, c1 + c2, rest)
  {
    if rest.Ok? {
      assert h1 + (h2 + rest.value.halos) == (h1 + h2) + rest.value.halos;
      assert c1 + (c2 + rest.value.cols) == (c1 + c2) + rest.value.cols;
    }
  }

  /** Moving the rows of a tour's pixels keeps the tour's columns. */
  lemma ShiftedVisits(rules: Rules, progs: Table<U64>, next: Table<U64>, id: U64, halos: seq<U64>,
                      added: seq<Pixel>, shifted: seq<Pixel>, first: nat, hi: nat)
    requires Tour(rules, progs, next, id, 0, 0, 0) == Ok(Route(halos, ColsOf(added), hi))
    requires ShiftedBy(added, shifted, first)
    ensures Visits(Tour(rules, progs, next, id, 0, 0, 0), halos, ColsOf(shifted))
    ensures CellsDistinct(added) ==> CellsDistinct(shifted)
  {
    ShiftKeepsCols(added, shifted, first);
    ShiftKeepsDistinct(added, shifted, first);
  }

  /** `layout` is the image of the tree of root `id` (whose position is
      `refPos`), `halos` names the halo of each of its pixels, its columns are
      those of the tour of the links, and no two pixels share a cell when
      progenitors are earlier than their descendants. */
  ghost predicate LaidOut(layout: Layout, halos: seq<U64>, id: U64, progs: Table<U64>, next: Table<U64>,
                          masses: Table<real>, types: Table<int>, positions: Table<Position>, refPos: Position,
                          dist: (Position, Position) -> real)
  {
    && ImageOfTree(layout, halos, id, IdToSnap(id), masses, types, positions, refPos, dist)
    && (LinksEarlier(progs) ==> CellsDistinct(layout.pixels))
    && Visits(Tour(LIBRARY, progs, next, id, 0, 0, 0), halos, ColsOf(layout.pixels))
  }

  /** The walk from root `id` in column 0, normalized, is laid out. */
  lemma PlacedImage(progs: Table<U64>, next: Table<U64>, masses: Table<real>, types: Table<int>,
                    positions: Table<Position>, id: U64, refPos: Position, dist: (Position, Position) -> real,
                    added: seq<Pixel>, halos: seq<U64>, hi: nat, layout: Layout)
    requires |added| >= 1 && |halos| == |added| && halos[|halos| - 1] == id
    requires added[|added| - 1].col == 0 && added[|added| - 1].snap == IdToSnap(id)
    requires PixelsOf(added, halos, 0, masses, types, positions, refPos, dist)
    requires InBand(added, 0, 0, hi, IdToSnap(id))
    requires LinksEarlier(progs) ==> CellsDistinct(added)
    requires Tour(LIBRARY, progs, next, id, 0, 0, 0) == Ok(Route(halos, ColsOf(added), hi))
    requires ShiftedBy(added, layout.pixels, layout.props.firstSnap)
    requires forall k :: 0 <= k < |added| ==> added[k].snap <= layout.props.lastSnap
    requires exists k :: 0 <= k < |added| && added[k].snap == layout.props.lastSnap
    requires FitsTightly(layout.pixels, layout.props)
    ensures LaidOut(layout, halos, id, progs, next, masses, types, positions, refPos, dist)
  {
    ImageOfWalk(added, halos, layout, id, IdToSnap(id), hi, masses, types, positions, refPos, dist);
    ShiftedVisits(LIBRARY, progs, next, id, halos, added, layout.pixels, layout.props.firstSnap, hi);
  }

  class HaloProps {
    var progenitors: Table<U64>
    var nextProgenitors: Table<U64>
    var masses: Table<real>
    var types: Table<int>
    var positions: Table<Position>

    constructor (progenitors: Table<U64>, nextProgenitors: Table<U64>, masses: Table<real>,
                 types: Table<int>, positions: Table<Position>)
      ensures this.progenitors == progenitors && this.nextProgenitors == nextProgenitors
      ensures this.masses == masses && this.types == types && this.positions == positions
    {
      this.progenitors := progenitors;
      this.nextProgenitors := nextProgenitors;
      this.masses := masses;
      this.types := types;
      this.positions := positions;
    }

    /** `reorder_progenitors` (src/lib.rs:73-126): a post-order pass over the
        tree above `id` that moves, at every branch point, the sibling whose
        subtree is strictly deepest into the first-progenitor slot, and returns
        the greatest depth reached. What it leaves is `Reorder` of the links
        it started from; `ReorderPromotes` says what that is.

        The debug check that the depth does not exceed the number of snapshots
        (src/lib.rs:120-123) is also made on entry: a call entered deeper than
        that returns at least its depth, so the program panics in it (or runs
        out of stack first); checking early is what makes the recursion finite. */
    method ReorderProgenitors(id: U64, depth: nat) returns (r: Result<nat>)
      modifies this`progenitors, this`nextProgenitors
      decreases |progenitors| + 1 - depth, 2
      ensures Shape(progenitors) == Shape(old(progenitors))
      ensures Shape(nextProgenitors) == Shape(old(nextProgenitors))
      ensures EndsAs(r, progenitors, nextProgenitors, Reorder(LIBRARY, old(progenitors), old(nextProgenitors), id, depth))
    {
      if depth > |progenitors| {
        r := Err(DepthExceeded);
        return;
      }
      var maxDepth := depth;
      var lp := Lookup(progenitors, id);
      if lp.Err? {
        r := Err(lp.error);
        return;
      }
      var progId := lp.value;
      if progId != id {
        ghost var p0, n0 := progenitors, nextProgenitors;
        var first := ReorderProgenitors(progId, depth + 1);
        if first.Err? {
          r := Err(first.error);
          return;
        }
        ghost var firstPass := Reorder(LIBRARY, p0, n0, progId, depth + 1).value;
        var ln := Lookup(nextProgenitors, progId);
        if ln.Err? {
          r := Err(ln.error);
          return;
        }
        SameShapeLookup(p0, progenitors, id);
        var rest := ReorderSiblings(id, progId, first.value, ln.value, depth, firstPass.below + {progId});
        if rest.Err? {
          r := Err(rest.error);
          return;
        }
        maxDepth := rest.value;
      }
      if maxDepth > |progenitors| {
        r := Err(DepthExceeded);
        return;
      }
      r := Ok(maxDepth);
    }

    /** The sibling loop of `reorder_progenitors` (src/lib.rs:89-117) below
        halo `id`, whose first progenitor `first` was reordered already and
        reached `firstDepth`; `nextId` is that progenitor's sibling link and
        `below0` the halos reordered so far. The loop ends when a link points
        to itself or back to `id`; the debug build fails after
        `MAX_SIBLING_STEPS` turns. The loop keeps the ghost state `st` of
        `SiblingPass` in step with its own. */
    method ReorderSiblings(id: U64, first: U64, firstDepth: nat, nextId: U64, depth: nat, ghost below0: set<U64>)
      returns (r: Result<nat>)
      requires depth <= |progenitors|
      requires Lookup(progenitors, id).Ok? && Lookup(nextProgenitors, first).Ok?
      modifies this`progenitors, this`nextProgenitors
      decreases |progenitors| + 1 - depth, 1
      ensures Shape(progenitors) == Shape(old(progenitors))
      ensures Shape(nextProgenitors) == Shape(old(nextProgenitors))
      ensures EndsAs(r, progenitors, nextProgenitors,
                     SiblingPass(LIBRARY, LoopFrom(old(progenitors), old(nextProgenitors), first, nextId, firstDepth, below0),
                                 id, depth))
    {
      var progId, curId, next := first, first, nextId;
      var maxDepth, firstProgDepth := firstDepth, firstDepth;
      var counter := 0;
      ghost var st := LoopFrom(progenitors, nextProgenitors, first, nextId, firstDepth, below0);
      while next != curId && next != id
        invariant Shape(progenitors) == Shape(old(progenitors))
        invariant Shape(nextProgenitors) == Shape(old(nextProgenitors))
        invariant Running(LIBRARY, st, id, depth)
        invariant st.progs == progenitors && st.next == nextProgenitors && st.leader == progId
        invariant st.cur == curId && st.nextId == next && st.maxDepth == maxDepth && st.steps == counter
        invariant maxDepth == firstProgDepth
        invariant SiblingPass(LIBRARY, LoopFrom(old(progenitors), old(nextProgenitors), first, nextId, firstDepth, below0),
                              id, depth) == SiblingPass(LIBRARY, st, id, depth)
        decreases MAX_SIBLING_STEPS - counter
      {
        var turn, leader, link, leaderDepth;
        ghost var st';
        turn, leader, link, leaderDepth, st' := NextSibling(id, depth, progId, next, maxDepth, firstProgDepth, st);
        if turn.Err? {
          PassFails(LIBRARY, st, id, depth);
          r := Err(turn.error);
          return;
        }
        curId := next;
        progId, next, maxDepth, firstProgDepth := leader, link, turn.value, leaderDepth;
        counter := counter + 1;
        if counter > MAX_SIBLING_STEPS {
          PassFails(LIBRARY, st, id, depth);
          r := Err(TooManyProgenitors);
          return;
        }
        PassAdvances(LIBRARY, st, id, depth, st');
        st := st';
      }
      PassStops(LIBRARY, st, id, depth);
      r := Ok(maxDepth);
    }

    /** One turn of the sibling loop (src/lib.rs:90-105) from ghost state
        `st`: sibling `next` is reordered and its link read; when that makes
        `maxDepth` exceed `firstProgDepth`, the sibling takes the
        first-progenitor slot of `id` and is spliced to the head of the
        list. It returns the greatest depth, the leader, the link and the
        leader's depth after the turn; `st'` is the state `SiblingStep`
        reaches, which those values and the links now describe. */
    method NextSibling(id: U64, depth: nat, progId: U64, next: U64, maxDepth: nat, firstProgDepth: nat,
                       ghost st: Loop)
      returns (r: Result<nat>, leader: U64, link: U64, leaderDepth: nat, ghost st': Loop)
      requires Running(LIBRARY, st, id, depth) && !Stops(LIBRARY, st, id) && maxDepth == firstProgDepth
      requires st.progs == progenitors && st.next == nextProgenitors && st.leader == progId
      requires st.nextId == next && st.maxDepth == maxDepth
      modifies this`progenitors, this`nextProgenitors
      decreases |progenitors| + 1 - depth, 0
      ensures Shape(progenitors) == Shape(old(progenitors))
      ensures Shape(nextProgenitors) == Shape(old(nextProgenitors))
      ensures StepEnds(LIBRARY, st, id, depth, r, progenitors, nextProgenitors, leader, link, leaderDepth, st')
    {
      var sub := ReorderProgenitors(next, depth + 1);
      if sub.Err? {
        SubFailEnds(LIBRARY, st, id, depth, sub, progenitors, nextProgenitors, progId, next, maxDepth);
        return Err(sub.error), progId, next, maxDepth, st;
      }
      ghost var subPass := SubPass(LIBRARY, st, depth, sub, progenitors, nextProgenitors);
      r, leader, link, leaderDepth, st' := TakeTurn(id, depth, progId, next, maxDepth, sub.value, st, subPass);
    }

    /** The rest of a sibling turn (src/lib.rs:93-104), once sibling `curId`
        has been reordered to depth `subDepth` as pass `subPass`: its link is
        read and, when it is strictly deeper than the leader, it is promoted. */
    method TakeTurn(id: U64, depth: nat, progId: U64, curId: U64, maxDepth: nat, subDepth: nat,
                    ghost st: Loop, ghost subPass: Pass)
      returns (r: Result<nat>, leader: U64, link: U64, leaderDepth: nat, ghost st': Loop)
      requires Running(LIBRARY, st, id, depth) && !Stops(LIBRARY, st, id)
      requires Reorder(LIBRARY, st.progs, st.next, st.nextId, depth + 1) == Ok(subPass)
      requires progenitors == subPass.progs && nextProgenitors == subPass.next && subDepth == subPass.depth
      requires st.leader == progId && st.nextId == curId && st.maxDepth == maxDepth
      modifies this`progenitors, this`nextProgenitors
      ensures Shape(progenitors) == Shape(old(progenitors))
      ensures Shape(nextProgenitors) == Shape(old(nextProgenitors))
      ensures StepEnds(LIBRARY, st, id, depth, r, progenitors, nextProgenitors, leader, link, leaderDepth, st')
    {
      var lc := Lookup(nextProgenitors, curId);
      if lc.Err? {
        StepFails(LIBRARY, st, id, depth);
        return Err(lc.error), progId, curId, maxDepth, st;
      }
      link := lc.value;
      if subDepth > maxDepth {
        st' := StepPromotes(LIBRARY, st, id, depth, subPass, link);
        progenitors := Store(progenitors, id, curId);
        nextProgenitors := Splice(nextProgenitors, progId, curId, link, link == curId || link == id);
        leader, leaderDepth := curId, subDepth;
      } else {
        st' := StepKeeps(LIBRARY, st, id, depth, subPass, link);
        leader, leaderDepth := progId, maxDepth;
      }
      r := Ok(leaderDepth);
    }

    /** `lerp` (src/lib.rs:128-165): reads both halos and appends the
        interpolated pixels of the snapshot range `a_snap..b_snap`. */
    method Lerp(aId: U64, bId: U64, refPos: Position, col: nat, pixels: seq<Pixel>,
                dist: (Position, Position) -> real)
      returns (r: Result<seq<Pixel>>)
      ensures r.Err? ==> r.error == if IdToInd(aId).Err? || IdToInd(bId).Err? then InvalidIdentifier else IndexOutOfRange
      ensures r.Ok? <==>
        && Lookup(masses, aId).Ok? && Lookup(masses, bId).Ok? && Lookup(types, aId).Ok?
        && Lookup(positions, aId).Ok? && Lookup(positions, bId).Ok?
      ensures r.Ok? ==> r.value == pixels + LerpPixels(
        IdToSnap(aId), IdToSnap(bId), col, Lookup(masses, aId).value, Lookup(masses, bId).value,
        Lookup(types, aId).value,
        dist(Lookup(positions, aId).value, refPos), dist(Lookup(positions, bId).value, refPos))
      ensures r.Ok? && IdToSnap(bId) <= IdToSnap(aId) ==> r.value == pixels
    {
      var aDec := IdToSnapInd(aId);
      var bDec := IdToSnapInd(bId);
      if aDec.Err? || bDec.Err? {
        return Err(InvalidIdentifier);
      }
      var aMass := Lookup(masses, aId);
      var bMass := Lookup(masses, bId);
      var typ := Lookup(types, aId);
      var aPos := Lookup(positions, aId);
      var bPos := Lookup(positions, bId);
      if aMass.Err? || bMass.Err? || typ.Err? || aPos.Err? || bPos.Err? {
        return Err(IndexOutOfRange);
      }
      var aSnap, bSnap := IdToSnap(aId), IdToSnap(bId);
      var aDisp, bDisp := dist(aPos.value, refPos), dist(bPos.value, refPos);
      ghost var all := LerpPixels(aSnap, bSnap, col, aMass.value, bMass.value, typ.value, aDisp, bDisp);
      var out := pixels;
      var snap := aSnap;
      while snap < bSnap
        invariant aSnap <= snap <= Max(aSnap, bSnap)
        invariant out == pixels + all[..snap - aSnap]
      {
        var frac := (snap - aSnap) as real / (bSnap - aSnap) as real;
        var mass := aMass.value + (bMass.value - aMass.value) * frac;
        var disp := aDisp + (bDisp - aDisp) * frac;
        assert all[snap - aSnap] == Pixel(snap, col, mass, typ.value, disp);
        assert all[..snap + 1 - aSnap] == all[..snap - aSnap] + [Pixel(snap, col, mass, typ.value, disp)];
        out := out + [Pixel(snap, col, mass, typ.value, disp)];
        snap := snap + 1;
      }
      assert all[..snap - aSnap] == all;
      return Ok(out);
    }

    /** The edge step of `walk_and_place_pixels` (src/lib.rs:216-220 and
        228-232): the snapshot gap `snap - prog_snap` of a descendant and one
        of its progenitors, in `usize`, and the call to `lerp` when the gap
        exceeds one. The gap is taken with the descendant first, so `lerp`
        runs over the empty range from the later snapshot to the earlier one:
        the edge never adds a pixel. */
    method LerpEdge(descId: U64, progId: U64, refPos: Position, col: nat, pixels: seq<Pixel>,
                    dist: (Position, Position) -> real)
      returns (r: Result<seq<Pixel>>)
      ensures r == Err(SnapshotUnderflow) <==> IdToSnap(descId) < IdToSnap(progId)
      ensures r.Ok? <==>
        && IdToSnap(progId) <= IdToSnap(descId)
        && (IdToSnap(descId) - IdToSnap(progId) > 1 ==>
              Lookup(masses, descId).Ok? && Lookup(masses, progId).Ok? && Lookup(types, descId).Ok?
              && Lookup(positions, descId).Ok? && Lookup(positions, progId).Ok?)
      ensures r.Ok? ==> r.value == pixels
      ensures r.Err? ==> r.error != ShapeMismatch
    {
      var snap, progSnap := IdToSnap(descId), IdToSnap(progId);
      if snap < progSnap {
        return Err(SnapshotUnderflow);
      }
      r := Ok(pixels);
      if snap - progSnap > 1 {
        r := Lerp(descId, progId, refPos, col, pixels, dist);
      }
    }

    /** The sibling loop of `walk_and_place_pixels` (src/lib.rs:222-240) below
        halo `id`, entered with `curId` the first progenitor and `nextId` its
        sibling link: every further sibling is walked by `WalkSibling` in a
        fresh column. The loop ends when a link points to itself or back to
        `id`. What it visits is `SiblingTour` of the links. */
    method WalkSiblings(id: U64, curId: U64, nextId: U64, w: Walk, refPos: Position, col: nat,
                        depth: nat, dist: (Position, Position) -> real)
      returns (r: Result<Walk>, ghost added: seq<Pixel>, ghost halos: seq<U64>)
      requires depth <= |progenitors|
      decreases |progenitors| + 1 - depth, 1
      ensures r.Err? ==> r.error != ShapeMismatch
      ensures r.Ok? ==> r.value.pixels == w.pixels + added && w.maxCol <= r.value.maxCol
      ensures r.Ok? ==> PixelsOf(added, halos, 0, masses, types, positions, refPos, dist)
      ensures r.Ok? ==> InColumns(added, w.maxCol, r.value.maxCol, IdToSnap(id))
      ensures r.Ok? && LinksEarlier(progenitors) ==> CellsDistinct(added)
      ensures r.Ok? ==> SiblingTour(LIBRARY, progenitors, nextProgenitors, id, curId, nextId, w.maxCol, depth)
                        == Ok(Route(halos, ColsOf(added), r.value.maxCol))
    {
      added, halos := [], [];
      var snap := IdToSnap(id);
      var cur, next, acc := curId, nextId, w;
      ghost var whole := SiblingTour(LIBRARY, progenitors, nextProgenitors, id, curId, nextId, w.maxCol, depth);
      ResumesStart(whole);
      while next != cur && next != id
        invariant acc.pixels == w.pixels + added && w.maxCol <= acc.maxCol
        invariant PixelsOf(added, halos, 0, masses, types, positions, refPos, dist)
        invariant InColumns(added, w.maxCol, acc.maxCol, snap)
        invariant LinksEarlier(progenitors) ==> CellsDistinct(added)
        invariant Resumes(whole, halos, ColsOf(added),
                          SiblingTour(LIBRARY, progenitors, nextProgenitors, id, cur, next, acc.maxCol, depth))
        decreases MAX_COLUMN + 1 - if acc.maxCol <= MAX_COLUMN then acc.maxCol else MAX_COLUMN + 1
      {
        var step, link;
        ghost var subAdded, subHalos;
        step, link, subAdded, subHalos := WalkSibling(id, cur, next, acc, refPos, col, depth, dist);
        if step.Err? {
          return Err(step.error), added, halos;
        }
        ColumnsConcat(added, subAdded, w.maxCol, acc.maxCol, step.value.maxCol, IdToSnap(next), snap);
        PixelsOfConcat(added, halos, subAdded, subHalos, 0, masses, types, positions, refPos, dist);
        AppendTwice(w.pixels, added, subAdded);
        ResumesTrans(whole, halos, ColsOf(added),
                     SiblingTour(LIBRARY, progenitors, nextProgenitors, id, cur, next, acc.maxCol, depth),
                     subHalos, ColsOf(subAdded),
                     SiblingTour(LIBRARY, progenitors, nextProgenitors, id, next, link, step.value.maxCol, depth));
        ColsOfConcat(added, subAdded);
        added, halos := added + subAdded, halos + subHalos;
        acc := step.value;
        cur, next := next, link;
      }
      assert halos + [] == halos && ColsOf(added) + [] == ColsOf(added);
      r := Ok(acc);
    }

    /** One turn of the walk's sibling loop (src/lib.rs:223-238): the counter
        is bumped and sibling `next` walked in that fresh column, the edge to
        it is taken with the descendant's column `col`, its link is read, and
        the debug build fails once the counter passes `MAX_COLUMN`. */
    method WalkSibling(id: U64, cur: U64, next: U64, acc: Walk, refPos: Position, col: nat,
                       depth: nat, dist: (Position, Position) -> real)
      returns (r: Result<Walk>, link: U64, ghost subAdded: seq<Pixel>, ghost subHalos: seq<U64>)
      requires depth <= |progenitors| && next != cur && next != id
      decreases |progenitors| + 1 - depth, 0
      ensures r.Err? ==> r.error != ShapeMismatch
      ensures r.Ok? ==> r.value.pixels == acc.pixels + subAdded && acc.maxCol < r.value.maxCol <= MAX_COLUMN
      ensures r.Ok? ==> PixelsOf(subAdded, subHalos, 0, masses, types, positions, refPos, dist)
      ensures r.Ok? ==> IdToSnap(next) <= IdToSnap(id)
      ensures r.Ok? ==> InBand(subAdded, acc.maxCol + 1, acc.maxCol + 1, r.value.maxCol, IdToSnap(next))
      ensures r.Ok? && LinksEarlier(progenitors) ==> CellsDistinct(subAdded)
      ensures r.Ok? ==>
        Resumes(SiblingTour(LIBRARY, progenitors, nextProgenitors, id, cur, next, acc.maxCol, depth),
                subHalos, ColsOf(subAdded),
                SiblingTour(LIBRARY, progenitors, nextProgenitors, id, next, link, r.value.maxCol, depth))
    {
      var m := acc.maxCol;
      var sub;
      sub, subAdded, subHalos := WalkAndPlacePixels(next, acc.pixels, refPos, m + 1, m + 1, depth + 1, dist);
      if sub.Err? {
        return sub, next, subAdded, subHalos;
      }
      var l := LerpEdge(id, next, refPos, col, sub.value.pixels, dist);
      if l.Err? {
        return Err(l.error), next, subAdded, subHalos;
      }
      var lc := Lookup(nextProgenitors, next);
      if lc.Err? {
        return Err(lc.error), next, subAdded, subHalos;
      }
      link := lc.value;
      if sub.value.maxCol > MAX_COLUMN {
        return Err(TooWide), link, subAdded, subHalos;
      }
      SiblingTourStep(LIBRARY, progenitors, nextProgenitors, id, cur, next, m, depth,
                      Route(subHalos, ColsOf(subAdded), sub.value.maxCol), link);
      r := Ok(sub.value.(pixels := l.value));
    }

    /** The progenitor part of `walk_and_place_pixels` (src/lib.rs:210-239)
        for a halo `id` whose first progenitor is `progId`: the first
        progenitor's subtree is walked in the descendant's column `col`, the
        edge to it is taken, and the further siblings follow in fresh columns.
        When progenitors are earlier than their descendants, column `col` stays
        below the descendant's row. */
    method WalkProgenitors(id: U64, progId: U64, w: Walk, refPos: Position, col: nat,
                           depth: nat, dist: (Position, Position) -> real)
      returns (r: Result<Walk>, ghost added: seq<Pixel>, ghost halos: seq<U64>)
      requires depth <= |progenitors|
      requires Lookup(progenitors, id) == Ok(progId) && progId != id
      decreases |progenitors| + 1 - depth, 2
      ensures r.Err? ==> r.error != ShapeMismatch
      ensures r.Ok? ==> r.value.pixels == w.pixels + added && w.maxCol <= r.value.maxCol
      ensures r.Ok? ==> PixelsOf(added, halos, 0, masses, types, positions, refPos, dist)
      ensures r.Ok? ==> InBand(added, col, w.maxCol, r.value.maxCol, IdToSnap(id))
      ensures r.Ok? && LinksEarlier(progenitors) && col <= w.maxCol ==>
        ColumnBelow(added, col, IdToSnap(id)) && CellsDistinct(added)
      ensures r.Ok? ==> Above(LIBRARY, progenitors, nextProgenitors, id, progId, col, w.maxCol, depth)
                        == Ok(Route(halos, ColsOf(added), r.value.maxCol))
    {
      var snap := IdToSnap(id);
      var first;
      first, added, halos := WalkAndPlacePixels(progId, w.pixels, refPos, col, w.maxCol, depth + 1, dist);
      if first.Err? {
        return first, added, halos;
      }
      var mid := first.value;
      var progSnap := IdToSnap(progId);
      var l := LerpEdge(id, progId, refPos, col, mid.pixels, dist);
      if l.Err? {
        return Err(l.error), added, halos;
      }
      mid := mid.(pixels := l.value);
      FirstProgenitorBand(added, col, w.maxCol, mid.maxCol, progSnap, snap);
      var ln := Lookup(nextProgenitors, progId);
      if ln.Err? {
        return Err(ln.error), added, halos;
      }
      var rest;
      ghost var restAdded, restHalos;
      rest, restAdded, restHalos := WalkSiblings(id, progId, ln.value, mid, refPos, col, depth, dist);
      if rest.Err? {
        return rest, added, halos;
      }
      BandJoin(added, restAdded, col, w.maxCol, mid.maxCol, rest.value.maxCol, snap);
      ColsOfConcat(added, restAdded);
      PixelsOfConcat(added, halos, restAdded, restHalos, 0, masses, types, positions, refPos, dist);
      AppendTwice(w.pixels, added, restAdded);
      added, halos := added + restAdded, halos + restHalos;
      r := rest;
    }

    /** `walk_and_place_pixels` (src/lib.rs:199-251): a depth-first walk that
        appends the pixels of every halo above `id`, its own last. The first
        progenitor keeps the column `col`; every further sibling first bumps the
        shared counter `maxCol` and is walked in that fresh column. Both kinds of
        edge call `lerp` with the descendant first, and the sibling edge passes
        the descendant's column.

        `depth` is not in the program: it counts the recursion so that a walk
        deeper than the number of snapshots fails instead of recursing forever.

        Ghost results: `added` is the pixels appended, `halos` the halo each of
        them belongs to. */
    method WalkAndPlacePixels(id: U64, pixels: seq<Pixel>, refPos: Position, col: nat, maxCol: nat,
                              depth: nat, dist: (Position, Position) -> real)
      returns (r: Result<Walk>, ghost added: seq<Pixel>, ghost halos: seq<U64>)
      decreases |progenitors| + 1 - depth, 3
      ensures r.Err? ==> r.error != ShapeMismatch
      ensures r.Ok? ==> r.value.pixels == pixels + added && maxCol <= r.value.maxCol
      ensures r.Ok? ==> |added| >= 1 && |halos| == |added|
      ensures r.Ok? ==> PixelsOf(added, halos, 0, masses, types, positions, refPos, dist)
      ensures r.Ok? ==> halos[|halos| - 1] == id && added[|added| - 1].col == col
      ensures r.Ok? ==> added[|added| - 1].snap == IdToSnap(id)
      ensures r.Ok? ==> InBand(added, col, maxCol, r.value.maxCol, IdToSnap(id))
      ensures r.Ok? && LinksEarlier(progenitors) && col <= maxCol ==> CellsDistinct(added)
      ensures r.Ok? ==> Tour(LIBRARY, progenitors, nextProgenitors, id, col, maxCol, depth)
                        == Ok(Route(halos, ColsOf(added), r.value.maxCol))
    {
      added, halos := [], [];
      if depth > |progenitors| {
        return Err(DepthExceeded), added, halos;
      }
      var lp := Lookup(progenitors, id);
      if lp.Err? {
        return Err(lp.error), added, halos;
      }
      var snap := IdToSnap(id);
      var progId := lp.value;
      var w := Walk(pixels, maxCol);
      if progId != id {
        var sub;
        sub, added, halos := WalkProgenitors(id, progId, w, refPos, col, depth, dist);
        if sub.Err? {
          return sub, added, halos;
        }
        w := sub.value;
      }
      var pos := Lookup(positions, id);
      var mass := Lookup(masses, id);
      var typ := Lookup(types, id);
      if pos.Err? || mass.Err? || typ.Err? {
        return Err(IndexOutOfRange), added, halos;
      }
      var own := Pixel(snap, col, mass.value, typ.value, dist(pos.value, refPos));
      OwnPixelBand(added, own, col, maxCol, w.maxCol, snap);
      TourCloses(LIBRARY, progenitors, nextProgenitors, id, progId, col, maxCol, depth, halos, added, own, w.maxCol);
      PixelsOfConcat(added, halos, [own], [id], 0, masses, types, positions, refPos, dist);
      AppendTwice(pixels, added, [own]);
      added, halos := added + [own], halos + [id];
      r := Ok(w.(pixels := w.pixels + [own]));
    }

    /** `place_pixels` (src/lib.rs:167-197): lays out the tree of root `id`.
        The walk starts in column 0 with the counter at 0, displacements are
        measured from the root's position; the rows are then moved up so the
        earliest snapshot is row 0, and the image spans every occupied row
        and column. The `unwrap`s cannot fail: the walk always places the
        root's own pixel.

        Ghost result: `halos` names the halo of every pixel. */
    method PlacePixels(id: U64, dist: (Position, Position) -> real)
      returns (r: Result<Layout>, ghost halos: seq<U64>)
      ensures r.Err? ==> r.error != ShapeMismatch
      ensures r.Ok? ==> Lookup(positions, id).Ok?
      ensures r.Ok? ==> LaidOut(r.value, halos, id, progenitors, nextProgenitors, masses, types, positions,
                                Lookup(positions, id).value, dist)
    {
      halos := [];
      var refPos := Lookup(positions, id);
      if refPos.Err? {
        return Err(refPos.error), halos;
      }
      var walk;
      ghost var added;
      walk, added, halos := WalkAndPlacePixels(id, [], refPos.value, 0, 0, 0, dist);
      if walk.Err? {
        return Err(walk.error), halos;
      }
      assert walk.value.pixels == added;
      var layout := Normalize(walk.value.pixels);
      PlacedImage(progenitors, nextProgenitors, masses, types, positions, id, refPos.value, dist,
                  added, halos, walk.value.maxCol, layout);
      r := Ok(layout);
    }
  }

  /** The pixels `lerp` pushes: one per snapshot of the half-open range
      `aSnap..bSnap`, all at column `col` and of a's type, with mass and
      displacement interpolated linearly from a's values towards b's. */
  function LerpPixels(aSnap: nat, bSnap: nat, col: nat, aMass: real, bMass: real, typ: int,
                      aDisp: real, bDisp: real): (ps: seq<Pixel>)
    ensures |ps| == if aSnap < bSnap then bSnap - aSnap else 0
    ensures forall k :: 0 <= k < |ps| ==> ps[k].snap == aSnap + k && ps[k].col == col && ps[k].typ == typ
  {
    if aSnap >= bSnap then []
    else
      seq(bSnap - aSnap, k requires 0 <= k < bSnap - aSnap =>
        var frac := k as real / (bSnap - aSnap) as real;
        Pixel(aSnap + k, col, aMass + (bMass - aMass) * frac, typ, aDisp + (bDisp - aDisp) * frac))
  }
}

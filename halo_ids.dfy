/** The halo identifier codec (src/lib.rs:46-54 and 68-70; src/main.rs:50-58 and
    72-74 hold the same three functions). A halo ID is a u64 that packs the
    snapshot and the index of a halo inside that snapshot as
    `snapshot * 10^12 + index + 1`. */
module HaloIds {
  import opened Errors

  const U64_LIMIT: int := 0x1_0000_0000_0000_0000

  type U64 = x: int | 0 <= x < U64_LIMIT

  /** `10u64.pow(12)`: the weight of the snapshot part of an ID. */
  const SNAP_BASE: nat := 1_000_000_000_000

  /** `id_to_snap`: the snapshot is the quotient by 10^12 (`SnapBounds`). */
  function IdToSnap(id: U64): nat {
    id / SNAP_BASE
  }

  /** `id_to_ind`: the index is the remainder minus one; a remainder of 0 makes
      the u64 subtraction underflow, which panics. */
  function IdToInd(id: U64): (r: Result<nat>)
    ensures r.Err? <==> id % SNAP_BASE == 0
    ensures r.Err? ==> r.error == InvalidIdentifier
  {
    var low := id % SNAP_BASE;
    if low == 0 then Err(InvalidIdentifier) else Ok(low - 1)
  }

  /** `id_to_snap_ind`: both parts, failing exactly when `IdToInd` fails
      (`Recombine` says what the parts are). */
  function IdToSnapInd(id: U64): (r: Result<(nat, nat)>)
    ensures r.Ok? <==> IdToInd(id).Ok?
    ensures r.Err? ==> r.error == InvalidIdentifier
  {
    match IdToInd(id)
    case Err(e) => Err(e)
    case Ok(ind) => Ok((IdToSnap(id), ind))
  }

  /** The snapshot of an ID is its quotient by 10^12. */
  lemma SnapBounds(id: U64)
    ensures IdToSnap(id) * SNAP_BASE <= id < IdToSnap(id) * SNAP_BASE + SNAP_BASE
  {
  }

  /** A decoded ID's parts are its snapshot and an index whose successor is
      below 10^12, and they recombine to the ID. */
  lemma Recombine(id: U64)
    requires IdToSnapInd(id).Ok?
    ensures IdToSnapInd(id).value.0 == IdToSnap(id) && IdToSnapInd(id).value.1 + 1 < SNAP_BASE
    ensures IdToSnapInd(id).value.0 * SNAP_BASE + IdToSnapInd(id).value.1 + 1 == id
  {
  }

  /** The ID a (snapshot, index) pair is stored under. The program never builds
      IDs itself (they come from the input); this is the inverse the decoders
      are checked against. */
  predicate Encodable(snap: nat, ind: nat) {
    ind + 1 < SNAP_BASE && snap * SNAP_BASE + ind + 1 < U64_LIMIT
  }

  function Encode(snap: nat, ind: nat): (id: U64)
    requires Encodable(snap, ind)
    ensures id % SNAP_BASE != 0
  {
    snap * SNAP_BASE + ind + 1
  }

  /** Decoding an encoded pair gives the pair back. */
  lemma {:induction false} DecodeEncode(snap: nat, ind: nat)
    requires Encodable(snap, ind)
    ensures IdToSnapInd(Encode(snap, ind)) == Ok((snap, ind))
  {
    var id := Encode(snap, ind);
    DivModUnique(id, snap, ind + 1);
  }

  /** Every ID that decodes is the encoding of what it decodes to. */
  lemma EncodeDecode(id: U64)
    requires IdToSnapInd(id).Ok?
    ensures Encodable(IdToSnapInd(id).value.0, IdToSnapInd(id).value.1)
    ensures Encode(IdToSnapInd(id).value.0, IdToSnapInd(id).value.1) == id
  {
  }

  /** Two IDs that decode to the same cell are the same ID, so writes through
      distinct IDs never hit the same array cell. */
  lemma DecodeInjective(a: U64, b: U64)
    requires IdToSnapInd(a).Ok? && IdToSnapInd(a) == IdToSnapInd(b)
    ensures a == b
  {
  }

  /** The decoder fails exactly on IDs whose low part is zero. */
  lemma DecodeFailsIffLowZero(id: U64)
    ensures IdToSnapInd(id) == Err(InvalidIdentifier) <==> id % SNAP_BASE == 0
    ensures IdToSnapInd(id).Err? ==> IdToSnapInd(id) == Err(InvalidIdentifier)
  {
  }

  /** Uniqueness of quotient and remainder by 10^12. */
  lemma DivModUnique(id: nat, q: nat, m: nat)
    requires 0 < m < SNAP_BASE && id == q * SNAP_BASE + m
    ensures id / SNAP_BASE == q && id % SNAP_BASE == m
  {
  }
}

/** The forest arrays: one array per snapshot (`Vec<Array1<T>>` in src/lib.rs:29-35),
    addressed through halo IDs. Reading a cell decodes the ID and indexes twice;
    every way this panics in the program is an `Err` here. */
module Tables {
  import opened Errors
  import opened HaloIds

  type Table<T> = seq<seq<T>>

  /** The length of every per-snapshot array. Writes never change it. */
  function Shape<T>(t: Table<T>): (s: seq<nat>)
    ensures |s| == |t| && forall i :: 0 <= i < |t| ==> s[i] == |t[i]|
  {
    seq(|t|, i requires 0 <= i < |t| => |t[i]|)
  }

  /** The ID decodes to a cell that exists in arrays of this shape. */
  predicate Addressable(shape: seq<nat>, id: U64) {
    match IdToSnapInd(id)
    case Err(_) => false
    case Ok((snap, ind)) => snap < |shape| && ind < shape[snap]
  }

  /** `table[snap][ind]` for the decoded ID: an invalid ID or a cell outside the
      arrays is a failure, otherwise the value stored in that cell. */
  function Lookup<T>(t: Table<T>, id: U64): (r: Result<T>)
    ensures r.Ok? <==> Addressable(Shape(t), id)
    ensures r.Err? ==> r.error == InvalidIdentifier || r.error == IndexOutOfRange
  {
    match IdToSnapInd(id)
    case Err(e) => Err(e)
    case Ok((snap, ind)) =>
      if snap < |t| && ind < |t[snap]| then Ok(t[snap][ind]) else Err(IndexOutOfRange)
  }

  /** `table[snap][ind] = v` for the decoded ID of a cell that exists. */
  function Store<T>(t: Table<T>, id: U64, v: T): (r: Table<T>)
    requires Lookup(t, id).Ok?
    ensures Shape(r) == Shape(t)
    ensures Lookup(r, id) == Ok(v)
    ensures forall x :: x != id ==> Lookup(r, x) == Lookup(t, x)
  {
    var (snap, ind) := IdToSnapInd(id).value;
    var r := t[snap := t[snap][ind := v]];
    assert Shape(r) == Shape(t);
    forall x | x != id
      ensures Lookup(r, x) == Lookup(t, x)
    {
      if IdToSnapInd(x).Ok? && IdToSnapInd(x).value == (snap, ind) {
        DecodeInjective(x, id);
      }
    }
    r
  }

  /** What a lookup reads, and why it fails. */
  lemma LookupCell<T>(t: Table<T>, id: U64)
    ensures Lookup(t, id).Ok? ==> Lookup(t, id).value == t[IdToSnap(id)][IdToSnapInd(id).value.1]
    ensures Lookup(t, id).Err? ==>
      Lookup(t, id).error == (if IdToSnapInd(id).Err? then InvalidIdentifier else IndexOutOfRange)
  {
  }

  /** Arrays of one shape fail on the same IDs. */
  lemma SameShapeLookup<T, U>(a: Table<T>, b: Table<U>, id: U64)
    requires Shape(a) == Shape(b)
    ensures Lookup(a, id).Ok? <==> Lookup(b, id).Ok?
  {
  }

  /** Every first-progenitor link of the table leads to a strictly earlier
      snapshot (a halo without progenitor links to itself). */
  ghost predicate LinksEarlier(progenitors: Table<U64>) {
    forall x :: Lookup(progenitors, x).Ok? && Lookup(progenitors, x).value != x ==>
      IdToSnap(Lookup(progenitors, x).value) < IdToSnap(x)
  }
}

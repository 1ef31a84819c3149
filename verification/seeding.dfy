/**
 * setUp: the initial store built from the records decoded out of the
 * embedded seed file.
 */
module Seeding {
  import opened Wrappers
  import opened Records

  /**
   * What the JSON decoder leaves behind: the records it managed to decode and
   * the error it reported, if any. setUp only logs the error.
   */
  datatype Decoded = Decoded(records: seq<Scooter>, error: Option<string>)

  /** The set of IDs occurring in a sequence of records. */
  function Ids(xs: seq<Scooter>): set<string>
  {
    set x | x in xs :: x.id
  }

  /** The IDs of a non-empty sequence: the first record's and those of the rest. */
  lemma IdsFront(xs: seq<Scooter>)
    requires xs != []
    ensures Ids(xs) == {xs[0].id} + Ids(xs[1..])
  {
  }

  /**
   * The map the seeding loop leaves after the records xs, in order: each
   * record stored under its own ID, a later record replacing an earlier one
   * with the same ID.
   */
  function Seeded(xs: seq<Scooter>): (m: map<string, Scooter>)
    ensures m.Keys == Ids(xs)
    ensures |m| <= |xs|
    ensures WellKeyed(m)
    decreases |xs|
  {
    if xs == [] then map[]
    else
      var last := xs[|xs| - 1];
      assert xs == xs[..|xs| - 1] + [last];
      Seeded(xs[..|xs| - 1])[last.id := last]
  }

  /** The record stored under an ID is the last seed record with that ID. */
  lemma {:induction false} SeededLast(xs: seq<Scooter>, j: nat)
    requires j < |xs|
    requires forall j' | j < j' < |xs| :: xs[j'].id != xs[j].id
    ensures xs[j].id in Seeded(xs) && Seeded(xs)[xs[j].id] == xs[j]
    decreases |xs|
  {
    if j < |xs| - 1 {
      var front := xs[..|xs| - 1];
      assert forall j' | j < j' < |front| :: front[j'].id == xs[j'].id;
      SeededLast(front, j);
    }
  }

  /**
   * setUp: stores every decoded record under its ID, in order. The decode
   * error does not stop it; a decoder that produced no records gives an
   * empty store.
   */
  method SetUp(decoded: Decoded) returns (m: map<string, Scooter>)
    ensures m == Seeded(decoded.records)
    ensures decoded.records == [] ==> m == map[]
  {
    var xs := decoded.records;
    m := map[];
    for i := 0 to |xs|
      invariant m == Seeded(xs[..i])
    {
      var seen := xs[..i + 1];
      assert seen[..i] == xs[..i] && seen[i] == xs[i];
      m := m[xs[i].id := xs[i]];
    }
    assert xs[..|xs|] == xs;
  }
}

/**
 * The EScooter record of main.go and the field-by-field merge rule that a
 * POST applies to it.
 */
module Records {
  import opened Wrappers

  /** A geo.Point (a latitude/longitude pair). Only ever compared for equality. */
  type Point(==)

  /** Go's int64 and int16: the ranges of the KM and AKKU fields. */
  newtype int64 = x: int | -0x8000_0000_0000_0000 <= x < 0x8000_0000_0000_0000
  newtype int16 = x: int | -0x8000 <= x < 0x8000

  /** EScooter: a nil GPS pointer is None. */
  datatype Scooter = Scooter(id: string, gps: Option<Point>, km: int64, akku: int16, state: bool)

  /** Go's zero value of EScooter, which a map lookup of a missing key yields. */
  const Zero: Scooter := Scooter("", None, 0, 0, false)

  /**
   * The record a POST stores: every field the incoming record leaves at its
   * zero value ("unset": nil GPS, 0 AKKU, 0 KM) is taken from the existing
   * record; ID and STATE always come from the incoming record.
   */
  function Merge(existing: Scooter, incoming: Scooter): (r: Scooter)
    ensures r.id == incoming.id && r.state == incoming.state
    ensures incoming.gps != None ==> r.gps == incoming.gps
    ensures incoming.gps == None ==> r.gps == existing.gps
    ensures incoming.akku != 0 ==> r.akku == incoming.akku
    ensures incoming.akku == 0 ==> r.akku == existing.akku
    ensures incoming.km != 0 ==> r.km == incoming.km
    ensures incoming.km == 0 ==> r.km == existing.km
  {
    var gps := if incoming.gps == None then existing.gps else incoming.gps;
    var akku := if incoming.akku == 0 then existing.akku else incoming.akku;
    var km := if incoming.km == 0 then existing.km else incoming.km;
    incoming.(gps := gps, akku := akku, km := km)
  }

  /** Every key maps to the record carrying that key as its ID, as both setUp and post keep it. */
  predicate WellKeyed(m: map<string, Scooter>)
  {
    forall k | k in m :: m[k].id == k
  }

  /** True when every mergeable field of the record is set (not at its zero value). */
  predicate FullySupplied(s: Scooter)
  {
    s.gps != None && s.akku != 0 && s.km != 0
  }

  /** Merging into the zero record (a first POST for an id) keeps the incoming record as it is. */
  lemma MergeIntoZero(incoming: Scooter)
    ensures Merge(Zero, incoming) == incoming
  {
  }

  /** A record whose every mergeable field is set replaces the existing one outright. */
  lemma MergeFullySupplied(existing: Scooter, incoming: Scooter)
    requires FullySupplied(incoming)
    ensures Merge(existing, incoming) == incoming
  {
  }

  /** Merging the same incoming record a second time changes nothing. */
  lemma MergeIdempotent(existing: Scooter, incoming: Scooter)
    ensures Merge(Merge(existing, incoming), incoming) == Merge(existing, incoming)
  {
  }

  /**
   * STATE is never preserved: whatever the existing record holds, the merged
   * record's STATE is the incoming one, so an omitted (false) STATE overwrites a
   * stored true, while an omitted KM keeps the stored distance.
   */
  lemma MergeOmittedFields(existing: Scooter, id: string)
    ensures var r := Merge(existing, Scooter(id, None, 0, 0, false));
      r == existing.(id := id, state := false)
  {
  }
}

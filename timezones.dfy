/** The student's timezone: read off the roster's hint, or asked of the operator. */
module Timezones {
  import opened Wrappers
  import opened Text

  /** A timezone, known only by its tz-database name. */
  datatype Zone = Zone(name: string)

  const CENTRAL := Zone("US/Central")
  const EASTERN := Zone("US/Eastern")
  const MOUNTAIN := Zone("US/Mountain")
  const PACIFIC := Zone("US/Pacific")

  /** The abbreviations searched for in a hint, in the order they are tried, with their zones. */
  const TABLE: seq<(string, Zone)> := [("CST", CENTRAL), ("EST", EASTERN), ("MST", MOUNTAIN), ("PST", PACIFIC)]

  /** Some abbreviation of the table occurs in the hint. */
  predicate Recognized(hint: string) {
    exists j :: 0 <= j < |TABLE| && Contains(hint, TABLE[j].0)
  }

  /** The `if`/`elif` chain over the hint. */
  function ZoneFor(hint: string): Option<Zone> {
    if Contains(hint, "CST") then Some(CENTRAL)
    else if Contains(hint, "EST") then Some(EASTERN)
    else if Contains(hint, "MST") then Some(MOUNTAIN)
    else if Contains(hint, "PST") then Some(PACIFIC)
    else None
  }

  /** The first table entry whose abbreviation occurs in the hint gives the zone, whatever
      later entries also occur. */
  lemma ZoneForFirstMatch(hint: string, k: nat)
    requires k < |TABLE| && Contains(hint, TABLE[k].0)
    requires forall j :: 0 <= j < k ==> !Contains(hint, TABLE[j].0)
    ensures ZoneFor(hint) == Some(TABLE[k].1)
  {
    if k > 0 { assert !Contains(hint, TABLE[0].0); }
    if k > 1 { assert !Contains(hint, TABLE[1].0); }
    if k > 2 { assert !Contains(hint, TABLE[2].0); }
  }

  /** The chain finds nothing exactly when no abbreviation of the table occurs. */
  lemma ZoneForNone(hint: string)
    ensures ZoneFor(hint) == None <==> !Recognized(hint)
  {
    if Recognized(hint) {
      var j :| 0 <= j < |TABLE| && Contains(hint, TABLE[j].0);
      assert j == 0 || j == 1 || j == 2 || j == 3;
    } else {
      assert !Contains(hint, TABLE[0].0) && !Contains(hint, TABLE[1].0);
      assert !Contains(hint, TABLE[2].0) && !Contains(hint, TABLE[3].0);
    }
  }

  /** How the zone was settled: `Resolved` with the position of the first unread answer,
      `NoAnswer` when an answer was needed and none was left, `Unknown` when the
      operator's answer names no zone of the tz database. */
  datatype ZoneOutcome = Resolved(zone: Zone, next: nat) | NoAnswer | Unknown(name: string)

  /** The zone for a hint; when the table does not recognize it, the operator's next
      answer is looked up in the tz database `lookup`. The operator is asked exactly when
      no abbreviation occurs: a recognized hint reads no answer and takes the table's
      zone; an unrecognized one reads exactly one answer when one is left, and fails
      with `NoAnswer` only when none is. */
  function ResolveZone(hint: string, script: seq<string>, pos: nat, lookup: string -> Option<Zone>): (r: ZoneOutcome)
    requires pos <= |script|
    ensures r.Resolved? ==> pos <= r.next <= |script|
    ensures r.Resolved? ==> (r.next == pos <==> Recognized(hint))
    ensures !r.Resolved? ==> !Recognized(hint)
    ensures r.Resolved? && r.next == pos ==> ZoneFor(hint) == Some(r.zone)
    ensures r.Resolved? && r.next == pos + 1 ==> lookup(script[pos]) == Some(r.zone)
    ensures r.Unknown? ==> pos < |script| && r.name == script[pos] && lookup(r.name) == None
    ensures !Recognized(hint) ==> (r.NoAnswer? <==> pos == |script|)
    ensures !Recognized(hint) && r.Resolved? ==> r.next == pos + 1
  {
    ZoneForNone(hint);
    match ZoneFor(hint)
    case Some(z) => Resolved(z, pos)
    case None =>
      if pos == |script| then NoAnswer
      else
        match lookup(script[pos])
        case Some(z) => Resolved(z, pos + 1)
        case None => Unknown(script[pos])
  }
}

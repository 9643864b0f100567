/** The comparison of two countries (main.py, from the two lookups to the
    error message): current local times, offset difference and conversion. */
module Comparison {
  import opened Wrappers
  import opened Clock
  import opened Zones
  import opened Conversion

  /** Everything the page shows when both zones were found. */
  datatype Comparison = Comparison(
    zone1: ZoneName,
    zone2: ZoneName,
    local1: TimeOfDay,    // current `%H:%M:%S` in the first zone
    local2: TimeOfDay,    // current `%H:%M:%S` in the second zone
    offset1: int,         // current UTC offset of the first zone, in seconds
    offset2: int,         // current UTC offset of the second zone, in seconds
    difference: int,      // the "Diferencia horaria", in seconds
    sameZone: bool,       // whether "(misma zona horaria)" is shown
    converted: DateTime)  // the input time of the first zone, in the second zone

  /** The page either compares, or shows only its error message. */
  datatype Page = Compared(comparison: Comparison) | LookupFailed

  /** `now_utc.astimezone(tz)` shown as `%H:%M:%S`: the instant moved by the
      zone's current offset, taken modulo a day. */
  function LocalTime(db: ZoneDb, zone: ZoneName, now: int): (t: TimeOfDay)
    ensures t.Valid() && Seconds(t) == (now + db.utcOffset(zone, now)) % SecondsPerDay
  {
    Split(AsTimezone(now, db.utcOffset(zone, now))).time
  }

  /** The comparison section for two country codes, the clock reading `now`
      (UTC seconds), the caller's date `today` and the chosen input time. */
  function ComparePage(table: ZoneTable, code1: CountryCode, code2: CountryCode, db: ZoneDb,
                       now: int, today: int, input: TimeOfDay): (p: Page)
    requires input.Valid()
    ensures p.Compared? <==> Truthy(TimezoneOf(table, code1)) && Truthy(TimezoneOf(table, code2))
    ensures p.Compared? ==>
              var c := p.comparison;
              c.zone1 == table[code1][0] && c.zone2 == table[code2][0] &&
              c.offset1 == db.utcOffset(c.zone1, now) && c.offset2 == db.utcOffset(c.zone2, now) &&
              c.local1 == LocalTime(db, c.zone1, now) && c.local2 == LocalTime(db, c.zone2, now) &&
              c.offset1 + c.difference == c.offset2 &&
              (c.sameZone <==> c.offset1 == c.offset2) &&
              c.converted == Convert(db, c.zone1, c.zone2, today, input)
  {
    var tz1 := TimezoneOf(table, code1);
    var tz2 := TimezoneOf(table, code2);
    if Truthy(tz1) && Truthy(tz2) then
      var offset1 := db.utcOffset(tz1.value, now);
      var offset2 := db.utcOffset(tz2.value, now);
      var diff := offset2 - offset1;
      Compared(Comparison(tz1.value, tz2.value, LocalTime(db, tz1.value, now), LocalTime(db, tz2.value, now),
                          offset1, offset2, diff, diff == 0, Convert(db, tz1.value, tz2.value, today, input)))
    else
      LookupFailed
  }

  /** Swapping the two countries swaps the zones, local times and offsets,
      negates the difference and keeps the same-zone label. */
  lemma {:induction false} CompareSwapped(table: ZoneTable, code1: CountryCode, code2: CountryCode, db: ZoneDb,
                                          now: int, today: int, input: TimeOfDay)
    requires input.Valid()
    ensures var p := ComparePage(table, code1, code2, db, now, today, input);
            var q := ComparePage(table, code2, code1, db, now, today, input);
            p.Compared? == q.Compared? &&
            (p.Compared? ==>
               q.comparison.zone1 == p.comparison.zone2 && q.comparison.zone2 == p.comparison.zone1 &&
               q.comparison.local1 == p.comparison.local2 && q.comparison.local2 == p.comparison.local1 &&
               q.comparison.offset1 == p.comparison.offset2 && q.comparison.offset2 == p.comparison.offset1 &&
               q.comparison.difference == -p.comparison.difference &&
               q.comparison.sameZone == p.comparison.sameZone)
  {
  }

  /** Two countries whose first zone is the same show a zero difference, the
      same-zone label and the input time unchanged (away from a spring-forward gap). */
  lemma {:induction false} CompareSameZone(table: ZoneTable, code1: CountryCode, code2: CountryCode, db: ZoneDb,
                                           now: int, today: int, input: TimeOfDay)
    requires input.Valid()
    requires Truthy(TimezoneOf(table, code1)) && TimezoneOf(table, code1) == TimezoneOf(table, code2)
    requires db.LocalizeConsistent(TimezoneOf(table, code1).value, Combine(today, input))
    ensures var p := ComparePage(table, code1, code2, db, now, today, input);
            p.Compared? && p.comparison.difference == 0 && p.comparison.sameZone &&
            p.comparison.local1 == p.comparison.local2 &&
            p.comparison.converted == DateTime(today, input)
  {
    ConvertSameZone(db, TimezoneOf(table, code1).value, today, input);
  }
}

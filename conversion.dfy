/** The time converter (main.py: `localize` followed by `astimezone`). */
module Conversion {
  import opened Clock
  import opened Zones

  /** `tz.localize(naive)` under a given offset: the UTC instant of a wall time. */
  function Localize(wall: int, offset: int): int {
    wall - offset
  }

  /** `aware.astimezone(tz)` under a given offset: the wall time of an instant. */
  function AsTimezone(instant: int, offset: int): int {
    instant + offset
  }

  /** The offset `localize` picks for the input time on the reference date. */
  function SourceOffset(db: ZoneDb, source: ZoneName, today: int, input: TimeOfDay): int
    requires input.Valid()
  {
    db.localizeOffset(source, Combine(today, input))
  }

  /** The instant the input time on the reference date denotes in the source zone. */
  function SourceInstant(db: ZoneDb, source: ZoneName, today: int, input: TimeOfDay): int
    requires input.Valid()
  {
    Localize(Combine(today, input), SourceOffset(db, source, today, input))
  }

  /** The target zone's offset at that instant. */
  function TargetOffset(db: ZoneDb, source: ZoneName, target: ZoneName, today: int, input: TimeOfDay): int
    requires input.Valid()
  {
    db.utcOffset(target, SourceInstant(db, source, today, input))
  }

  /** The converter: combine the reference date with
      the input time, localize it in the source zone, re-express it in the target zone. */
  function Convert(db: ZoneDb, source: ZoneName, target: ZoneName, today: int, input: TimeOfDay): (r: DateTime)
    requires input.Valid()
    ensures r.time.Valid()
    ensures var instant := SourceInstant(db, source, today, input);
            Combine(r.day, r.time) == instant + db.utcOffset(target, instant)
  {
    var instant := SourceInstant(db, source, today, input);
    Split(AsTimezone(instant, db.utcOffset(target, instant)))
  }

  /** The displayed `%H:%M:%S` of the result is the input's seconds moved by
      the offset difference, modulo a day; the date moves by the floor of the same sum. */
  lemma {:induction false} ConvertShown(db: ZoneDb, source: ZoneName, target: ZoneName, today: int, input: TimeOfDay)
    requires input.Valid()
    ensures var x := Seconds(input) - SourceOffset(db, source, today, input) + TargetOffset(db, source, target, today, input);
            Convert(db, source, target, today, input) == DateTime(today + x / SecondsPerDay, FromSeconds(x % SecondsPerDay))
  {
    var x := Seconds(input) - SourceOffset(db, source, today, input) + TargetOffset(db, source, target, today, input);
    ShiftFromMidnight(today, x);
  }

  /** While the two offsets differ by at most a day the result lands on the
      previous, the same or the next day, and it rolls exactly when the moved
      seconds leave [0, 86400). */
  lemma {:induction false} ConvertRollover(db: ZoneDb, source: ZoneName, target: ZoneName, today: int, input: TimeOfDay)
    requires input.Valid()
    requires -SecondsPerDay <= TargetOffset(db, source, target, today, input) - SourceOffset(db, source, today, input) <= SecondsPerDay
    ensures var x := Seconds(input) - SourceOffset(db, source, today, input) + TargetOffset(db, source, target, today, input);
            var r := Convert(db, source, target, today, input);
            today - 1 <= r.day <= today + 1 &&
            (r.day == today + 1 <==> x >= SecondsPerDay) &&
            (r.day == today - 1 <==> x < 0)
  {
    var x := Seconds(input) - SourceOffset(db, source, today, input) + TargetOffset(db, source, target, today, input);
    ConvertShown(db, source, target, today, input);
    if x < 0 {
      DivModUnique(x, SecondsPerDay, -1, x + SecondsPerDay);
    } else if x < SecondsPerDay {
      DivModUnique(x, SecondsPerDay, 0, x);
    } else {
      DivModUnique(x, SecondsPerDay, 1, x - SecondsPerDay);
    }
  }

  /** When the offset the source zone's clock is read with equals the target
      zone's offset at that instant, the result is the input date and time. */
  lemma {:induction false} ConvertEqualOffsets(db: ZoneDb, source: ZoneName, target: ZoneName, today: int, input: TimeOfDay)
    requires input.Valid()
    requires SourceOffset(db, source, today, input) == TargetOffset(db, source, target, today, input)
    ensures Convert(db, source, target, today, input) == DateTime(today, input)
  {
    SplitCombine(today, input);
  }

  /** Converting into the zone itself gives back the input date and time,
      unless `localize` picked an offset the zone does not have at that instant. */
  lemma {:induction false} ConvertSameZone(db: ZoneDb, zone: ZoneName, today: int, input: TimeOfDay)
    requires input.Valid()
    requires db.LocalizeConsistent(zone, Combine(today, input))
    ensures Convert(db, zone, zone, today, input) == DateTime(today, input)
  {
    ConvertEqualOffsets(db, zone, zone, today, input);
  }

  /** Converting the result back gives the original date and time, except
      across a daylight-saving boundary where either step's choice of offset fails. */
  lemma {:induction false} ConvertRoundTrip(db: ZoneDb, source: ZoneName, target: ZoneName, today: int, input: TimeOfDay)
    requires input.Valid()
    requires db.LocalizeConsistent(source, Combine(today, input))
    requires db.LocalizeRecovers(target, SourceInstant(db, source, today, input))
    ensures var r := Convert(db, source, target, today, input);
            Convert(db, target, source, r.day, r.time) == DateTime(today, input)
  {
    var instant := SourceInstant(db, source, today, input);
    var r := Convert(db, source, target, today, input);
    assert Combine(r.day, r.time) == instant + db.utcOffset(target, instant);
    assert SourceInstant(db, target, r.day, r.time) == instant;
    SplitCombine(today, input);
  }

  /** The two fixed-offset zones of the usual example: Buenos Aires (UTC-3)
      and Madrid in winter (UTC+1). */
  function ArgentinaSpainWinter(): ZoneDb {
    ZoneDb((zone: ZoneName, instant: int) => if zone == "Europe/Madrid" then 3600 else -10800,
           (zone: ZoneName, wall: int) => if zone == "Europe/Madrid" then 3600 else -10800)
  }

  /** 09:00 in Buenos Aires is 13:00 the same day in Madrid in winter. */
  lemma ExampleBuenosAiresToMadrid(today: int)
    ensures Convert(ArgentinaSpainWinter(), "America/Argentina/Buenos_Aires", "Europe/Madrid", today, TimeOfDay(9, 0, 0))
            == DateTime(today, TimeOfDay(13, 0, 0))
  {
    var t := TimeOfDay(13, 0, 0);
    assert Combine(today, TimeOfDay(9, 0, 0)) + 10800 + 3600 == Combine(today, t);
    SplitCombine(today, t);
  }
}

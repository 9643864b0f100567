/** The per-country offset table handed to the choropleth (main.py, the loop
    that fills `country_data`). */
module WorldMap {
  import opened Wrappers
  import opened Clock
  import opened Zones
  import opened Comparison

  /** A pycountry entry: its name and alpha-2 code. */
  datatype Country = Country(name: string, alpha2: CountryCode)

  /** One row of `country_data`. */
  datatype Row = Row(country: string, code: CountryCode, zone: ZoneName, localTime: TimeOfDay, utcOffset: int)

  /** `table.get(code)`. */
  function Get(table: ZoneTable, code: CountryCode): Option<seq<ZoneName>> {
    if code in table then Some(table[code]) else None
  }

  /** Whether the looked-up zone list is truthy: a missing entry and an empty list are both false. */
  predicate HasZones(table: ZoneTable, code: CountryCode) {
    match Get(table, code)
    case None => false
    case Some(zones) => |zones| > 0
  }

  /** The row of a country that has zones: its first zone, the time there now and its offset. */
  function RowOf(c: Country, table: ZoneTable, db: ZoneDb, now: int): (r: Row)
    requires HasZones(table, c.alpha2)
    ensures r.country == c.name && r.code == c.alpha2
    ensures TimezoneOf(table, c.alpha2) == Some(r.zone)
    ensures r.utcOffset == db.utcOffset(r.zone, now) && r.localTime == LocalTime(db, r.zone, now)
  {
    var zone := table[c.alpha2][0];
    Row(c.name, c.alpha2, zone, LocalTime(db, zone, now), db.utcOffset(zone, now))
  }

  /** The rows the loop has produced after the countries of `countries`. */
  function WorldRows(countries: seq<Country>, table: ZoneTable, db: ZoneDb, now: int): seq<Row>
    decreases |countries|
  {
    if countries == [] then []
    else
      var last := countries[|countries| - 1];
      var rows := WorldRows(countries[..|countries| - 1], table, db, now);
      if HasZones(table, last.alpha2) then rows + [RowOf(last, table, db, now)] else rows
  }

  /** The loop over `pycountry.countries`, appending one row per country that has zones. */
  method BuildWorldTable(countries: seq<Country>, table: ZoneTable, db: ZoneDb, now: int) returns (rows: seq<Row>)
    ensures rows == WorldRows(countries, table, db, now)
  {
    rows := [];
    var i := 0;
    while i < |countries|
      invariant 0 <= i <= |countries|
      invariant rows == WorldRows(countries[..i], table, db, now)
    {
      var country := countries[i];
      var timezones := Get(table, country.alpha2);
      if timezones.Some? && |timezones.value| > 0 {
        var zone := timezones.value[0];
        var offset := db.utcOffset(zone, now);
        rows := rows + [Row(country.name, country.alpha2, zone, LocalTime(db, zone, now), offset)];
      }
      assert countries[..i + 1][..i] == countries[..i];
      i := i + 1;
    }
    assert countries[..i] == countries;
  }

  /** The countries that have zones, in their original order: an independent
      reading of the filter, taken from the front. */
  function WithZones(countries: seq<Country>, table: ZoneTable): (kept: seq<Country>)
    ensures forall c :: c in kept <==> c in countries && HasZones(table, c.alpha2)
    ensures |kept| <= |countries|
  {
    if countries == [] then []
    else
      var rest := WithZones(countries[1..], table);
      assert forall c :: c in countries <==> c == countries[0] || c in countries[1..];
      if HasZones(table, countries[0].alpha2) then [countries[0]] + rest else rest
  }

  /** Filtering a concatenation filters each part. */
  lemma {:induction false} WithZonesAppend(xs: seq<Country>, ys: seq<Country>, table: ZoneTable)
    ensures WithZones(xs + ys, table) == WithZones(xs, table) + WithZones(ys, table)
  {
    if xs != [] {
      assert (xs + ys)[1..] == xs[1..] + ys;
      WithZonesAppend(xs[1..], ys, table);
    } else {
      assert xs + ys == ys;
    }
  }

  /** Row `k` is the row of the `k`-th country of `kept`, and there are no others. */
  predicate RowsOf(rows: seq<Row>, kept: seq<Country>, table: ZoneTable, db: ZoneDb, now: int) {
    |rows| == |kept| &&
    forall k :: 0 <= k < |rows| ==> HasZones(table, kept[k].alpha2) && rows[k] == RowOf(kept[k], table, db, now)
  }

  /** Every row shows a country of `countries` with the zone the lookup returns for its code. */
  predicate FirstZoneRows(rows: seq<Row>, countries: seq<Country>, table: ZoneTable) {
    forall k :: 0 <= k < |rows| ==>
      rows[k].code in table && |table[rows[k].code]| > 0 &&
      TimezoneOf(table, rows[k].code) == Some(rows[k].zone) &&
      Country(rows[k].country, rows[k].code) in countries
  }

  /** No two rows share a code. */
  predicate UniqueRowCodes(rows: seq<Row>) {
    forall i, j :: 0 <= i < j < |rows| ==> rows[i].code != rows[j].code
  }

  /** The table has exactly one row per country with zones, in the countries'
      order, each built from that country. */
  lemma {:induction false} WorldRowsFollowCountries(countries: seq<Country>, table: ZoneTable, db: ZoneDb, now: int)
    ensures RowsOf(WorldRows(countries, table, db, now), WithZones(countries, table), table, db, now)
    decreases |countries|
  {
    if countries != [] {
      var n := |countries|;
      var init := countries[..n - 1];
      var last := countries[n - 1];
      WorldRowsFollowCountries(init, table, db, now);
      assert countries == init + [last];
      WithZonesAppend(init, [last], table);
      assert WithZones([last], table) == if HasZones(table, last.alpha2) then [last] else [];
    }
  }

  /** Every row uses the first zone of a country present in the zone table
      with a non-empty list: the zone the lookup returns for its code. */
  lemma {:induction false} WorldRowsUseFirstZone(countries: seq<Country>, table: ZoneTable, db: ZoneDb, now: int)
    ensures FirstZoneRows(WorldRows(countries, table, db, now), countries, table)
  {
    WorldRowsFollowCountries(countries, table, db, now);
  }

  /** A country absent from the zone table, or listed with no zones, has no row. */
  lemma {:induction false} WorldRowsOmitZoneless(countries: seq<Country>, table: ZoneTable, db: ZoneDb, now: int, code: CountryCode)
    requires !HasZones(table, code)
    ensures forall r :: r in WorldRows(countries, table, db, now) ==> r.code != code
  {
    WorldRowsUseFirstZone(countries, table, db, now);
  }

  /** No two countries share a code. */
  predicate UniqueCodes(countries: seq<Country>) {
    forall i, j :: 0 <= i < j < |countries| ==> countries[i].alpha2 != countries[j].alpha2
  }

  /** With unique country codes, the rows have unique codes. */
  lemma {:induction false} WorldRowsUniqueCodes(countries: seq<Country>, table: ZoneTable, db: ZoneDb, now: int)
    requires UniqueCodes(countries)
    ensures UniqueRowCodes(WorldRows(countries, table, db, now))
    decreases |countries|
  {
    if countries != [] {
      var n := |countries|;
      var init := countries[..n - 1];
      var last := countries[n - 1];
      assert UniqueCodes(init);
      WorldRowsUniqueCodes(init, table, db, now);
      var rows := WorldRows(init, table, db, now);
      WorldRowsUseFirstZone(init, table, db, now);
      forall k | 0 <= k < |rows|
        ensures rows[k].code != last.alpha2
      {
        var c := Country(rows[k].country, rows[k].code);
        assert c in init;
        var i :| 0 <= i < |init| && init[i] == c;
        assert countries[i] == c;
      }
      assert WorldRows(countries, table, db, now) ==
             if HasZones(table, last.alpha2) then rows + [RowOf(last, table, db, now)] else rows;
    }
  }
}

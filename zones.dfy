/** The country -> zone table and the zone database, and the lookup the page
    does on them (main.py, `get_timezone_from_country_code`). */
module Zones {
  import opened Wrappers

  /** An ISO 3166-1 alpha-2 code such as "AR". */
  type CountryCode = string

  /** An IANA zone name such as "America/Argentina/Buenos_Aires". */
  type ZoneName = string

  /** `pytz.country_timezones`: each code's candidate zones, in the database's order. */
  type ZoneTable = map<CountryCode, seq<ZoneName>>

  /** The zone database, reduced to the two questions the page puts to it.
      Offsets are whole seconds east of UTC; instants are seconds of UTC and
      wall times are seconds of the naive timeline (see module Clock).
      - `utcOffset(zone, instant)`: the offset `astimezone` applies at a UTC instant;
      - `localizeOffset(zone, wall)`: the offset `localize` picks for a naive wall time,
        including its choice inside a daylight-saving gap or overlap. */
  datatype ZoneDb = ZoneDb(utcOffset: (ZoneName, int) -> int, localizeOffset: (ZoneName, int) -> int)
  {
    /** The offset `localize` picks for `wall` is the one the zone really has
        at the instant it yields: true everywhere except inside a spring-forward gap. */
    predicate LocalizeConsistent(zone: ZoneName, wall: int) {
      utcOffset(zone, wall - localizeOffset(zone, wall)) == localizeOffset(zone, wall)
    }

    /** The wall time the zone shows at `instant` is localized back to the
        offset in force at that instant: false only inside a fall-back overlap
        where `localize` picks the other occurrence. */
    predicate LocalizeRecovers(zone: ZoneName, instant: int) {
      localizeOffset(zone, instant + utcOffset(zone, instant)) == utcOffset(zone, instant)
    }
  }

  /** What the `try` block can raise. */
  datatype LookupError = KeyError | IndexError

  /** `table[code]`. */
  function Subscript(table: ZoneTable, code: CountryCode): Result<seq<ZoneName>, LookupError> {
    if code in table then Ok(table[code]) else Err(KeyError)
  }

  /** `zones[0]`. */
  function First(zones: seq<ZoneName>): Result<ZoneName, LookupError> {
    if |zones| > 0 then Ok(zones[0]) else Err(IndexError)
  }

  /** `get_timezone_from_country_code`: the first zone of the country, with
      either failure of the `try` block caught and turned into `None`. */
  function TimezoneOf(table: ZoneTable, code: CountryCode): (r: Option<ZoneName>)
    ensures r.Some? <==> code in table && |table[code]| > 0
    ensures r.Some? ==> r.value == table[code][0] && r.value in table[code]
  {
    match Subscript(table, code)
    case Err(_) => None
    case Ok(zones) =>
      match First(zones)
      case Err(_) => None
      case Ok(zone) => Some(zone)
  }

  /** Python truthiness of the lookup's result: `None` and `""` are false. */
  predicate Truthy(zone: Option<ZoneName>) {
    zone.Some? && zone.value != ""
  }
}

/** The log entries `CowrieMonitor.update_stats` receives, after GeoIP and ASN
    enrichment, and the records the monitor keeps about them
    (integrated_final/cowrie_dashboard.py). A field the entry lacks is
    `None`. */
module Entries {
  import opened Wrappers

  /** The event ids the monitor dispatches on. */
  const Connect: string := "cowrie.session.connect"
  const LoginFailed: string := "cowrie.login.failed"
  const LoginSuccess: string := "cowrie.login.success"
  const CommandInput: string := "cowrie.command.input"

  /** `geo_location`: `None` when the entry has none or it is empty, so
      `Some` is exactly a truthy dict. Coordinates are kept as read; the
      monitor only asks whether they are zero. */
  datatype Geo = Geo(country: Option<string>, latitude: Option<real>, longitude: Option<real>, city: Option<string>)

  /** `asn_info`: `None` when the entry has none or it is empty. */
  datatype AsnInfo = AsnInfo(organization: Option<string>, asn: Option<string>)

  /** An enriched log entry. */
  datatype LogEntry = LogEntry(
    eventid: Option<string>,
    srcIp: Option<string>,
    username: Option<string>,
    password: Option<string>,
    input: Option<string>,
    timestamp: Option<string>,
    geo: Option<Geo>,
    asnInfo: Option<AsnInfo>)

  /** Python truthiness of an optional string: present and not empty. */
  predicate Truthy(s: Option<string>) {
    s.Some? && s.value != ""
  }

  /** Python truthiness of an optional coordinate: present and not zero. */
  predicate NonZero(x: Option<real>) {
    x.Some? && x.value != 0.0
  }

  /** `entry.get('geo_location', {}).get('country', 'Unknown')` */
  function Country(e: LogEntry): string {
    if e.geo.Some? then e.geo.value.country.GetOr("Unknown") else "Unknown"
  }

  /** `entry.get('asn_info', {}).get('organization', 'Unknown')` */
  function Organization(e: LogEntry): string {
    if e.asnInfo.Some? then e.asnInfo.value.organization.GetOr("Unknown") else "Unknown"
  }

  /** `entry.get('asn_info', {}).get('asn', 'Unknown')` */
  function AsnName(e: LogEntry): string {
    if e.asnInfo.Some? then e.asnInfo.value.asn.GetOr("Unknown") else "Unknown"
  }

  /** `entry.get('geo_location', {}).get('latitude')` */
  function Latitude(e: LogEntry): Option<real> {
    if e.geo.Some? then e.geo.value.latitude else None
  }

  /** `entry.get('geo_location', {}).get('longitude')` */
  function Longitude(e: LogEntry): Option<real> {
    if e.geo.Some? then e.geo.value.longitude else None
  }

  /** `geo and geo.get('latitude') and geo.get('longitude')`: the entry is
      put on the map. A zero coordinate counts as missing. */
  predicate Geolocated(e: LogEntry) {
    e.geo.Some? && NonZero(e.geo.value.latitude) && NonZero(e.geo.value.longitude)
  }

  /** An item of `recent_attacks`. */
  datatype Attack = Attack(
    timestamp: Option<string>, ip: Option<string>, event: string,
    country: string, organization: string,
    latitude: Option<real>, longitude: Option<real>,
    username: Option<string>, password: Option<string>)

  /** An item of `attack_timeline`. */
  datatype TimelineItem = TimelineItem(
    timestamp: Option<string>, event: Option<string>, ip: Option<string>,
    country: string, organization: string, username: Option<string>)

  /** An item of `map_data['markers']`. */
  datatype Marker = Marker(
    lat: real, lng: real, ip: Option<string>, country: string, city: Option<string>,
    timestamp: Option<string>, event: Option<string>, username: Option<string>,
    organization: string, asn: string)

  /** An item of `map_data['heatpoints']`. */
  datatype Heatpoint = Heatpoint(lat: real, lng: real, intensity: int)

  /** An item of `alerts`; the time it was raised is not modelled. */
  datatype Alert = Alert(level: string, message: string, ip: Option<string>, country: string, organization: string)

  /** The `recent_attacks` item of a `session.connect` entry. */
  function ConnectAttack(e: LogEntry): Attack {
    Attack(e.timestamp, e.srcIp, "connection", Country(e), Organization(e),
           Latitude(e), Longitude(e), e.username, e.password)
  }

  /** The `recent_attacks` item `_process_login` builds: a missing time
      becomes `''` and a missing address `'Unknown'`. */
  function LoginAttack(e: LogEntry, isSuccess: bool): Attack {
    Attack(Some(e.timestamp.GetOr("")), Some(e.srcIp.GetOr("Unknown")),
           if isSuccess then LoginSuccess else LoginFailed,
           Country(e), Organization(e), Latitude(e), Longitude(e), e.username, e.password)
  }

  /** The `attack_timeline` item of any entry. */
  function TimelineOf(e: LogEntry): TimelineItem {
    TimelineItem(e.timestamp, e.eventid, e.srcIp, Country(e), Organization(e), e.username)
  }

  /** The map marker of a geolocated entry whose geo record names its country
      (`geo['country']`). */
  function MarkerOf(e: LogEntry): Marker
    requires Geolocated(e) && e.geo.value.country.Some?
  {
    var g := e.geo.value;
    Marker(g.latitude.value, g.longitude.value, e.srcIp, g.country.value, g.city,
           e.timestamp, e.eventid, e.username, Organization(e), AsnName(e))
  }

  /** The heat point of a geolocated entry. */
  function HeatpointOf(e: LogEntry): Heatpoint
    requires Geolocated(e)
  {
    Heatpoint(e.geo.value.latitude.value, e.geo.value.longitude.value, 1)
  }

  /** `_add_alert(level, message, entry)`'s record. */
  function AlertOf(level: string, message: string, e: LogEntry): Alert {
    Alert(level, message, e.srcIp, Country(e), Organization(e))
  }
}

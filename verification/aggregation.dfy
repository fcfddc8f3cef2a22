/** What `CowrieMonitor.update_stats` and `_process_login`
    (integrated_final/cowrie_dashboard.py) do to `self.stats`, on values.
    The collection sizes are the defaults of integrated_final/dashboard_config.py. */
module Aggregation {
  import opened Wrappers
  import opened Bounds
  import Tallies
  import SetStates
  import opened Deques
  import opened Entries

  const MaxMapMarkers: nat := 1000
  const MaxRecentAttacks: nat := 100
  const MaxTimelineEntries: nat := 50
  const MaxUniqueIps: nat := 50000
  const MaxUniquePasswords: nat := 20000
  const MaxUniqueUsers: nat := 10000
  const MaxTopEntries: nat := 10000
  /** `BoundedCounter(maxsize=500)` for the countries. */
  const MaxCountries: nat := 500

  type Tally<K> = Tallies.Tally<K>
  type SetState<T> = SetStates.SetState<T>

  /** `self.stats`. The addresses are keyed by `entry.get('src_ip')`, which
      is `None` for an entry without one. */
  datatype Stats = Stats(
    totalConnections: int,
    failedLogins: int,
    successfulLogins: int,
    commandsExecuted: int,
    uniqueIps: SetState<Option<string>>,
    uniquePasswords: SetState<string>,
    uniqueUsers: SetState<string>,
    recentAttacks: seq<Attack>,
    topIps: Tally<Option<string>>,
    topPasswords: Tally<string>,
    topUsers: Tally<string>,
    topCommands: Tally<string>,
    timeline: seq<TimelineItem>,
    countries: Tally<string>,
    organizations: Tally<string>,
    asns: Tally<string>,
    markers: seq<Marker>,
    heatpoints: seq<Heatpoint>)

  /** A counter that is well formed and within its capacity. */
  ghost predicate CounterOk<K(!new)>(t: Tally<K>, maxsize: nat) {
    Tallies.WellFormed(t) && |t.order| <= maxsize
  }

  /** Every collection is within its bound, and the map has as many heat
      points as markers. */
  ghost predicate Valid(s: Stats) {
    && |s.uniqueIps.items| <= MaxUniqueIps
    && |s.uniquePasswords.items| <= MaxUniquePasswords
    && |s.uniqueUsers.items| <= MaxUniqueUsers
    && |s.recentAttacks| <= MaxRecentAttacks
    && CounterOk(s.topIps, MaxTopEntries)
    && CounterOk(s.topPasswords, MaxTopEntries)
    && CounterOk(s.topUsers, MaxTopEntries)
    && CounterOk(s.topCommands, MaxTopEntries)
    && |s.timeline| <= MaxTimelineEntries
    && CounterOk(s.countries, MaxCountries)
    && CounterOk(s.organizations, MaxTopEntries)
    && CounterOk(s.asns, MaxTopEntries)
    && |s.markers| <= MaxMapMarkers
    && |s.markers| == |s.heatpoints|
  }

  /** The statistics of a new monitor: every count zero, every collection
      empty. */
  function Initial(): (s: Stats)
    ensures Valid(s)
    ensures s.totalConnections == s.failedLogins == s.successfulLogins == s.commandsExecuted == 0
    ensures s.uniqueIps == SetStates.SetState({}, 0)
    ensures s.uniquePasswords == s.uniqueUsers == SetStates.SetState({}, 0)
    ensures s.topIps == Tallies.Tally([], map[])
    ensures s.topPasswords == s.topUsers == s.topCommands == Tallies.Tally([], map[])
    ensures s.countries == s.organizations == s.asns == Tallies.Tally([], map[])
    ensures s.recentAttacks == [] && s.timeline == [] && s.markers == [] && s.heatpoints == []
  {
    var noCounts := Tallies.Tally([], map[]);
    Stats(0, 0, 0, 0,
          SetStates.SetState({}, 0), SetStates.SetState({}, 0), SetStates.SetState({}, 0),
          [],
          Tallies.Tally([], map[]), noCounts, noCounts, noCounts,
          [],
          noCounts, noCounts, noCounts,
          [], [])
  }

  /** `counter.increment(key)`, its return value dropped. */
  function Bump<K(==,!new)>(t: Tally<K>, key: K, maxsize: nat): (r: Tally<K>)
    requires CounterOk(t, maxsize)
    ensures CounterOk(r, maxsize)
    ensures key in r.count ==> r.count[key] == Tallies.Get(t, key, 0) + 1
    ensures forall k :: k in r.count && k != key ==> k in t.count && r.count[k] == t.count[k]
  {
    Tallies.IncrementSpec(t, key, maxsize);
    Tallies.Increment(t, key, maxsize).0
  }

  /** The map, the timeline and the origin counters: what the dispatch on
      the event id leaves alone. */
  function Placed(s: Stats): (seq<TimelineItem>, seq<Marker>, seq<Heatpoint>, Tally<string>, Tally<string>, Tally<string>) {
    (s.timeline, s.markers, s.heatpoints, s.countries, s.organizations, s.asns)
  }

  /** The event counters, the credential and address collections and
      `recent_attacks`: what follows the dispatch leaves alone. */
  function Tallied(s: Stats): (int, int, int, int, SetState<Option<string>>, SetState<string>, SetState<string>,
                               seq<Attack>, Tally<Option<string>>, Tally<string>, Tally<string>, Tally<string>) {
    (s.totalConnections, s.failedLogins, s.successfulLogins, s.commandsExecuted,
     s.uniqueIps, s.uniquePasswords, s.uniqueUsers, s.recentAttacks,
     s.topIps, s.topPasswords, s.topUsers, s.topCommands)
  }

  /** `_process_login(entry, is_success)`: the outcome, the password, the
      user name and `recent_attacks`, in that order. */
  function ProcessLogin(s: Stats, e: LogEntry, isSuccess: bool): (r: Stats)
    requires Valid(s)
    ensures Valid(r)
    ensures Placed(r) == Placed(s)
  {
    var s3 := CountUser(CountPassword(CountOutcome(s, isSuccess), e), e);
    s3.(recentAttacks := Append(s3.recentAttacks, LoginAttack(e, isSuccess), MaxRecentAttacks))
  }

  /** `successful_logins` or `failed_logins` goes up by one. */
  function CountOutcome(s: Stats, isSuccess: bool): (r: Stats)
    requires Valid(s)
    ensures Valid(r)
    ensures Placed(r) == Placed(s)
  {
    if isSuccess then s.(successfulLogins := s.successfulLogins + 1)
    else s.(failedLogins := s.failedLogins + 1)
  }

  /** A password that is present and not empty joins `unique_passwords` and
      is counted in `top_passwords`. */
  function CountPassword(s: Stats, e: LogEntry): (r: Stats)
    requires Valid(s)
    ensures Valid(r)
    ensures Placed(r) == Placed(s)
  {
    if Truthy(e.password) then
      s.(uniquePasswords := SetStates.Add(s.uniquePasswords, e.password.value, MaxUniquePasswords),
         topPasswords := Bump(s.topPasswords, e.password.value, MaxTopEntries))
    else s
  }

  /** A user name that is present and not empty joins `unique_users` and is
      counted in `top_users`. */
  function CountUser(s: Stats, e: LogEntry): (r: Stats)
    requires Valid(s)
    ensures Valid(r)
    ensures Placed(r) == Placed(s)
  {
    if Truthy(e.username) then
      s.(uniqueUsers := SetStates.Add(s.uniqueUsers, e.username.value, MaxUniqueUsers),
         topUsers := Bump(s.topUsers, e.username.value, MaxTopEntries))
    else s
  }

  /** The `if eventid == ...` chain of `update_stats`. */
  function Dispatch(s: Stats, e: LogEntry): (r: Stats)
    requires Valid(s)
    ensures Valid(r)
    ensures Placed(r) == Placed(s)
  {
    if e.eventid == Some(Connect) then
      s.(totalConnections := s.totalConnections + 1,
         uniqueIps := SetStates.Add(s.uniqueIps, e.srcIp, MaxUniqueIps),
         topIps := Bump(s.topIps, e.srcIp, MaxTopEntries),
         recentAttacks := Append(s.recentAttacks, ConnectAttack(e), MaxRecentAttacks))
    else if e.eventid == Some(LoginFailed) then ProcessLogin(s, e, false)
    else if e.eventid == Some(LoginSuccess) then ProcessLogin(s, e, true)
    else if e.eventid == Some(CommandInput) then
      var cmd := e.input.GetOr("");
      s.(commandsExecuted := s.commandsExecuted + 1,
         topCommands := if cmd != "" then Bump(s.topCommands, cmd, MaxTopEntries) else s.topCommands)
    else s
  }

  /** `geo['country']` raises `KeyError` while the marker is built: the
      entry is geolocated but its geo record names no country. */
  predicate RaisesKeyError(e: LogEntry) {
    Geolocated(e) && e.geo.value.country.None?
  }

  /** The map: a marker and a heat point for a geolocated entry. */
  function UpdateMap(s: Stats, e: LogEntry): (r: Stats)
    requires Valid(s) && !RaisesKeyError(e)
    ensures Valid(r)
    ensures Tallied(r) == Tallied(s)
  {
    if Geolocated(e) then
      s.(markers := Append(s.markers, MarkerOf(e), MaxMapMarkers),
         heatpoints := Append(s.heatpoints, HeatpointOf(e), MaxMapMarkers))
    else s
  }

  /** The country, organization and ASN counters. */
  function UpdateOrigins(s: Stats, e: LogEntry): (r: Stats)
    requires Valid(s)
    ensures Valid(r)
    ensures Tallied(r) == Tallied(s)
  {
    var s1 := if e.geo.Some? && Country(e) != "Unknown" then
                s.(countries := Bump(s.countries, Country(e), MaxCountries))
              else s;
    var asnData := e.asnInfo.GetOr(AsnInfo(None, None));
    var s2 := if Truthy(asnData.organization) then
                s1.(organizations := Bump(s1.organizations, asnData.organization.value, MaxTopEntries))
              else s1;
    if Truthy(asnData.asn) then s2.(asns := Bump(s2.asns, asnData.asn.value, MaxTopEntries))
    else s2
  }

  /** `update_stats(entry)` on `self.stats`: the new statistics and whether
      the update ran to its end (`false` where it raises `KeyError` after
      the dispatch). */
  function UpdateStats(s: Stats, e: LogEntry): (r: (Stats, bool))
    requires Valid(s)
    ensures Valid(r.0)
  {
    var d := Dispatch(s, e);
    if RaisesKeyError(e) then (d, false) else (Record(d, e), true)
  }

  /** What follows the dispatch when nothing raises: the map, the country,
      organization and ASN counters, and the timeline. */
  function Record(d: Stats, e: LogEntry): (r: Stats)
    requires Valid(d) && !RaisesKeyError(e)
    ensures Valid(r)
    ensures Tallied(r) == Tallied(d)
  {
    var t := UpdateOrigins(UpdateMap(d, e), e);
    t.(timeline := Append(t.timeline, TimelineOf(e), MaxTimelineEntries))
  }

  /** The counters of `update_stats`: each event id adds one to its own
      counter and to no other; a connection records its address in
      `unique_ips` and `top_ips`, a command its text in `top_commands` when
      that is not empty; no other event touches these. The counters are
      updated before anything can raise, so this holds for an aborted
      update too. */
  lemma DispatchCounters(s: Stats, e: LogEntry)
    requires Valid(s)
    ensures var r := UpdateStats(s, e).0;
      && r.totalConnections == s.totalConnections + (if e.eventid == Some(Connect) then 1 else 0)
      && r.failedLogins == s.failedLogins + (if e.eventid == Some(LoginFailed) then 1 else 0)
      && r.successfulLogins == s.successfulLogins + (if e.eventid == Some(LoginSuccess) then 1 else 0)
      && r.commandsExecuted == s.commandsExecuted + (if e.eventid == Some(CommandInput) then 1 else 0)
      && r.uniqueIps == (if e.eventid == Some(Connect) then SetStates.Add(s.uniqueIps, e.srcIp, MaxUniqueIps)
                         else s.uniqueIps)
      && r.topIps == (if e.eventid == Some(Connect) then Bump(s.topIps, e.srcIp, MaxTopEntries) else s.topIps)
      && r.topCommands == (if e.eventid == Some(CommandInput) && Truthy(e.input)
                           then Bump(s.topCommands, e.input.value, MaxTopEntries) else s.topCommands)
  {
    DispatchEffect(s, e);
  }

  /** `DispatchCounters` for the dispatch alone. */
  lemma DispatchEffect(s: Stats, e: LogEntry)
    requires Valid(s)
    ensures var d := Dispatch(s, e);
      && d.totalConnections == s.totalConnections + (if e.eventid == Some(Connect) then 1 else 0)
      && d.failedLogins == s.failedLogins + (if e.eventid == Some(LoginFailed) then 1 else 0)
      && d.successfulLogins == s.successfulLogins + (if e.eventid == Some(LoginSuccess) then 1 else 0)
      && d.commandsExecuted == s.commandsExecuted + (if e.eventid == Some(CommandInput) then 1 else 0)
      && d.uniqueIps == (if e.eventid == Some(Connect) then SetStates.Add(s.uniqueIps, e.srcIp, MaxUniqueIps)
                         else s.uniqueIps)
      && d.topIps == (if e.eventid == Some(Connect) then Bump(s.topIps, e.srcIp, MaxTopEntries) else s.topIps)
      && d.topCommands == (if e.eventid == Some(CommandInput) && Truthy(e.input)
                           then Bump(s.topCommands, e.input.value, MaxTopEntries) else s.topCommands)
  {
    if e.eventid == Some(LoginFailed) || e.eventid == Some(LoginSuccess) {
      LoginKeeps(s, e, e.eventid == Some(LoginSuccess));
    } else if e.eventid == Some(CommandInput) {
      assert Truthy(e.input) <==> e.input.GetOr("") != "";
    }
  }

  /** A login counts itself and its credentials, and nothing else. */
  lemma LoginKeeps(s: Stats, e: LogEntry, isSuccess: bool)
    requires Valid(s)
    ensures var p := ProcessLogin(s, e, isSuccess);
      && p.totalConnections == s.totalConnections && p.commandsExecuted == s.commandsExecuted
      && p.successfulLogins == s.successfulLogins + (if isSuccess then 1 else 0)
      && p.failedLogins == s.failedLogins + (if isSuccess then 0 else 1)
      && p.uniqueIps == s.uniqueIps && p.topIps == s.topIps && p.topCommands == s.topCommands
  {
  }

  /** The credentials of a login: a password or user name that is missing
      or empty is not recorded; any other is added to its set and counted. */
  lemma LoginCredentials(s: Stats, e: LogEntry)
    requires Valid(s)
    requires e.eventid == Some(LoginFailed) || e.eventid == Some(LoginSuccess)
    ensures var r := UpdateStats(s, e).0;
      && r.uniquePasswords == (if Truthy(e.password) then SetStates.Add(s.uniquePasswords, e.password.value, MaxUniquePasswords)
                               else s.uniquePasswords)
      && r.topPasswords == (if Truthy(e.password) then Bump(s.topPasswords, e.password.value, MaxTopEntries)
                            else s.topPasswords)
      && r.uniqueUsers == (if Truthy(e.username) then SetStates.Add(s.uniqueUsers, e.username.value, MaxUniqueUsers)
                           else s.uniqueUsers)
      && r.topUsers == (if Truthy(e.username) then Bump(s.topUsers, e.username.value, MaxTopEntries)
                        else s.topUsers)
  {
    assert Dispatch(s, e) == ProcessLogin(s, e, e.eventid == Some(LoginSuccess));
  }

  /** The deques: a completed update adds exactly one timeline item, and the
      timeline keeps the newest `MAX_TIMELINE_ENTRIES`; `recent_attacks`
      gains one item for a connection or a login and none otherwise. The
      update is aborted exactly when building the marker raises. */
  lemma TimelineAndRecentAttacks(s: Stats, e: LogEntry)
    requires Valid(s)
    ensures var (r, completed) := UpdateStats(s, e);
      && (completed <==> !RaisesKeyError(e))
      && r.timeline == (if completed then Newest(s.timeline + [TimelineOf(e)], MaxTimelineEntries) else s.timeline)
      && r.recentAttacks ==
           (if e.eventid == Some(Connect) then Newest(s.recentAttacks + [ConnectAttack(e)], MaxRecentAttacks)
            else if e.eventid == Some(LoginFailed) then Newest(s.recentAttacks + [LoginAttack(e, false)], MaxRecentAttacks)
            else if e.eventid == Some(LoginSuccess) then Newest(s.recentAttacks + [LoginAttack(e, true)], MaxRecentAttacks)
            else s.recentAttacks)
  {
    var d := Dispatch(s, e);
    if !RaisesKeyError(e) {
      RecordTimeline(d, e);
    }
    if e.eventid == Some(Connect) {
      AppendKeepsNewest(s.recentAttacks, ConnectAttack(e), MaxRecentAttacks);
    } else if e.eventid == Some(LoginFailed) || e.eventid == Some(LoginSuccess) {
      var success := e.eventid == Some(LoginSuccess);
      LoginRecentAttacks(s, e, success);
      assert d == ProcessLogin(s, e, success);
    } else if e.eventid != Some(CommandInput) {
      assert d == s;
    }
  }

  /** The timeline after one update. */
  lemma UpdateTimeline(s: Stats, e: LogEntry)
    requires Valid(s)
    ensures UpdateStats(s, e).0.timeline ==
      (if RaisesKeyError(e) then s.timeline else Newest(s.timeline + [TimelineOf(e)], MaxTimelineEntries))
  {
    if !RaisesKeyError(e) {
      RecordTimeline(Dispatch(s, e), e);
    }
  }

  /** A login adds its item to `recent_attacks`. */
  lemma LoginRecentAttacks(s: Stats, e: LogEntry, isSuccess: bool)
    requires Valid(s)
    ensures ProcessLogin(s, e, isSuccess).recentAttacks == Newest(s.recentAttacks + [LoginAttack(e, isSuccess)], MaxRecentAttacks)
  {
    AppendKeepsNewest(s.recentAttacks, LoginAttack(e, isSuccess), MaxRecentAttacks);
  }

  /** The timeline gains the entry's item. */
  lemma RecordTimeline(d: Stats, e: LogEntry)
    requires Valid(d) && !RaisesKeyError(e)
    ensures Record(d, e).timeline == Newest(d.timeline + [TimelineOf(e)], MaxTimelineEntries)
  {
    var t := UpdateOrigins(UpdateMap(d, e), e);
    assert t.timeline == d.timeline;
    AppendKeepsNewest(d.timeline, TimelineOf(e), MaxTimelineEntries);
  }

  /** The map and the countries: a marker and a heat point are added
      together, exactly for a completed update of a geolocated entry (a zero
      coordinate counts as missing), so there are always as many of each; a
      country is counted only when the entry has a geo record naming a
      country other than `'Unknown'`. */
  lemma MapAndCountries(s: Stats, e: LogEntry)
    requires Valid(s)
    ensures var (r, completed) := UpdateStats(s, e);
      && |r.markers| == |r.heatpoints|
      && r.markers == (if completed && Geolocated(e) then Newest(s.markers + [MarkerOf(e)], MaxMapMarkers) else s.markers)
      && r.heatpoints == (if completed && Geolocated(e) then Newest(s.heatpoints + [HeatpointOf(e)], MaxMapMarkers)
                          else s.heatpoints)
      && (Latitude(e) == Some(0.0) || Longitude(e) == Some(0.0) ==> r.markers == s.markers)
      && r.countries == (if completed && e.geo.Some? && Country(e) != "Unknown"
                         then Bump(s.countries, Country(e), MaxCountries) else s.countries)
  {
    if !RaisesKeyError(e) {
      RecordMap(Dispatch(s, e), e);
    }
  }

  /** The map and the country counter after a completed dispatch. */
  lemma RecordMap(d: Stats, e: LogEntry)
    requires Valid(d) && !RaisesKeyError(e)
    ensures var r := Record(d, e);
      && r.markers == (if Geolocated(e) then Newest(d.markers + [MarkerOf(e)], MaxMapMarkers) else d.markers)
      && r.heatpoints == (if Geolocated(e) then Newest(d.heatpoints + [HeatpointOf(e)], MaxMapMarkers) else d.heatpoints)
      && r.countries == (if e.geo.Some? && Country(e) != "Unknown" then Bump(d.countries, Country(e), MaxCountries)
                         else d.countries)
  {
    var m := UpdateMap(d, e);
    assert m.countries == d.countries;
    var t := UpdateOrigins(m, e);
    assert t.markers == m.markers && t.heatpoints == m.heatpoints;
    if Geolocated(e) {
      AppendKeepsNewest(d.markers, MarkerOf(e), MaxMapMarkers);
      AppendKeepsNewest(d.heatpoints, HeatpointOf(e), MaxMapMarkers);
    }
  }

  /** The organization and ASN counters: each counts the entry's value
      when the update completes and the ASN record holds one that is not
      empty; an entry without an ASN record counts in neither. */
  lemma OriginCounters(s: Stats, e: LogEntry)
    requires Valid(s)
    ensures var (r, completed) := UpdateStats(s, e);
      && r.organizations == (if completed && e.asnInfo.Some? && Truthy(e.asnInfo.value.organization)
                             then Bump(s.organizations, e.asnInfo.value.organization.value, MaxTopEntries)
                             else s.organizations)
      && r.asns == (if completed && e.asnInfo.Some? && Truthy(e.asnInfo.value.asn)
                    then Bump(s.asns, e.asnInfo.value.asn.value, MaxTopEntries)
                    else s.asns)
  {
    var d := Dispatch(s, e);
    assert Placed(d) == Placed(s);
    if !RaisesKeyError(e) {
      RecordOrigins(d, e);
    }
  }

  /** The organization and ASN counters after a completed dispatch. */
  lemma RecordOrigins(d: Stats, e: LogEntry)
    requires Valid(d) && !RaisesKeyError(e)
    ensures var r := Record(d, e);
      && r.organizations == (if e.asnInfo.Some? && Truthy(e.asnInfo.value.organization)
                             then Bump(d.organizations, e.asnInfo.value.organization.value, MaxTopEntries)
                             else d.organizations)
      && r.asns == (if e.asnInfo.Some? && Truthy(e.asnInfo.value.asn)
                    then Bump(d.asns, e.asnInfo.value.asn.value, MaxTopEntries)
                    else d.asns)
  {
    var m := UpdateMap(d, e);
    assert m.organizations == d.organizations && m.asns == d.asns;
  }

  /** The number of connection entries. */
  function Connections(es: seq<LogEntry>): nat
    decreases |es|
  {
    if es == [] then 0
    else Connections(es[..|es| - 1]) + (if es[|es| - 1].eventid == Some(Connect) then 1 else 0)
  }

  /** The timeline items of the entries whose update completes, in order. */
  function TimelineItems(es: seq<LogEntry>): seq<TimelineItem>
    decreases |es|
  {
    if es == [] then []
    else
      var e := es[|es| - 1];
      TimelineItems(es[..|es| - 1]) + (if RaisesKeyError(e) then [] else [TimelineOf(e)])
  }

  /** `update_stats` over a run of entries, each one's statistics feeding
      the next. */
  function UpdateAll(s: Stats, es: seq<LogEntry>): (r: Stats)
    requires Valid(s)
    ensures Valid(r)
    decreases |es|
  {
    if es == [] then s else UpdateStats(UpdateAll(s, es[..|es| - 1]), es[|es| - 1]).0
  }

  /** Over a run, `total_connections` counts the connection entries. */
  lemma {:induction false} UpdateAllConnections(s: Stats, es: seq<LogEntry>)
    requires Valid(s)
    ensures UpdateAll(s, es).totalConnections == s.totalConnections + Connections(es)
    decreases |es|
  {
    if es != [] {
      var p := es[..|es| - 1];
      UpdateAllConnections(s, p);
      DispatchCounters(UpdateAll(s, p), es[|es| - 1]);
    }
  }

  /** Over a run, the timeline holds the newest `MAX_TIMELINE_ENTRIES` items
      of the entries whose update completed, oldest first. */
  lemma {:induction false} UpdateAllTimeline(s: Stats, es: seq<LogEntry>)
    requires Valid(s)
    ensures UpdateAll(s, es).timeline == Newest(s.timeline + TimelineItems(es), MaxTimelineEntries)
    decreases |es|
  {
    if es == [] {
      assert s.timeline + [] == s.timeline;
    } else {
      var u := UpdateAll(s, es[..|es| - 1]);
      UpdateAllTimeline(s, es[..|es| - 1]);
      UpdateTimeline(u, es[|es| - 1]);
      TimelineStep(s.timeline, u.timeline, UpdateStats(u, es[|es| - 1]).0.timeline, es);
    }
  }

  /** One more update of a run keeps the timeline what `UpdateAllTimeline`
      says. */
  lemma TimelineStep(t: seq<TimelineItem>, before: seq<TimelineItem>, after: seq<TimelineItem>, es: seq<LogEntry>)
    requires es != []
    requires before == Newest(t + TimelineItems(es[..|es| - 1]), MaxTimelineEntries)
    requires after == if RaisesKeyError(es[|es| - 1]) then before
      else Newest(before + [TimelineOf(es[|es| - 1])], MaxTimelineEntries)
    ensures after == Newest(t + TimelineItems(es), MaxTimelineEntries)
  {
    var e := es[|es| - 1];
    var p := es[..|es| - 1];
    if RaisesKeyError(e) {
      assert TimelineItems(es) == TimelineItems(p) + [];
      assert TimelineItems(p) + [] == TimelineItems(p);
    } else {
      assert TimelineItems(es) == TimelineItems(p) + [TimelineOf(e)];
      NewestExtend(t, TimelineItems(p), [TimelineOf(e)], MaxTimelineEntries);
    }
  }
}

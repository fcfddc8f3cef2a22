/** `CowrieMonitor` (integrated_final/cowrie_dashboard.py), its state updated
    in place. The statistics, the alerts and the cache are fields; each
    method is proved to move them exactly as the functions of
    `Aggregation`, `Alerting`, `Summaries` and `Rotation` say, where their
    properties are proved. */
module Monitor {
  import opened Wrappers
  import Tallies
  import SetStates
  import opened Deques
  import opened Entries
  import opened Aggregation
  import opened Alerting
  import opened Summaries
  import opened Rotation

  class CowrieMonitor {
    /** `self.stats` */
    var stats: Stats
    /** `self.alerts` and the three `_alerted_*` sets */
    var alerts: seq<Alert>
    var alertedIps: SetState<string>
    var alertedCountries: SetState<string>
    var alertedOrgs: SetState<string>
    /** `last_position` and `_last_inode` */
    var lastPosition: int
    var lastInode: Option<int>
    /** `_stats_cache`, `_stats_cache_time` and `_stats_dirty` */
    var statsCache: Option<Summary>
    var statsCacheTime: int
    var statsDirty: bool

    function AlertsOf(): AlertState
      reads this
    {
      AlertState(alerts, alertedIps, alertedCountries, alertedOrgs)
    }

    function CacheOf(): Summaries.Cache
      reads this
    {
      Summaries.Cache(statsCache, statsCacheTime, statsDirty)
    }

    function TrackingOf(): Tracking
      reads this
    {
      Tracking(lastPosition, lastInode)
    }

    ghost predicate Valid()
      reads this
    {
      Aggregation.Valid(stats) && AlertsValid(AlertsOf())
    }

    /** `CowrieMonitor()`: zero counts, empty collections, no alerts, reading
        from the start of a file not seen yet, no summary cached. */
    constructor ()
      ensures Valid()
      ensures stats == Initial()
      ensures AlertsOf() == AlertState([], SetStates.SetState({}, 0), SetStates.SetState({}, 0), SetStates.SetState({}, 0))
      ensures TrackingOf() == Tracking(0, None)
      ensures CacheOf() == NoCache
    {
      stats := Initial();
      alerts := [];
      alertedIps := SetStates.SetState({}, 0);
      alertedCountries := SetStates.SetState({}, 0);
      alertedOrgs := SetStates.SetState({}, 0);
      lastPosition := 0;
      lastInode := None;
      statsCache := None;
      statsCacheTime := 0;
      statsDirty := true;
    }

    /** `_process_login(entry, is_success)`: only the statistics change. */
    method ProcessLogin(e: LogEntry, isSuccess: bool)
      requires Aggregation.Valid(stats)
      modifies this`stats
      ensures Aggregation.Valid(stats)
      ensures stats == Aggregation.ProcessLogin(old(stats), e, isSuccess)
    {
      ghost var s0 := stats;
      if isSuccess {
        stats := stats.(successfulLogins := stats.successfulLogins + 1);
      } else {
        stats := stats.(failedLogins := stats.failedLogins + 1);
      }
      assert stats == CountOutcome(s0, isSuccess);
      ghost var s1 := stats;
      if Truthy(e.password) {
        stats := stats.(uniquePasswords := SetStates.Add(stats.uniquePasswords, e.password.value, MaxUniquePasswords),
                        topPasswords := Bump(stats.topPasswords, e.password.value, MaxTopEntries));
      }
      assert stats == CountPassword(s1, e);
      ghost var s2 := stats;
      if Truthy(e.username) {
        stats := stats.(uniqueUsers := SetStates.Add(stats.uniqueUsers, e.username.value, MaxUniqueUsers),
                        topUsers := Bump(stats.topUsers, e.username.value, MaxTopEntries));
      }
      assert stats == CountUser(s2, e);
      stats := stats.(recentAttacks := Append(stats.recentAttacks, LoginAttack(e, isSuccess), MaxRecentAttacks));
    }

    /** `update_stats(entry)`: the dispatch on the event, then the map, the
        origin counters and the timeline, then `_stats_dirty` and
        `check_alerts`. Where `geo['country']` raises `KeyError` the call
        stops after the dispatch (`completed` is false): neither the dirty
        flag nor the alerts change. */
    method UpdateStats(e: LogEntry) returns (completed: bool)
      requires Valid()
      modifies this`stats, this`alerts, this`alertedIps, this`alertedCountries, this`alertedOrgs, this`statsDirty
      ensures Valid()
      ensures (stats, completed) == Aggregation.UpdateStats(old(stats), e)
      ensures completed ==> AlertsOf() == Alerting.CheckAlerts(stats, old(AlertsOf()), e) && statsDirty
      ensures !completed ==> AlertsOf() == old(AlertsOf()) && statsDirty == old(statsDirty)
    {
      DispatchEvent(e);
      if RaisesKeyError(e) {
        return false;
      }
      RecordEntry(e);
      statsDirty := true;
      CheckAlerts(e);
      completed := true;
    }

    /** The `if eventid == ...` chain of `update_stats`. */
    method DispatchEvent(e: LogEntry)
      requires Aggregation.Valid(stats)
      modifies this`stats
      ensures Aggregation.Valid(stats)
      ensures stats == Dispatch(old(stats), e)
    {
      if e.eventid == Some(Connect) {
        stats := stats.(totalConnections := stats.totalConnections + 1,
                        uniqueIps := SetStates.Add(stats.uniqueIps, e.srcIp, MaxUniqueIps),
                        topIps := Bump(stats.topIps, e.srcIp, MaxTopEntries),
                        recentAttacks := Append(stats.recentAttacks, ConnectAttack(e), MaxRecentAttacks));
      } else if e.eventid == Some(LoginFailed) {
        ProcessLogin(e, false);
      } else if e.eventid == Some(LoginSuccess) {
        ProcessLogin(e, true);
      } else if e.eventid == Some(CommandInput) {
        var cmd := e.input.GetOr("");
        stats := stats.(commandsExecuted := stats.commandsExecuted + 1);
        if cmd != "" {
          stats := stats.(topCommands := Bump(stats.topCommands, cmd, MaxTopEntries));
        }
      }
    }

    /** What `update_stats` does after the dispatch when nothing raises: the
        map, the country, organization and ASN counters, and the timeline. */
    method RecordEntry(e: LogEntry)
      requires Aggregation.Valid(stats) && !RaisesKeyError(e)
      modifies this`stats
      ensures Aggregation.Valid(stats)
      ensures stats == Record(old(stats), e)
    {
      stats := UpdateMap(stats, e);
      stats := UpdateOrigins(stats, e);
      stats := stats.(timeline := Append(stats.timeline, TimelineOf(e), MaxTimelineEntries));
    }

    /** `check_alerts(entry)`: the four rules in turn, each recording its
        key and adding its alert when due. Only the alert state changes. */
    method CheckAlerts(e: LogEntry)
      requires AlertsValid(AlertsOf())
      modifies this`alerts, this`alertedIps, this`alertedCountries, this`alertedOrgs
      ensures AlertsValid(AlertsOf())
      ensures AlertsOf() == Alerting.CheckAlerts(stats, old(AlertsOf()), e)
    {
      CheckIpRule(e);
      CheckPasswordRule(e);
      CheckCountryRule(e);
      CheckOrgRule(e);
    }

    /** The high-frequency block of `check_alerts`. */
    method CheckIpRule(e: LogEntry)
      requires AlertsValid(AlertsOf())
      modifies this`alerts, this`alertedIps
      ensures AlertsValid(AlertsOf())
      ensures AlertsOf() == IpRule(stats, old(AlertsOf()), e)
    {
      var ip := IpOf(e);
      if e.eventid == Some(Connect) {
        if Tallies.Get(stats.topIps, Some(ip), 0) > 10 && ip !in alertedIps.items {
          alertedIps := SetStates.Add(alertedIps, ip, MaxAlertedIps);
          AddAlert("HIGH", "High frequency attacks from " + ip, e);
        }
      }
    }

    /** The long-password block of `check_alerts`. */
    method CheckPasswordRule(e: LogEntry)
      requires AlertsValid(AlertsOf())
      modifies this`alerts
      ensures AlertsValid(AlertsOf())
      ensures AlertsOf() == PasswordRule(old(AlertsOf()), e)
    {
      if e.eventid == Some(LoginSuccess) {
        var password := e.password.GetOr("");
        if password != "" && |password| > 20 {
          AddAlert("MEDIUM", "Suspicious long password from " + IpOf(e), e);
        }
      }
    }

    /** The country block of `check_alerts`. */
    method CheckCountryRule(e: LogEntry)
      requires AlertsValid(AlertsOf())
      modifies this`alerts, this`alertedCountries
      ensures AlertsValid(AlertsOf())
      ensures AlertsOf() == CountryRule(stats, old(AlertsOf()), e)
    {
      if e.geo.Some? {
        var country := Country(e);
        if country != "Unknown" {
          if Tallies.Get(stats.countries, country, 0) > 20 && country !in alertedCountries.items {
            alertedCountries := SetStates.Add(alertedCountries, country, MaxAlertedCountries);
            AddAlert("MEDIUM", "High attack volume from " + country, e);
          }
        }
      }
    }

    /** The organization block of `check_alerts`. */
    method CheckOrgRule(e: LogEntry)
      requires AlertsValid(AlertsOf())
      modifies this`alerts, this`alertedOrgs
      ensures AlertsValid(AlertsOf())
      ensures AlertsOf() == OrgRule(stats, old(AlertsOf()), e)
    {
      if e.asnInfo.Some? && Truthy(e.asnInfo.value.organization) {
        var org := e.asnInfo.value.organization.value;
        if Tallies.Get(stats.organizations, org, 0) > 15 && org !in alertedOrgs.items {
          alertedOrgs := SetStates.Add(alertedOrgs, org, MaxAlertedOrgs);
          AddAlert("MEDIUM", "High attack volume from " + org, e);
        }
      }
    }

    /** `_add_alert(level, message, entry)`: the alert joins the deque of
        the newest `MAX_ALERTS`; nothing else changes. */
    method AddAlert(level: string, message: string, e: LogEntry)
      requires |alerts| <= MaxAlerts
      modifies this`alerts
      ensures AlertsOf() == Alerting.AddAlert(old(AlertsOf()), level, message, e)
    {
      alerts := Append(alerts, AlertOf(level, message, e), MaxAlerts);
    }

    /** `get_stats_summary()` at time `now`: the cached summary while it is
        clean and younger than the TTL, otherwise a new one, cached. A cache
        that was `Fresh` stays so, and the summary is then the current one. */
    method GetStatsSummary(now: int) returns (summary: Summary)
      requires Aggregation.Valid(stats)
      modifies this`statsCache, this`statsCacheTime, this`statsDirty
      ensures (summary, CacheOf()) == Summaries.GetStatsSummary(old(CacheOf()), old(stats), old(alerts), now)
    {
      if statsCache.Some? && !statsDirty && now - statsCacheTime < StatsCacheTtlMs {
        summary := statsCache.value;
        return;
      }
      var st, al := stats, alerts;
      summary := BuildSummary(st, al);
      statsCache := Some(summary);
      statsCacheTime := now;
      statsDirty := false;
    }

    /** `_detect_log_rotation()`, given the result of `os.stat` (`None` for
        `OSError`). */
    method DetectLogRotation(stat: Option<FileStat>) returns (rotated: bool)
      modifies this`lastPosition, this`lastInode
      ensures (TrackingOf(), rotated) == DetectRotation(old(TrackingOf()), stat)
    {
      if stat.None? {
        return false;
      }
      var st := stat.value;
      if st.size < lastPosition {
        lastPosition := 0;
        lastInode := Some(st.inode);
        return true;
      }
      if lastInode.Some? && st.inode != lastInode.value {
        lastPosition := 0;
        lastInode := Some(st.inode);
        return true;
      }
      lastInode := Some(st.inode);
      return false;
    }
  }
}

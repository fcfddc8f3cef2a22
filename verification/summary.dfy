/** `CowrieMonitor.get_stats_summary` (integrated_final/cowrie_dashboard.py):
    a snapshot of the statistics for the API, cached for `STATS_CACHE_TTL`
    and rebuilt early once an update marks the statistics dirty. */
module Summaries {
  import opened Wrappers
  import opened Bounds
  import opened Tallies
  import opened Deques
  import opened Entries
  import opened Aggregation

  /** `top(500)` for every ranking, the newest 20 attacks. */
  const TopShown: int := 500
  const RecentShown: nat := 20
  /** `STATS_CACHE_TTL`, 2.0 seconds, here in milliseconds. */
  const StatsCacheTtlMs: int := 2000

  /** The summary dict. */
  datatype Summary = Summary(
    totalConnections: int,
    failedLogins: int,
    successfulLogins: int,
    commandsExecuted: int,
    uniqueIps: nat,
    uniquePasswords: nat,
    uniqueUsers: nat,
    successRate: real,
    topIps: seq<(Option<string>, int)>,
    topPasswords: seq<(string, int)>,
    topUsers: seq<(string, int)>,
    topCommands: seq<(string, int)>,
    topCountries: seq<(string, int)>,
    topOrganizations: seq<(string, int)>,
    topAsns: seq<(string, int)>,
    recentAttacks: seq<Attack>,
    markers: seq<Marker>,
    heatpoints: seq<Heatpoint>,
    alerts: seq<Alert>)

  /** `successful / max(1, failed + successful) * 100`, in exact arithmetic:
      a percentage, 0 with no successful login, 100 with no failed one. */
  function SuccessRate(successful: int, failed: int): (r: real)
    ensures 0 <= successful && 0 <= failed ==> 0.0 <= r <= 100.0
    ensures successful == 0 ==> r == 0.0
    ensures successful > 0 && failed == 0 ==> r == 100.0
  {
    var total := Max(1, successful + failed);
    var q := successful as real / total as real;
    FractionAtMostOne(successful, total);
    q * 100.0
  }

  lemma FractionAtMostOne(part: int, total: int)
    requires total >= 1
    ensures 0 <= part <= total ==> 0.0 <= part as real / total as real <= 1.0
  {
    var q := part as real / total as real;
    assert q * total as real == part as real;
    if 0 <= part <= total && q > 1.0 {
      assert q * total as real > total as real;
    }
  }

  /** `counter.top(500)` as the summary lists it: the 500 largest counts
      (fewer when there are fewer keys), each with its current count, no
      key twice, largest first, ties in insertion order, no key left out
      that counts more than one listed, and a key left out with the count of
      one listed inserted after it. */
  ghost predicate Ranked<K(!new)>(t: Tallies.Tally<K>, r: seq<(K, int)>) {
    && |r| == Min(TopShown, |t.order|)
    && (forall i :: 0 <= i < |r| ==> r[i].0 in t.count && r[i].1 == t.count[r[i].0])
    && Distinct(Keys(r))
    && SortedByCountDesc(r)
    && TiesInOrder(t.order, r)
    && NoneLargerLeftOut(t, r)
    && TiesLeftOutLater(t, r)
  }

  lemma TopRanked<K(!new)>(t: Tallies.Tally<K>)
    requires WellFormed(t)
    ensures Ranked(t, Top(t, TopShown))
  {
    TopSpec(t, TopShown);
  }

  /** `s` ends with `r`. */
  predicate EndsWith<T(==)>(s: seq<T>, r: seq<T>) {
    |r| <= |s| && s[|s| - |r|..] == r
  }

  /** The summary built from the statistics and the alerts. The address,
      password and user counts are the items the bounded sets hold, never
      more than their bounds. */
  function BuildSummary(s: Stats, alerts: seq<Alert>): (r: Summary)
    requires Valid(s)
    ensures r.uniqueIps == |s.uniqueIps.items| <= MaxUniqueIps
    ensures r.uniquePasswords == |s.uniquePasswords.items| <= MaxUniquePasswords
    ensures r.uniqueUsers == |s.uniqueUsers.items| <= MaxUniqueUsers
    ensures |r.recentAttacks| == Min(RecentShown, |s.recentAttacks|)
    ensures EndsWith(s.recentAttacks, r.recentAttacks)
    ensures |r.markers| == |r.heatpoints| <= MaxMapMarkers
  {
    Summary(
      s.totalConnections, s.failedLogins, s.successfulLogins, s.commandsExecuted,
      |s.uniqueIps.items|, |s.uniquePasswords.items|, |s.uniqueUsers.items|,
      SuccessRate(s.successfulLogins, s.failedLogins),
      Top(s.topIps, TopShown), Top(s.topPasswords, TopShown), Top(s.topUsers, TopShown),
      Top(s.topCommands, TopShown), Top(s.countries, TopShown),
      Top(s.organizations, TopShown), Top(s.asns, TopShown),
      Newest(s.recentAttacks, RecentShown),
      s.markers, s.heatpoints, alerts)
  }

  /** Every ranking of the summary is `Ranked` against its counter. */
  lemma SummaryRanked(s: Stats, alerts: seq<Alert>)
    requires Valid(s)
    ensures var r := BuildSummary(s, alerts);
      && Ranked(s.topIps, r.topIps)
      && Ranked(s.topPasswords, r.topPasswords)
      && Ranked(s.topUsers, r.topUsers)
      && Ranked(s.topCommands, r.topCommands)
      && Ranked(s.countries, r.topCountries)
      && Ranked(s.organizations, r.topOrganizations)
      && Ranked(s.asns, r.topAsns)
  {
    TopRanked(s.topIps);
    TopRanked(s.topPasswords);
    TopRanked(s.topUsers);
    TopRanked(s.topCommands);
    TopRanked(s.countries);
    TopRanked(s.organizations);
    TopRanked(s.asns);
  }

  /** `_stats_cache`, `_stats_cache_time` and `_stats_dirty`. */
  datatype Cache = Cache(summary: Option<Summary>, time: int, dirty: bool)

  /** No summary yet, time 0, dirty. */
  const NoCache: Cache := Cache(None, 0, true)

  /** The cached summary is returned when there is one, no update has
      marked the statistics dirty since, and it is younger than the TTL. */
  predicate UseCached(c: Cache, now: int) {
    c.summary.Some? && !c.dirty && now - c.time < StatsCacheTtlMs
  }

  /** `get_stats_summary()` at time `now`: the summary and the new cache.
      Either it is the cached one, clean and younger than the TTL, and
      nothing changes, or it is built from the statistics and the alerts of
      now and cached, clean, with time `now`. */
  function GetStatsSummary(c: Cache, s: Stats, alerts: seq<Alert>, now: int): (r: (Summary, Cache))
    requires Valid(s)
    ensures r.1.summary == Some(r.0) && !r.1.dirty
    ensures UseCached(c, now) ==> r.1 == c && now - r.1.time < StatsCacheTtlMs
    ensures !UseCached(c, now) ==> r.0 == BuildSummary(s, alerts) && r.1.time == now
  {
    if UseCached(c, now) then (c.summary.value, c)
    else
      var summary := BuildSummary(s, alerts);
      (summary, Cache(Some(summary), now, false))
  }

  /** A clean cache holds the summary of the statistics and alerts of now. */
  ghost predicate Fresh(c: Cache, s: Stats, alerts: seq<Alert>)
    requires Valid(s)
  {
    !c.dirty ==> c.summary == Some(BuildSummary(s, alerts))
  }

  /** While the cache is fresh, every summary returned is the current one,
      and the cache stays fresh. */
  lemma SummaryCurrent(c: Cache, s: Stats, alerts: seq<Alert>, now: int)
    requires Valid(s) && Fresh(c, s, alerts)
    ensures GetStatsSummary(c, s, alerts, now).0 == BuildSummary(s, alerts)
    ensures Fresh(GetStatsSummary(c, s, alerts, now).1, s, alerts)
  {
  }

  /** A summary returned is never older than the TTL: it was built at the
      time of the cache, which is `now` or less than 2 seconds before. */
  lemma SummaryAge(c: Cache, s: Stats, alerts: seq<Alert>, now: int)
    requires Valid(s) && (c.summary.Some? ==> c.time <= now)
    ensures var r := GetStatsSummary(c, s, alerts, now);
      0 <= now - r.1.time < StatsCacheTtlMs && r.1.summary == Some(r.0)
  {
  }

  /** An update that raises `KeyError` after counting a connection leaves
      `_stats_dirty` clear: a summary cached just before keeps being served
      for up to the TTL with one connection fewer than the statistics hold. */
  lemma AbortedUpdateServesStale(s: Stats, alerts: seq<Alert>, e: LogEntry, t: int, now: int)
    requires Valid(s)
    requires e.eventid == Some(Connect) && RaisesKeyError(e)
    requires t <= now < t + StatsCacheTtlMs
    ensures var c := GetStatsSummary(NoCache, s, alerts, t).1;
      var (s', completed) := UpdateStats(s, e);
      && !completed
      && s'.totalConnections == s.totalConnections + 1
      && GetStatsSummary(c, s', alerts, now).0.totalConnections == s.totalConnections
  {
    DispatchCounters(s, e);
    var c := GetStatsSummary(NoCache, s, alerts, t).1;
    assert c == Cache(Some(BuildSummary(s, alerts)), t, false);
    assert UseCached(c, now);
  }
}

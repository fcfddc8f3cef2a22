/** `CowrieMonitor.check_alerts` and `_add_alert`
    (integrated_final/cowrie_dashboard.py): threshold rules over the
    statistics, each address, country and organization alerted once, and
    long passwords every time. */
module Alerting {
  import opened Wrappers
  import Tallies
  import SetStates
  import opened Deques
  import opened Entries
  import opened Aggregation

  const MaxAlerts: nat := 50
  /** `BoundedSet(maxsize=...)` of the alerted addresses, countries and
      organizations. */
  const MaxAlertedIps: nat := 10000
  const MaxAlertedCountries: nat := 500
  const MaxAlertedOrgs: nat := 5000

  /** `self.alerts` and the three `_alerted_*` sets. */
  datatype AlertState = AlertState(
    alerts: seq<Alert>,
    alertedIps: SetState<string>,
    alertedCountries: SetState<string>,
    alertedOrgs: SetState<string>)

  ghost predicate AlertsValid(a: AlertState) {
    && |a.alerts| <= MaxAlerts
    && |a.alertedIps.items| <= MaxAlertedIps
    && |a.alertedCountries.items| <= MaxAlertedCountries
    && |a.alertedOrgs.items| <= MaxAlertedOrgs
  }

  /** `_add_alert(level, message, entry)`: the alert goes to the deque of
      the newest `MAX_ALERTS`; nothing else changes. */
  function AddAlert(a: AlertState, level: string, message: string, e: LogEntry): (r: AlertState)
    requires |a.alerts| <= MaxAlerts
    ensures r.alerts == Newest(a.alerts + [AlertOf(level, message, e)], MaxAlerts)
    ensures r.alertedIps == a.alertedIps && r.alertedCountries == a.alertedCountries
    ensures r.alertedOrgs == a.alertedOrgs
  {
    AppendKeepsNewest(a.alerts, AlertOf(level, message, e), MaxAlerts);
    a.(alerts := Append(a.alerts, AlertOf(level, message, e), MaxAlerts))
  }

  /** `entry.get('src_ip', '')`: an entry without an address is looked up
      under `''`, not under the `None` that `update_stats` counted it by. */
  function IpOf(e: LogEntry): string {
    e.srcIp.GetOr("")
  }

  /** The high-frequency rule: a connection from an address counted more
      than 10 times that has not been alerted. */
  predicate IpAlertDue(s: Stats, a: AlertState, e: LogEntry) {
    && e.eventid == Some(Connect)
    && Tallies.Get(s.topIps, Some(IpOf(e)), 0) > 10
    && IpOf(e) !in a.alertedIps.items
  }

  /** The long-password rule: a successful login with a password of more
      than 20 characters. */
  predicate PasswordAlertDue(e: LogEntry) {
    e.eventid == Some(LoginSuccess) && Truthy(e.password) && |e.password.value| > 20
  }

  /** The country rule: a geo record naming a country, other than
      `'Unknown'`, counted more than 20 times and not yet alerted. */
  predicate CountryAlertDue(s: Stats, a: AlertState, e: LogEntry) {
    && e.geo.Some?
    && Country(e) != "Unknown"
    && Tallies.Get(s.countries, Country(e), 0) > 20
    && Country(e) !in a.alertedCountries.items
  }

  /** The organization rule: an organization counted more than 15 times and
      not yet alerted. */
  predicate OrgAlertDue(s: Stats, a: AlertState, e: LogEntry) {
    && e.asnInfo.Some?
    && Truthy(e.asnInfo.value.organization)
    && Tallies.Get(s.organizations, e.asnInfo.value.organization.value, 0) > 15
    && e.asnInfo.value.organization.value !in a.alertedOrgs.items
  }

  function IpAlert(e: LogEntry): Alert {
    AlertOf("HIGH", "High frequency attacks from " + IpOf(e), e)
  }

  function PasswordAlert(e: LogEntry): Alert {
    AlertOf("MEDIUM", "Suspicious long password from " + IpOf(e), e)
  }

  function CountryAlert(e: LogEntry): Alert {
    AlertOf("MEDIUM", "High attack volume from " + Country(e), e)
  }

  function OrgAlert(e: LogEntry): Alert
    requires e.asnInfo.Some? && e.asnInfo.value.organization.Some?
  {
    AlertOf("MEDIUM", "High attack volume from " + e.asnInfo.value.organization.value, e)
  }

  /** The alerts that `rule` raises, as a list of none or one. */
  function Raised(due: bool, alert: Alert): seq<Alert> {
    if due then [alert] else []
  }

  /** The high-frequency rule of `check_alerts`. */
  function IpRule(s: Stats, a: AlertState, e: LogEntry): (r: AlertState)
    requires AlertsValid(a)
    ensures AlertsValid(r)
    ensures r.alerts == Newest(a.alerts + Raised(IpAlertDue(s, a, e), IpAlert(e)), MaxAlerts)
    ensures r.alertedIps == (if IpAlertDue(s, a, e) then SetStates.Add(a.alertedIps, IpOf(e), MaxAlertedIps)
                             else a.alertedIps)
    ensures r.alertedCountries == a.alertedCountries && r.alertedOrgs == a.alertedOrgs
  {
    if IpAlertDue(s, a, e) then
      AddAlert(a.(alertedIps := SetStates.Add(a.alertedIps, IpOf(e), MaxAlertedIps)),
               "HIGH", "High frequency attacks from " + IpOf(e), e)
    else
      assert a.alerts + [] == a.alerts;
      a
  }

  /** The long-password rule of `check_alerts`. */
  function PasswordRule(a: AlertState, e: LogEntry): (r: AlertState)
    requires AlertsValid(a)
    ensures AlertsValid(r)
    ensures r.alerts == Newest(a.alerts + Raised(PasswordAlertDue(e), PasswordAlert(e)), MaxAlerts)
    ensures r.alertedIps == a.alertedIps && r.alertedCountries == a.alertedCountries && r.alertedOrgs == a.alertedOrgs
  {
    if PasswordAlertDue(e) then
      AddAlert(a, "MEDIUM", "Suspicious long password from " + IpOf(e), e)
    else
      assert a.alerts + [] == a.alerts;
      a
  }

  /** The country rule of `check_alerts`. */
  function CountryRule(s: Stats, a: AlertState, e: LogEntry): (r: AlertState)
    requires AlertsValid(a)
    ensures AlertsValid(r)
    ensures r.alerts == Newest(a.alerts + Raised(CountryAlertDue(s, a, e), CountryAlert(e)), MaxAlerts)
    ensures r.alertedCountries == (if CountryAlertDue(s, a, e)
                                   then SetStates.Add(a.alertedCountries, Country(e), MaxAlertedCountries)
                                   else a.alertedCountries)
    ensures r.alertedIps == a.alertedIps && r.alertedOrgs == a.alertedOrgs
  {
    if CountryAlertDue(s, a, e) then
      AddAlert(a.(alertedCountries := SetStates.Add(a.alertedCountries, Country(e), MaxAlertedCountries)),
               "MEDIUM", "High attack volume from " + Country(e), e)
    else
      assert a.alerts + [] == a.alerts;
      a
  }

  /** The organization rule of `check_alerts`. */
  function OrgRule(s: Stats, a: AlertState, e: LogEntry): (r: AlertState)
    requires AlertsValid(a)
    ensures AlertsValid(r)
    ensures OrgAlertDue(s, a, e) ==> r.alerts == Newest(a.alerts + [OrgAlert(e)], MaxAlerts)
    ensures OrgAlertDue(s, a, e) ==>
      r.alertedOrgs == SetStates.Add(a.alertedOrgs, e.asnInfo.value.organization.value, MaxAlertedOrgs)
    ensures !OrgAlertDue(s, a, e) ==> r == a
    ensures r.alertedIps == a.alertedIps && r.alertedCountries == a.alertedCountries
  {
    if OrgAlertDue(s, a, e) then
      var org := e.asnInfo.value.organization.value;
      AddAlert(a.(alertedOrgs := SetStates.Add(a.alertedOrgs, org, MaxAlertedOrgs)),
               "MEDIUM", "High attack volume from " + org, e)
    else a
  }

  /** `check_alerts(entry)`, the rules in their order. */
  function CheckAlerts(s: Stats, a: AlertState, e: LogEntry): (r: AlertState)
    requires AlertsValid(a)
    ensures AlertsValid(r)
  {
    OrgRule(s, CountryRule(s, PasswordRule(IpRule(s, a, e), e), e), e)
  }

  /** The alerts one call raises, in order. */
  function NewAlerts(s: Stats, a: AlertState, e: LogEntry): seq<Alert> {
    Raised(IpAlertDue(s, a, e), IpAlert(e))
    + Raised(PasswordAlertDue(e), PasswordAlert(e))
    + Raised(CountryAlertDue(s, a, e), CountryAlert(e))
    + (if OrgAlertDue(s, a, e) then [OrgAlert(e)] else [])
  }

  /** What `check_alerts` does: the alerts raised are those of `NewAlerts`
      in that order, the deque keeping the newest `MAX_ALERTS`; a key is
      recorded in its `_alerted_*` set exactly when its alert is raised. */
  lemma CheckAlertsSpec(s: Stats, a: AlertState, e: LogEntry)
    requires AlertsValid(a)
    ensures var r := CheckAlerts(s, a, e);
      && r.alerts == Newest(a.alerts + NewAlerts(s, a, e), MaxAlerts)
      && r.alertedIps == (if IpAlertDue(s, a, e) then SetStates.Add(a.alertedIps, IpOf(e), MaxAlertedIps)
                          else a.alertedIps)
      && r.alertedCountries == (if CountryAlertDue(s, a, e)
                                then SetStates.Add(a.alertedCountries, Country(e), MaxAlertedCountries)
                                else a.alertedCountries)
      && r.alertedOrgs == (if OrgAlertDue(s, a, e)
                           then SetStates.Add(a.alertedOrgs, e.asnInfo.value.organization.value, MaxAlertedOrgs)
                           else a.alertedOrgs)
  {
    var x1 := Raised(IpAlertDue(s, a, e), IpAlert(e));
    var x2 := Raised(PasswordAlertDue(e), PasswordAlert(e));
    var x3 := Raised(CountryAlertDue(s, a, e), CountryAlert(e));
    var x4 := if OrgAlertDue(s, a, e) then [OrgAlert(e)] else [];
    var a1 := IpRule(s, a, e);
    var a2 := PasswordRule(a1, e);
    NewestAppendAll(a.alerts + x1, x2, MaxAlerts);
    assert a2.alerts == Newest(a.alerts + x1 + x2, MaxAlerts);
    assert CountryAlertDue(s, a2, e) == CountryAlertDue(s, a, e);
    var a3 := CountryRule(s, a2, e);
    NewestAppendAll(a.alerts + x1 + x2, x3, MaxAlerts);
    assert a3.alerts == Newest(a.alerts + x1 + x2 + x3, MaxAlerts);
    assert OrgAlertDue(s, a3, e) == OrgAlertDue(s, a, e);
    NewestAppendAll(a.alerts + x1 + x2 + x3, x4, MaxAlerts);
    if x4 == [] {
      assert a.alerts + x1 + x2 + x3 + x4 == a.alerts + x1 + x2 + x3;
    }
    Regroup(a.alerts, x1, x2, x3, x4);
  }

  lemma Regroup<T>(q: seq<T>, x1: seq<T>, x2: seq<T>, x3: seq<T>, x4: seq<T>)
    ensures q + (x1 + x2 + x3 + x4) == q + x1 + x2 + x3 + x4
  {
  }

  /** One call only adds to the `_alerted_*` sets, and a key whose alert it
      raises is recorded when its set has room. */
  lemma RecordsAlerted(s: Stats, a: AlertState, e: LogEntry)
    requires AlertsValid(a)
    ensures var r := CheckAlerts(s, a, e);
      && a.alertedIps.items <= r.alertedIps.items
      && a.alertedCountries.items <= r.alertedCountries.items
      && a.alertedOrgs.items <= r.alertedOrgs.items
      && (IpAlertDue(s, a, e) && |a.alertedIps.items| < MaxAlertedIps ==> IpOf(e) in r.alertedIps.items)
      && (CountryAlertDue(s, a, e) && |a.alertedCountries.items| < MaxAlertedCountries ==>
            Country(e) in r.alertedCountries.items)
      && (OrgAlertDue(s, a, e) && |a.alertedOrgs.items| < MaxAlertedOrgs ==>
            e.asnInfo.value.organization.value in r.alertedOrgs.items)
  {
    var a1 := IpRule(s, a, e);
    var a2 := PasswordRule(a1, e);
    assert CountryAlertDue(s, a2, e) == CountryAlertDue(s, a, e);
    var a3 := CountryRule(s, a2, e);
    assert OrgAlertDue(s, a3, e) == OrgAlertDue(s, a, e);
  }

  /** A long password is alerted on every successful login that uses it,
      whatever was alerted before. */
  lemma LongPasswordEveryTime(s: Stats, a: AlertState, e: LogEntry)
    requires PasswordAlertDue(e)
    ensures PasswordAlert(e) in NewAlerts(s, a, e)
  {
    var x1 := Raised(IpAlertDue(s, a, e), IpAlert(e));
    assert NewAlerts(s, a, e)[|x1|] == PasswordAlert(e);
  }

  /** `check_alerts` on each `(stats, entry)` in turn. */
  function CheckAll(a: AlertState, steps: seq<(Stats, LogEntry)>): (r: AlertState)
    requires AlertsValid(a)
    ensures AlertsValid(r)
    decreases |steps|
  {
    if steps == [] then a
    else
      var n := |steps| - 1;
      CheckAlerts(steps[n].0, CheckAll(a, steps[..n]), steps[n].1)
  }

  /** One more call of a run. */
  lemma CheckAllStep(a: AlertState, steps: seq<(Stats, LogEntry)>, n: nat)
    requires AlertsValid(a) && n < |steps|
    ensures CheckAll(a, steps[..n + 1]) == CheckAlerts(steps[n].0, CheckAll(a, steps[..n]), steps[n].1)
  {
    assert steps[..n + 1][..n] == steps[..n];
  }

  /** Everything alerted in `b` is alerted in `c` too. */
  ghost predicate Covers(b: AlertState, c: AlertState) {
    && b.alertedIps.items <= c.alertedIps.items
    && b.alertedCountries.items <= c.alertedCountries.items
    && b.alertedOrgs.items <= c.alertedOrgs.items
  }

  lemma CoversTransitive(x: AlertState, y: AlertState, z: AlertState)
    requires Covers(x, y) && Covers(y, z)
    ensures Covers(x, z)
  {
  }

  /** One call keeps everything alerted before it. */
  lemma StepCovers(a: AlertState, steps: seq<(Stats, LogEntry)>, n: nat)
    requires AlertsValid(a) && n < |steps|
    ensures Covers(CheckAll(a, steps[..n]), CheckAll(a, steps[..n + 1]))
  {
    CheckAllStep(a, steps, n);
    RecordsAlerted(steps[n].0, CheckAll(a, steps[..n]), steps[n].1);
  }

  /** Along a run of states each covering the one before, every state
      covers all earlier ones. */
  lemma {:induction false} ChainCovers(t: seq<AlertState>, i: nat, j: nat)
    requires forall k :: 0 <= k < |t| - 1 ==> Covers(t[k], t[k + 1])
    requires i <= j < |t|
    ensures Covers(t[i], t[j])
    decreases j
  {
    if i < j {
      ChainCovers(t, i, j - 1);
      CoversTransitive(t[i], t[j - 1], t[j]);
    }
  }

  /** Whatever has been alerted stays alerted. */
  lemma AlertedOnlyGrow(a: AlertState, steps: seq<(Stats, LogEntry)>, i: nat, j: nat)
    requires AlertsValid(a) && i <= j <= |steps|
    ensures Covers(CheckAll(a, steps[..i]), CheckAll(a, steps[..j]))
  {
    var t := seq(j + 1, k requires 0 <= k <= j => CheckAll(a, steps[..k]));
    forall k | 0 <= k < |t| - 1
      ensures Covers(t[k], t[k + 1])
    {
      StepCovers(a, steps, k);
    }
    ChainCovers(t, i, j);
  }

  /** Alerts once per address: after the high-frequency alert for an
      address, recorded while `_alerted_ips` had room, no later call raises
      it again. */
  lemma IpAlertAtMostOnce(a: AlertState, steps: seq<(Stats, LogEntry)>, i: nat, j: nat)
    requires AlertsValid(a) && i < j < |steps|
    requires IpOf(steps[i].1) == IpOf(steps[j].1)
    requires IpAlertDue(steps[i].0, CheckAll(a, steps[..i]), steps[i].1)
    requires |CheckAll(a, steps[..i]).alertedIps.items| < MaxAlertedIps
    ensures !IpAlertDue(steps[j].0, CheckAll(a, steps[..j]), steps[j].1)
  {
    CheckAllStep(a, steps, i);
    RecordsAlerted(steps[i].0, CheckAll(a, steps[..i]), steps[i].1);
    AlertedOnlyGrow(a, steps, i + 1, j);
  }

  /** Alerts once per country, on the same terms. */
  lemma CountryAlertAtMostOnce(a: AlertState, steps: seq<(Stats, LogEntry)>, i: nat, j: nat)
    requires AlertsValid(a) && i < j < |steps|
    requires Country(steps[i].1) == Country(steps[j].1)
    requires CountryAlertDue(steps[i].0, CheckAll(a, steps[..i]), steps[i].1)
    requires |CheckAll(a, steps[..i]).alertedCountries.items| < MaxAlertedCountries
    ensures !CountryAlertDue(steps[j].0, CheckAll(a, steps[..j]), steps[j].1)
  {
    CheckAllStep(a, steps, i);
    RecordsAlerted(steps[i].0, CheckAll(a, steps[..i]), steps[i].1);
    AlertedOnlyGrow(a, steps, i + 1, j);
  }

  /** Alerts once per organization, on the same terms. */
  lemma OrgAlertAtMostOnce(a: AlertState, steps: seq<(Stats, LogEntry)>, i: nat, j: nat)
    requires AlertsValid(a) && i < j < |steps|
    requires steps[i].1.asnInfo.Some? && steps[j].1.asnInfo.Some?
    requires steps[i].1.asnInfo.value.organization == steps[j].1.asnInfo.value.organization
    requires OrgAlertDue(steps[i].0, CheckAll(a, steps[..i]), steps[i].1)
    requires |CheckAll(a, steps[..i]).alertedOrgs.items| < MaxAlertedOrgs
    ensures !OrgAlertDue(steps[j].0, CheckAll(a, steps[..j]), steps[j].1)
  {
    CheckAllStep(a, steps, i);
    RecordsAlerted(steps[i].0, CheckAll(a, steps[..i]), steps[i].1);
    AlertedOnlyGrow(a, steps, i + 1, j);
  }

  /** Once `_alerted_ips` is full, an address it could not record is
      alerted again by the same connection: the once-per-address promise
      holds only while the set has room. */
  lemma FullSetAlertsAgain(s: Stats, a: AlertState, e: LogEntry)
    requires AlertsValid(a) && |a.alertedIps.items| == MaxAlertedIps
    requires IpAlertDue(s, a, e)
    ensures IpAlertDue(s, CheckAlerts(s, a, e), e)
  {
    CheckAlertsSpec(s, a, e);
  }
}

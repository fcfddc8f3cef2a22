# Cowrie dashboard backend, modelled in Dafny

This project models the sequential core of the Cowrie honeypot dashboard
backend (`integrated_final/cowrie_dashboard.py` and
`integrated_final/ip_utils.py`) and proves what that core promises.

- **Bounded collections.** `BoundedCounter` is a dict of counts kept in
  insertion order. Once it holds more than `maxsize` keys, it deletes the
  least frequent tenth of them. `BoundedSet` stops growing at `maxsize`
  items and counts what it turns away. Both are classes updated in place
  (`Counters.BoundedCounter`, `BoundedSets.BoundedSet`). Each method is
  proved to move the class's value as a function on values says
  (`Tallies`, `SetStates`), and the properties are proved of those
  functions.
- **`is_private_ip`.** This is membership of an already-parsed address in
  the eight listed networks (`PrivateAddresses`).
- **The monitor.**
  - `CowrieMonitor` is a class (`Monitor.CowrieMonitor`) whose fields are
    `self.stats`, the alerts with their `_alerted_*` sets, the read
    position with the inode, and the summary cache.
  - `update_stats` and `_process_login` (`Aggregation`), `check_alerts`
    and `_add_alert` (`Alerting`), `get_stats_summary` (`Summaries`) and
    `_detect_log_rotation` (`Rotation`) are functions on values.
  - Each method of the class is proved to change its fields exactly as
    those functions say.
  - Deques with a `maxlen` are sequences that keep their newest items
    (`Deques`).
- **Rate limiting.** `_parse_rate_limit` is modelled in `RateLimits`.
  `APIRateLimiter` is a class whose `is_allowed` rewrites the per-address
  lists and deletes stale ones in a loop. Runs of calls (`SlidingWindows`)
  show that every answer is the sliding window's.
- **Pure helpers.** The CORS origin list (`Cors`) and the side-by-side
  ranking layout of `export_stats` (`Export`). The parts of Python's `str`
  that these parsers use are modelled in `Text`.

Time is an integer number of milliseconds, passed in where the source
calls `time.time()`. `os.stat` is an input to the rotation check. Log
entries arrive already parsed and already enriched with their GeoIP and
ASN records. Collection sizes are the defaults of
`integrated_final/dashboard_config.py`.

Where the code and its comments or docstrings disagree, the model follows
the code:

- `update_stats` does not always set `_stats_dirty`. A geolocated entry
  whose geo record has no `country` raises `KeyError` after the counters
  are updated and before the flag is set. The model returns that outcome
  as an aborted update (`Aggregation.UpdateStats`, `Summaries.AbortedUpdateServesStale`).
- `BoundedSet.total_seen` is documented as the number of unique items
  seen. It counts a turned-away item again each time it comes back
  (`SetStates.RepeatedOverflowCountsTwice`).
- The once-per-key alerts hold only while the `_alerted_*` set has room
  (`Alerting.FullSetAlertsAgain`).

## Model

| member | source | states |
|---|---|---|
| Counters.BoundedCounter.constructor | integrated_final/ip_utils.py:39-42 | A new counter is empty and keeps the given capacity. |
| Counters.BoundedCounter.Increment | integrated_final/ip_utils.py:44-50 | Moves the dict as `Tallies.Increment` says and keeps it within capacity; the result is the old count plus one (see `Tallies.IncrementSpec`). |
| Counters.BoundedCounter.SetItem | integrated_final/ip_utils.py:63-66 | Moves the dict as `Tallies.SetItem` says and keeps it within capacity. |
| Counters.BoundedCounter.MaybeEvict | integrated_final/ip_utils.py:52-58 | Moves the dict as `Tallies.MaybeEvict` says: nothing below capacity, else `min(max(1, maxsize // 10), len)` least-frequent keys go. |
| Counters.BoundedCounter.DeleteLeastN | integrated_final/ip_utils.py:56-58 | The deletion loop removes exactly the first `e` keys of the stable ascending sort by count (`Tallies.EvictN`). |
| Counters.BoundedCounter.DeleteLeast | integrated_final/ip_utils.py:56-58 | One deletion removes the key that the stable sort by count puts first. |
| Counters.BoundedCounter.LeastIndex | integrated_final/ip_utils.py:56 | Returns the first position whose count is no larger than any other count: the key a stable ascending sort puts first. |
| Counters.BoundedCounter.GetItem | integrated_final/ip_utils.py:60-61 | `counter[key]` is the stored count, or 0 for an absent key; it reads only and inserts nothing. |
| Counters.BoundedCounter.Get | integrated_final/ip_utils.py:74-75 | `get(key, default)` is the stored count, or the default for an absent key; it reads only. |
| Counters.BoundedCounter.Contains | integrated_final/ip_utils.py:68-69 | A key is in the counter exactly when the dict has it. |
| Counters.BoundedCounter.Len | integrated_final/ip_utils.py:71-72 | `len` is the number of keys, never above the capacity. |
| Counters.BoundedCounter.Top | integrated_final/ip_utils.py:80-83 | `top(n)` has `lst[:n]`'s length, stored counts, no key twice and descending counts, with ties in insertion order; no key left out counts more than a listed one, and one left out with a listed count was inserted after it. |
| Tallies.Store | integrated_final/ip_utils.py:63-65 | `d[key] = value`: the key holds the value, the other counts are unchanged, and only a new key adds a place. |
| Tallies.RemoveAt | integrated_final/ip_utils.py:58 | `del d[k]`: the key goes and the other keys keep their counts and their order. |
| Tallies.EvictLeast | integrated_final/ip_utils.py:56-58 | Deletes the first key with the smallest count; the other keys keep their counts and their order. |
| Tallies.EvictN | integrated_final/ip_utils.py:56-58 | Deleting the least key `n` times leaves `n` fewer keys; the survivors keep their counts and their order. |
| Tallies.EvictedComeFirst | integrated_final/ip_utils.py:56-58 | Every key `EvictN` deletes comes before every key it keeps in the stable ascending sort by count. |
| Tallies.MaybeEvict | integrated_final/ip_utils.py:52-58 | Eviction keeps the dict well formed. |
| Tallies.MaybeEvictSpec | integrated_final/ip_utils.py:52-58 | Nothing changes unless over `maxsize`; otherwise exactly `min(max(1, maxsize // 10), len)` keys go, each no more frequent than any survivor; survivors keep their counts and order; one over capacity ends within it. |
| Tallies.Increment | integrated_final/ip_utils.py:44-50 | `increment` keeps the dict well formed. |
| Tallies.SetItem | integrated_final/ip_utils.py:63-66 | `__setitem__` keeps the dict well formed. |
| Tallies.StoreThenEvict | integrated_final/ip_utils.py:63-66 | The key holds its value unless evicted; other surviving keys keep their counts; capacity is kept; below capacity nothing is evicted. |
| Tallies.IncrementSpec | integrated_final/ip_utils.py:44-50 | The result is the previous count (0 if absent) plus one, which the key then holds unless evicted; other keys keep their counts; capacity is kept. |
| Tallies.KeyCount | integrated_final/ip_utils.py:71-72 | The dict has exactly as many keys as its insertion order lists. |
| Tallies.Items | integrated_final/ip_utils.py:77-78 | `items()` pairs each key, in insertion order, with its count. |
| Tallies.TopItemsSorted | integrated_final/ip_utils.py:83 | The entries `top(n)` selects come in descending order of count. |
| Tallies.TopItemsDistinct | integrated_final/ip_utils.py:83 | Over items with distinct keys, `top(n)` lists no key twice. |
| Tallies.TopItemsStable | integrated_final/ip_utils.py:83 | Entries with equal counts keep their insertion order, as Python's stable sort does. |
| Tallies.TopItemsDominate | integrated_final/ip_utils.py:83 | No item that `top(n)` leaves out counts more than an item it lists. |
| Tallies.TopItemsTiesLater | integrated_final/ip_utils.py:83 | An item `top(n)` leaves out that counts as much as a listed item comes after it: the stable sort keeps the earlier of equal counts. |
| Tallies.TopSpec | integrated_final/ip_utils.py:80-83 | `top(n)` is pinned down completely: its length, stored counts, no key twice, descending, ties in insertion order, no larger key left out, and where the cut falls inside equal counts the keys inserted first are the ones kept. |
| SetStates.Add | integrated_final/ip_utils.py:97-104 | A stored item changes nothing; a new one is stored exactly when there is room, otherwise the overflow grows by one; `total_seen` grows by one for a new item; capacity is kept. |
| SetStates.TotalSeenCountsDistinct | integrated_final/ip_utils.py:110-113 | Starting empty, only given items are stored and `total_seen` is at least the number of distinct items given; it is exactly that number while nothing overflowed. |
| SetStates.RepeatedOverflowCountsTwice | integrated_final/ip_utils.py:87-113 | With no room, adding one address twice makes `total_seen` 2 although one distinct item was seen. |
| BoundedSets.BoundedSet.constructor | integrated_final/ip_utils.py:91-95 | A new set is empty with no overflow. |
| BoundedSets.BoundedSet.Add | integrated_final/ip_utils.py:97-104 | Moves the set as `SetStates.Add` says and keeps it within capacity. |
| BoundedSets.BoundedSet.Len | integrated_final/ip_utils.py:106-108 | `len` counts stored items only, never above the capacity. |
| BoundedSets.BoundedSet.TotalSeen | integrated_final/ip_utils.py:110-113 | `total_seen` is stored items plus overflow, never below `len`. |
| BoundedSets.BoundedSet.Contains | integrated_final/ip_utils.py:115-116 | Only stored items are members. |
| PrivateAddresses.IsPrivateIp | integrated_final/ip_utils.py:25-31 | An address that does not parse is not private. |
| PrivateAddresses.BlockSizes | integrated_final/ip_utils.py:13-22 | Each listed network covers `2**(width - prefix)` addresses. |
| PrivateAddresses.NetworksAligned | integrated_final/ip_utils.py:13-22 | Each listed network has a base of its version with no host bits set, as `ip_network` demands. |
| PrivateAddresses.PrivateV4 | integrated_final/ip_utils.py:13-31 | An IPv4 address is private exactly when it starts 10., 172.16-31., 192.168., 127. or 169.254. |
| PrivateAddresses.PrivateV6 | integrated_final/ip_utils.py:13-31 | An IPv6 address is private exactly when it is `::1` or its first group is in fc00::/7 or fe80::/10. |
| PrivateAddresses.MappedV4NotPrivate | integrated_final/ip_utils.py:13-31 | 10.0.0.1 is private but its IPv4-mapped IPv6 form is not, since versions never match. |
| Deques.Newest | integrated_final/cowrie_dashboard.py:581 | The newest `n` items are the last `min(n, len)` items, in order. |
| Deques.Append | integrated_final/cowrie_dashboard.py:187-202 | An append to a bounded deque ends with the new item, drops the oldest only when full, and never exceeds `maxlen`. |
| Deques.AppendKeepsNewest | integrated_final/cowrie_dashboard.py:187-202 | An append keeps exactly the newest `maxlen` of everything appended. |
| Deques.AppendAllKeepsNewest | integrated_final/cowrie_dashboard.py:187-202 | However many items are appended, the deque holds the newest `maxlen` of all of them. |
| Deques.NewestAppendAll | integrated_final/cowrie_dashboard.py:187-202 | Cutting to the newest `n` first does not change the newest `n` after more appends. |
| Aggregation.Initial | integrated_final/cowrie_dashboard.py:179-200 | A new monitor's four counters are zero, its three bounded sets hold nothing and have dropped nothing, its seven counters count no key, and its attack, timeline and map lists are empty. |
| Aggregation.Bump | integrated_final/ip_utils.py:44-50 | `increment(key)` leaves the key at its old count plus one unless evicted, and every other remaining key unchanged. |
| Aggregation.ProcessLogin | integrated_final/cowrie_dashboard.py:230-267 | A login keeps every bound and leaves the timeline, map and origin counters alone. |
| Aggregation.LoginKeeps | integrated_final/cowrie_dashboard.py:241-246 | A login adds one to its own outcome counter and changes no other counter, address set or address ranking. |
| Aggregation.LoginRecentAttacks | integrated_final/cowrie_dashboard.py:256-267 | A login appends its item to `recent_attacks`, which keeps its newest 100. |
| Aggregation.LoginCredentials | integrated_final/cowrie_dashboard.py:248-254 | A password or user name that is missing or empty is not recorded; any other is added to its set and counted in its ranking. |
| Aggregation.Dispatch | integrated_final/cowrie_dashboard.py:381-407 | The dispatch on the event id keeps every bound and leaves the timeline, map and origin counters alone. |
| Aggregation.UpdateStats | integrated_final/cowrie_dashboard.py:366-455 | An update keeps every collection within its bound, whether it completes or raises. |
| Aggregation.DispatchCounters | integrated_final/cowrie_dashboard.py:381-407 | Each event id adds one to its own counter and no other; a connection records its address in `unique_ips` and `top_ips`; a command is ranked only when not empty; this holds for an aborted update too. |
| Aggregation.TimelineAndRecentAttacks | integrated_final/cowrie_dashboard.py:381-453 | An update completes exactly when building the marker does not raise; a completed one adds one timeline item, the timeline keeping its newest 50; `recent_attacks` gains one item for a connection or a login and none otherwise. |
| Aggregation.MapAndCountries | integrated_final/cowrie_dashboard.py:410-434 | A marker and a heat point are added together exactly for a completed update of an entry with non-zero coordinates, so both deques stay equally long; a country is counted only when present and not `'Unknown'`. |
| Aggregation.OriginCounters | integrated_final/cowrie_dashboard.py:437-443 | A completed update counts a non-empty organization and a non-empty ASN of the entry's ASN record, and nothing else in those counters. |
| Aggregation.UpdateAllConnections | integrated_final/cowrie_dashboard.py:381-382 | Over any run of entries, `total_connections` grows by the number of connection entries. |
| Aggregation.UpdateAllTimeline | integrated_final/cowrie_dashboard.py:446-453 | Over any run, the timeline holds the newest 50 items of the completed updates, in order. |
| Aggregation.TimelineStep | integrated_final/cowrie_dashboard.py:446-453 | One more update of a run keeps the timeline equal to the newest 50 items of the run. |
| Alerting.AddAlert | integrated_final/cowrie_dashboard.py:306-316 | An alert joins the deque of the newest 50 and nothing else changes. |
| Alerting.IpRule | integrated_final/cowrie_dashboard.py:273-277 | The high-frequency alert is raised exactly for a connection from an address counted more than 10 times and not yet alerted, and then the address is recorded. |
| Alerting.PasswordRule | integrated_final/cowrie_dashboard.py:279-283 | A successful login with a password longer than 20 characters raises an alert and records nothing. |
| Alerting.CountryRule | integrated_final/cowrie_dashboard.py:285-294 | A country other than `'Unknown'` counted more than 20 times and not yet alerted is alerted and recorded. |
| Alerting.OrgRule | integrated_final/cowrie_dashboard.py:296-304 | An organization counted more than 15 times and not yet alerted is alerted and recorded; otherwise nothing changes. |
| Alerting.CheckAlerts | integrated_final/cowrie_dashboard.py:269-304 | The alerts deque never holds more than 50 and the `_alerted_*` sets stay within their bounds. |
| Alerting.CheckAlertsSpec | integrated_final/cowrie_dashboard.py:269-304 | The alerts raised are exactly those whose rule fires, in rule order, the deque keeping the newest 50; a key is recorded exactly when its alert is raised. |
| Alerting.RecordsAlerted | integrated_final/cowrie_dashboard.py:269-304 | A call only adds to the `_alerted_*` sets, and a key whose alert it raises is recorded when its set has room. |
| Alerting.LongPasswordEveryTime | integrated_final/cowrie_dashboard.py:279-283 | A long password is alerted on every successful login that uses it, whatever was alerted before. |
| Alerting.AlertedOnlyGrow | integrated_final/cowrie_dashboard.py:269-304 | Along any run of calls, whatever has been alerted stays alerted. |
| Alerting.IpAlertAtMostOnce | integrated_final/cowrie_dashboard.py:270-277 | After an address's high-frequency alert, recorded while the set had room, no later call raises it again. |
| Alerting.CountryAlertAtMostOnce | integrated_final/cowrie_dashboard.py:285-294 | After a country's alert, recorded while the set had room, no later call raises it again. |
| Alerting.OrgAlertAtMostOnce | integrated_final/cowrie_dashboard.py:296-304 | After an organization's alert, recorded while the set had room, no later entry naming the same organization raises it again, whatever its other ASN fields. |
| Alerting.FullSetAlertsAgain | integrated_final/cowrie_dashboard.py:273-277 | Once `_alerted_ips` is full, an address it could not record is alerted again by its next connection. |
| Summaries.SuccessRate | integrated_final/cowrie_dashboard.py:562-563 | The success rate lies between 0 and 100; it is 0 without successes and 100 with successes and no failures. |
| Summaries.TopRanked | integrated_final/cowrie_dashboard.py:574-580 | A `top(500)` ranking lists its counter's largest counts as `TopSpec` describes. |
| Summaries.BuildSummary | integrated_final/cowrie_dashboard.py:562-587 | The unique counts are the stored sizes, within their bounds; `recent_attacks` is the newest 20 items; markers and heat points are equally many. |
| Summaries.SummaryRanked | integrated_final/cowrie_dashboard.py:574-580 | Every ranking of the summary is its counter's `top(500)`, with the properties `TopSpec` proves. |
| Summaries.GetStatsSummary | integrated_final/cowrie_dashboard.py:549-593 | The cache is returned unchanged exactly when it exists, is clean and is younger than the TTL; otherwise the summary is rebuilt and stored with the time, and the cache is marked clean. |
| Summaries.SummaryCurrent | integrated_final/cowrie_dashboard.py:549-593 | While the cache is clean and current, every summary returned is the current one. |
| Summaries.SummaryAge | integrated_final/cowrie_dashboard.py:553-591 | A returned summary is never older than the 2-second TTL. |
| Summaries.AbortedUpdateServesStale | integrated_final/cowrie_dashboard.py:380-458 | A connection whose update raises `KeyError` is counted but leaves the cache clean, so the summary served next omits it. |
| Rotation.DetectRotation | integrated_final/cowrie_dashboard.py:468-493 | Rotation is reported exactly when the file shrank below the read position or a known inode changed, and the position is then reset to 0; the inode is recorded; a failed stat changes nothing. |
| Rotation.PositionWithinFile | integrated_final/cowrie_dashboard.py:476-491 | After a check against a file, the read position lies within it. |
| Rotation.DetectOnce | integrated_final/cowrie_dashboard.py:476-491 | Checking the same file again reports no rotation and changes nothing. |
| Rotation.FirstCheck | integrated_final/cowrie_dashboard.py:476-491 | With no inode known yet, only a shrunken file counts as rotated. |
| Monitor.CowrieMonitor.constructor | integrated_final/cowrie_dashboard.py:170-214 | A new monitor has the initial statistics, no alerts, position 0 with no inode, and no cached summary. |
| Monitor.CowrieMonitor.ProcessLogin | integrated_final/cowrie_dashboard.py:230-267 | Changes `self.stats` exactly as `Aggregation.ProcessLogin` says. |
| Monitor.CowrieMonitor.UpdateStats | integrated_final/cowrie_dashboard.py:366-458 | Changes the statistics as `Aggregation.UpdateStats` says; a completed update sets the dirty flag and runs `check_alerts`; an aborted one changes neither alerts nor the flag. |
| Monitor.CowrieMonitor.DispatchEvent | integrated_final/cowrie_dashboard.py:381-407 | Changes the statistics as `Aggregation.Dispatch` says. |
| Monitor.CowrieMonitor.RecordEntry | integrated_final/cowrie_dashboard.py:409-453 | Changes the statistics as `Aggregation.Record` says. |
| Monitor.CowrieMonitor.CheckAlerts | integrated_final/cowrie_dashboard.py:269-304 | Changes the alerts and the `_alerted_*` sets as `Alerting.CheckAlerts` says. |
| Monitor.CowrieMonitor.CheckIpRule | integrated_final/cowrie_dashboard.py:273-277 | Changes them as `Alerting.IpRule` says. |
| Monitor.CowrieMonitor.CheckPasswordRule | integrated_final/cowrie_dashboard.py:279-283 | Changes them as `Alerting.PasswordRule` says. |
| Monitor.CowrieMonitor.CheckCountryRule | integrated_final/cowrie_dashboard.py:285-294 | Changes them as `Alerting.CountryRule` says. |
| Monitor.CowrieMonitor.CheckOrgRule | integrated_final/cowrie_dashboard.py:296-304 | Changes them as `Alerting.OrgRule` says. |
| Monitor.CowrieMonitor.AddAlert | integrated_final/cowrie_dashboard.py:306-316 | Changes the alerts as `Alerting.AddAlert` says. |
| Monitor.CowrieMonitor.GetStatsSummary | integrated_final/cowrie_dashboard.py:549-593 | Returns the summary and updates the cache fields as `Summaries.GetStatsSummary` says. |
| Monitor.CowrieMonitor.DetectLogRotation | integrated_final/cowrie_dashboard.py:468-493 | Updates the position and inode and answers as `Rotation.DetectRotation` says. |
| RateLimits.ParseRateLimit | integrated_final/cowrie_dashboard.py:137-145 | The window is always a minute or an hour. |
| RateLimits.ParseRateLimitText | integrated_final/cowrie_dashboard.py:137-145 | A count written with a unit parses back to that count; the window is an hour exactly when the unit, lower-cased and cut at a further '/', starts with "hour". |
| RateLimits.ParseRateLimitMinute | integrated_final/cowrie_dashboard.py:137-145 | `"N/minute"` gives `(N, 60)`. |
| RateLimits.ParseRateLimitHours | integrated_final/cowrie_dashboard.py:137-145 | `"N/Hours"` gives `(N, 3600)`: case and ending do not matter. |
| RateLimits.ParseRateLimitNoUnit | integrated_final/cowrie_dashboard.py:140-142 | A count without a unit gets a one-minute window. |
| RateLimits.ParseRateLimitInvalid | integrated_final/cowrie_dashboard.py:137-145 | Text before the first '/' that is not an integer gives `(30, 60)`. |
| RateLimits.Recent | integrated_final/cowrie_dashboard.py:129 | The filter never lengthens a list. |
| RateLimits.RecentMembers | integrated_final/cowrie_dashboard.py:129 | The filter keeps exactly the times less than the window before `now`. |
| RateLimits.Purge | integrated_final/cowrie_dashboard.py:119-123 | The cleanup deletes exactly the empty lists and those whose newest time is more than the window old, and keeps the others as they are. |
| RateLimits.AllowSpec | integrated_final/cowrie_dashboard.py:115-133 | The call is allowed exactly when fewer than `max` recent times remain after cleanup; the list becomes those times, plus `now` when allowed; other lists change only by the stale cleanup; no list exceeds `max`. |
| RateLimits.ApiRateLimiter.constructor | integrated_final/cowrie_dashboard.py:108-113 | A new limiter has no lists and its cleanup time is its creation time. |
| RateLimits.ApiRateLimiter.IsAllowed | integrated_final/cowrie_dashboard.py:115-133 | Updates the lists and answers as `RateLimits.Allow` says, which `AllowSpec` characterises, keeping every list within `max`. |
| RateLimits.ApiRateLimiter.DropStale | integrated_final/cowrie_dashboard.py:120-123 | The deletion loop removes exactly the stale lists (`RateLimits.Purge`). |
| SlidingWindows.Run | integrated_final/cowrie_dashboard.py:115-133 | A run of calls answers each one. |
| SlidingWindows.RecentOfSortedIsTail | integrated_final/cowrie_dashboard.py:129 | On times in order, the filter keeps a suffix: everything before it has left the window. |
| SlidingWindows.CleanupTracked | integrated_final/cowrie_dashboard.py:118-124 | The periodic cleanup deletes only lists whose times have all left the window, so it changes no answer. |
| SlidingWindows.StepTracked | integrated_final/cowrie_dashboard.py:115-133 | One call is allowed exactly when fewer than `max` of the address's allowed times lie within the window, and its list stays the recent suffix of them. |
| SlidingWindows.RunTracks | integrated_final/cowrie_dashboard.py:115-133 | After any run in time order, every address's list is the in-window suffix of the times its calls were allowed. |
| SlidingWindows.SlidingWindow | integrated_final/cowrie_dashboard.py:115-133 | With calls in time order, every call is allowed exactly when fewer than `max` earlier allowed calls from its address fall within the window before it. |
| SlidingWindows.EarlierAnswers | integrated_final/cowrie_dashboard.py:115-133 | The answers before the last call of a run are still the window's. |
| SlidingWindows.LastAnswer | integrated_final/cowrie_dashboard.py:115-133 | The last call of a run in time order is answered by the window. |
| Cors.Origins | integrated_final/cowrie_dashboard.py:64 | The comprehension keeps at most one entry per piece, each stripped and not empty. |
| Cors.OriginsAppend | integrated_final/cowrie_dashboard.py:64 | The comprehension works piece by piece, in order: the entries of two runs of pieces are those of the first run followed by those of the second. |
| Cors.OriginsOfPiece | integrated_final/cowrie_dashboard.py:64 | One piece gives its stripped text as an entry, or nothing when that is empty. |
| Cors.OriginsMembers | integrated_final/cowrie_dashboard.py:64 | A text is an entry exactly when it is not empty and some piece strips to it. |
| Cors.ParseCorsOrigins | integrated_final/cowrie_dashboard.py:62-66 | Every parsed origin is non-empty, free of commas and has no white space at either end. |
| Cors.ParseMembers | integrated_final/cowrie_dashboard.py:62-66 | An origin is in the parsed list exactly when it is not empty and some comma-separated piece of the setting strips to it, the empty setting included. |
| Cors.PaddedPiecesStripped | integrated_final/cowrie_dashboard.py:64 | White space around each origin is stripped: `" a , b "` parses to `["a", "b"]`. |
| Cors.TwoPieces | integrated_final/cowrie_dashboard.py:62-66 | Two pieces around one comma give their two stripped texts, in order. |
| Cors.AllowedOrigins | integrated_final/cowrie_dashboard.py:62-70 | No parsed origin means `None` (same origin only); otherwise the parsed list. |
| Cors.OriginsOfOrigins | integrated_final/cowrie_dashboard.py:64 | Entries already in parsed form are kept as they are, in order. |
| Cors.ParseJoined | integrated_final/cowrie_dashboard.py:62-66 | Parsing a comma-joined list of parsed origins gives that list back. |
| Cors.ParseIdempotent | integrated_final/cowrie_dashboard.py:62-66 | Joining and parsing the parsed list again changes nothing. |
| Cors.BlankPiecesDropped | integrated_final/cowrie_dashboard.py:64 | Blank pieces are dropped: `"a, ,b"` parses as `"a,b"` does. |
| Text.Strip | integrated_final/cowrie_dashboard.py:64 | `strip()` gives a slice of the text with no white space at either end, and everything cut off before and after that slice is white space. |
| Text.StripPadded | integrated_final/cowrie_dashboard.py:64 | White space added around text with non-space ends is exactly what `strip()` removes. |
| Text.StripTrimmed | integrated_final/cowrie_dashboard.py:64 | Text with no white space at either end is its own strip. |
| Text.Split | integrated_final/cowrie_dashboard.py:64 | `split(sep)` gives at least one piece and no piece holds the separator. |
| Text.SplitJoin | integrated_final/cowrie_dashboard.py:64 | Splitting undoes joining pieces that are free of the separator. |
| Text.JoinSplit | integrated_final/cowrie_dashboard.py:64 | Joining the pieces of a split gives back the text. |
| Text.Lower | integrated_final/cowrie_dashboard.py:141 | `lower()` keeps the length and lowers each character. |
| Text.ParsePaddedDigits | integrated_final/cowrie_dashboard.py:140 | `int()` accepts a digit run (single underscores between digits allowed) surrounded by white space and gives its value. |
| Text.ParsePaddedPlus | integrated_final/cowrie_dashboard.py:140 | `int()` accepts such a run after a `+` sign, surrounded by white space, and gives its value. |
| Text.ParsePaddedMinus | integrated_final/cowrie_dashboard.py:140 | `int()` accepts such a run after a `-` sign, surrounded by white space, and gives its negated value. |
| Text.ParseIntOfPadded | integrated_final/cowrie_dashboard.py:140 | White space around a number's text does not change what `int()` gives. |
| Text.ParseIntPaddedUnderscore | integrated_final/cowrie_dashboard.py:140 | `int(" +1_0 ") == 10`. |
| Text.ParseIntString | integrated_final/cowrie_dashboard.py:140 | `int(str(n)) == n` for every integer. |
| Text.DecimalStringDigits | integrated_final/cowrie_dashboard.py:140 | `str(n)` is a run of digits whose value is `n`. |
| Export.Insert | integrated_final/cowrie_dashboard.py:726 | Inserting adds exactly one entry. |
| Export.InsertPermutes | integrated_final/cowrie_dashboard.py:726 | Inserting adds the entry and keeps every other one. |
| Export.SortSorted | integrated_final/cowrie_dashboard.py:726 | `sorted(..., reverse=True)` by count puts the largest count first. |
| Export.SortPermutes | integrated_final/cowrie_dashboard.py:726 | The sort keeps every entry, each as often as it occurs. |
| Export.SortStable | integrated_final/cowrie_dashboard.py:726 | The sort is stable: the entries with any one count keep their order. |
| Export.SortKeepsSorted | integrated_final/cowrie_dashboard.py:726 | A list already sorted largest first comes out unchanged. |
| Export.Triples | integrated_final/cowrie_dashboard.py:735-739 | Extending a row by three cells per pair gives three times as many cells. |
| Export.TriplesLayout | integrated_final/cowrie_dashboard.py:735-739 | Pair `i` fills cells `3i` and `3i + 1` and a gap follows it. |
| Export.DropLast | integrated_final/cowrie_dashboard.py:730-739 | `lst[:-1]` keeps every item but the last, and nothing of an empty list. |
| Export.HeaderRow | integrated_final/cowrie_dashboard.py:723-732 | With `k` sections the header row has `3k - 1` cells: each label, its count label and a gap between sections; no sections, no row. |
| Export.Longest | integrated_final/cowrie_dashboard.py:735 | `zip_longest` yields as many rows as the longest column has entries. |
| Export.DataRows | integrated_final/cowrie_dashboard.py:735-739 | There is one data row per entry of the longest column. |
| Export.DataRowsLayout | integrated_final/cowrie_dashboard.py:735-739 | Row `j` holds each section's `j`-th entry at cells `3c` and `3c + 1`, or `('', '')` padding, with gaps between; no row is padding only. |
| Export.ColumnReadBack | integrated_final/cowrie_dashboard.py:735-739 | Reading a section back from the rows gives its entries in order: the layout loses nothing. |
| Export.TableShape | integrated_final/cowrie_dashboard.py:722-739 | With `k` sections the header and every data row have `3k - 1` cells, and there is one data row per entry of the longest section. |
| Export.RankingRowsShape | integrated_final/cowrie_dashboard.py:711-739 | For the seven sections, the header and every row have 20 cells, with one data row per entry of the longest ranking. |
| Export.Columns | integrated_final/cowrie_dashboard.py:711-727 | There is one sorted column per section. |
| Export.IpColumnKept | integrated_final/cowrie_dashboard.py:724-727 | The address ranking of a summary is left as it is by the export's sort. |
| Export.NameColumnKept | integrated_final/cowrie_dashboard.py:724-727 | A named ranking of a summary is left as it is by the export's sort. |
| Export.ExportKeepsRanking | integrated_final/cowrie_dashboard.py:724-727 | The rankings of a summary are sorted already, so each export column is its `top(500)` in the same order. |

## Left out

- Flask routes, authentication, the rate-limit decorator's request plumbing, `render_template`, the health check and every Socket.IO emit (including the one in `_add_alert`) are web I/O, not logic.
- Threads, locks, the `_enrich_queue`, `_enrichment_worker`, `_update_asn_stats` and `stats_push_loop` are left out. Updates run one at a time, in sequence.
- The queueing of ASN enrichment at the end of `update_stats` is left out: it only feeds the background worker.
- `monitor_logs` file reading and seeking is left out. `os.stat` is an input to `_detect_log_rotation`, and `json.loads` in `parse_log_entry` is left out.
- `GeoIPService` and `ASNService` are not part of this model: entries arrive with their geo and ASN records.
- Summaries.SuccessRate: the percentage is exact real arithmetic, not floating point.
- Alert timestamps (`datetime.now()`) and the export's generated-at rows are not modelled.
- The clock is an integer number of milliseconds, not `time.time()`'s float seconds.
- `export_logs`, `export_alerts` and `export_credentials` are left out: the first two slice a deque, which Python rejects; the last reads a key that is never created.
- The export's title, overview and blank rows, the CSV writer and its quoting are left out; only the ranking layout is modelled.
- `ipaddress` text parsing is left out: `is_private_ip` receives the parsed address, or none when parsing fails.
- Text.Lower: only ASCII letters are lowered, not the rest of Unicode.
- Text.ParseInt: reads ASCII digits only, not the other Unicode digits `int()` accepts.
- A JSON `null` and a missing key are the same in a log entry. A geo or ASN record that is present but `null` would make the source's `.get` fail; the model treats it as missing.
- The monitor's statistics are values assigned back to its fields, so aliasing of the dicts, deques and counters inside `self.stats` is not modelled.
- Monitor.CowrieMonitor.UpdateStats: the `KeyError` is returned as an aborted outcome rather than raised to the caller.
- The dashboard configuration is read from the environment; the model uses its defaults as constants.

# siem-log-monitor: detection engine and incident aggregator in Dafny

This project models the two computational cores of a small SIEM log monitor:

- **The detection engine** (`Detection/detection_rules.py`). It turns parsed login events into alerts with two rules.
  - The brute-force rule groups FAILED_LOGIN timestamps by `(ip, user)` in a dictionary that keeps insertion order. It sorts each group in place and slides a window of `FAILED_THRESHOLD` timestamps along it. It alerts on the first window whose span is at most `TIME_WINDOW_MINUTES`, and then stops scanning that group.
  - The suspicious-hour rule alerts on every SUCCESS_LOGIN whose hour lies in `SUSPICIOUS_HOURS`.
  - `run_detection` concatenates the two rules' outputs, suspicious-hour alerts first.
- **The incident aggregator** (`incident_report_generator.py`). It groups alerts into incidents by `(alert_type, user, ip)`, again in first-seen order. It ranks severities (LOW 1, MEDIUM 2, HIGH 3, anything else 0). It picks each incident's representative alert with a stable maximum, and numbers incidents 1, 2, … in group order.

The imperative parts stay imperative, with loops proved against specification functions:

- the dictionary-filling loops (`CollectAttempts`, `GroupIncidents`);
- the in-place sort of each group (`Sorting.SortInPlace` on an `array<int>`);
- the window scan with its `continue`/`break` (`ScanWindows`);
- the alert-appending loops (`DetectBruteForce`, `DetectSuspiciousLogin`);
- the report loop with its `incident_id` counter (`GenerateReport`).

The pure parts are functions: `severity_rank` is `SeverityRank`, and `max(..., key=severity_rank)` is `HighestIndex`.

Files:

- `records.dfy`: events, alerts, timestamps, and the error position of an unparseable timestamp.
- `grouping.dfy`: an insertion-ordered `defaultdict(list)`, kept generic. It holds the key order (`FirstSeen`), each key's list (`GroupOf`) and the whole dictionary (`GroupMap`), together with the partition and order lemmas.
- `sorting.dfy`: the reference sort, the uniqueness of the sorted permutation, and the in-place insertion sort.
- `detection.dfy`: the detection rules as methods, and the functions that specify them.
- `detection_lemmas.dfy`: what the rules promise over whole event lists, with worked examples.
- `incidents.dfy`: the aggregator.

Modelling choices:

- **Timestamps.** A timestamp is an integer number of seconds. The hour of day is `(t % 86400) / 3600`, with no time-zone adjustment.
- **Malformed timestamps.** The source's `strptime` raises on text that is not `YYYY-MM-DD HH:MM:SS`. This is modelled by `Stamp.Unparseable`, and a rule that meets one returns `Failure(MalformedTimestamp(i))`.
  - `i` is the first event of that rule's own kind whose timestamp does not parse. The brute-force rule parses only FAILED_LOGIN timestamps; the suspicious-hour rule parses only SUCCESS_LOGIN timestamps.
  - `RunDetection` fails with the suspicious-hour rule's error first, because that rule runs first.
- **Configuration.** The constants (`FAILED_THRESHOLD = 5`, `TIME_WINDOW_MINUTES = 5`, `SUSPICIOUS_HOURS = range(0, 5)`) are `Detection.Defaults`. Every rule takes the configuration as a parameter.
- **Dictionaries.** A Python dictionary is returned as its key order (a `seq`) together with its contents (a `map`). This is the order in which `items()` iterates.
- **Report.** The report is produced as a list of `Incident` records, one per incident.
  - Each record holds the incident's number, its key, the severity and technique of the representative alert, and the timeline of `(timestamp, description)` entries.
  - The Markdown rendering of these records is not modelled.
- **Short windows.** A window that runs off the end of the list is skipped with `continue` (`Detection/detection_rules.py:49`). Every later window is shorter still, so the scan finds nothing more; the model keeps the `continue`.
- **Severity.** Severity is free text; text other than LOW, MEDIUM and HIGH ranks 0.
- **Event types.** The rules compare the raw `event_type` text. `Records.EventTypeOf` maps that text to a kind, so `OtherType` never holds "FAILED_LOGIN" or "SUCCESS_LOGIN".

## Model

| member | source | states |
|---|---|---|
| Records.FirstUnparseable | Detection/detection_rules.py:38-42 | The position where a rule parsing one event kind raises. It is `None` exactly when every event of that kind parses. Otherwise it is an unparseable event of that kind, and every earlier event of that kind parses. |
| Records.FirstUnparseableAt | Detection/detection_rules.py:38-42 | A scan that has parsed every earlier event of the kind and meets an unparseable one is at the first failure, and the whole list does not parse. |
| Records.EventTypeOf | Detection/detection_rules.py:39 | The rules compare the raw `event_type` text: the kind is FAILED_LOGIN exactly for the text "FAILED_LOGIN", SUCCESS_LOGIN exactly for "SUCCESS_LOGIN", and any other text is kept as is and is neither. |
| Grouping.FirstSeen | incident_report_generator.py:27-30 | The dictionary's keys, in first-insertion order, are pairwise distinct. |
| Grouping.FirstSeenMembers | incident_report_generator.py:27-30 | A key is in the dictionary exactly when some appended pair carries it. |
| Grouping.GroupOf | incident_report_generator.py:28-30 | A key's list is never longer than the input. |
| Grouping.AppendPair | Detection/detection_rules.py:40-42 | `d[key].append(v)` adds v at the end of key's list only. It places key at the end of the key order when key is new. |
| Grouping.GroupMap | incident_report_generator.py:27-31 | The dictionary's keys are exactly the first-seen keys. |
| Grouping.AppendToGroupMap | incident_report_generator.py:29-30 | Appending one pair is a map update: key's list, or the empty list for a new key, gains v at its end. |
| Grouping.AppendStep | Detection/detection_rules.py:40-42 | One loop step of filling the dictionary keeps the key order and the contents equal to their definitions. |
| Grouping.GroupMembers | incident_report_generator.py:29-30 | Every value in a key's list was appended under that key. |
| Grouping.GroupContainsOwn | incident_report_generator.py:28-30 | Every appended value is in the list of its own key. |
| Grouping.GroupNonEmptyIffSeen | incident_report_generator.py:27-30 | A key's list is non-empty exactly when the key is in the dictionary. |
| Grouping.GroupOfAppend | incident_report_generator.py:28-30 | Grouping is stable: a key's list over a concatenation is the concatenation of its lists, so arrival order is kept. |
| Grouping.GroupSizesSum | incident_report_generator.py:26-31 | The groups partition the input: their sizes add up to its length. |
| Grouping.FirstSeenOrder | incident_report_generator.py:27-31 | The key at position p occurs in the input before any occurrence of the key at a later position q. |
| Sorting.Insert | Detection/detection_rules.py:45 | Insertion adds exactly one element: the multiset gains x and the length grows by one. |
| Sorting.InsertSorted | Detection/detection_rules.py:45 | Inserting into a sorted sequence keeps it sorted. |
| Sorting.Sort | Detection/detection_rules.py:45 | The reference sort returns an ascending permutation of its input. |
| Sorting.SortedUnique | Detection/detection_rules.py:45 | Two sorted sequences with the same multiset are equal, so the sorted result does not depend on the algorithm. |
| Sorting.InsertLast | Detection/detection_rules.py:45 | One insertion pass on an array with a sorted prefix a[..i] leaves a[..i+1] sorted and permutes the array. |
| Sorting.SortInPlace | Detection/detection_rules.py:45 | `times.sort()`: after the in-place sort the array equals the reference sort of its old contents. |
| Detection.HourOfDay | Detection/detection_rules.py:71 | The hour of a timestamp lies in 0..23. |
| Detection.InSuspiciousHours | Detection/detection_rules.py:71 | Membership of an hour in `SUSPICIOUS_HOURS`, the half-open `range(start, stop)`; an empty range holds no hour. |
| Detection.FailedPairs | Detection/detection_rules.py:38-42 | The (ip, user, timestamp) appends of the first loop: at most one per event, and none when no event is a FAILED_LOGIN. |
| Detection.WindowQualifies | Detection/detection_rules.py:47-51 | The window of T timestamps starting at i exists and spans at most the window, inclusively; a qualifying window needs at least T timestamps. |
| Detection.BruteForceAlert | Detection/detection_rules.py:52-60 | The brute-force alert for a pair: BRUTE_FORCE, HIGH, T1110, with the pair's ip and user and the given timestamp. |
| Detection.GroupAlert | Detection/detection_rules.py:46-61 | A group yields no alert exactly when no window of its sorted timestamps qualifies; otherwise the alert is the pair's brute-force alert, stamped with one of the group's timestamps. |
| Detection.KeyAlerts | Detection/detection_rules.py:44-61 | One pair contributes at most one alert, its own brute-force alert, stamped with one of its failed-login timestamps. |
| Detection.BruteForceAlerts | Detection/detection_rules.py:44-61 | The second loop yields at most one alert per key; each is the brute-force alert of one of the keys, stamped with one of that key's timestamps. |
| Detection.BruteForceAlertsOf | Detection/detection_rules.py:34-61 | The rule's output has at most one alert per (ip, user) pair; each is that pair's brute-force alert, stamped with one of the pair's own failed-login times. |
| Detection.FirstQualifying | Detection/detection_rules.py:46-51 | The start of the first qualifying window, if any. It is `None` exactly when no window qualifies; otherwise that window qualifies and no earlier one does. |
| Detection.WindowSlice | Detection/detection_rules.py:47-51 | The slice `times[i:i+T]`: a short slice is no window; a full one qualifies exactly when `window[-1] - window[0] <= W`, and `window[-1]` is `times[i+T-1]`. |
| Detection.FirstWindowAt | Detection/detection_rules.py:51-61 | A qualifying window with no qualifying window before it is the first, and it fixes the group's alert. |
| Detection.ScanWindows | Detection/detection_rules.py:46-61 | The window scan with `continue` and `break` returns exactly the group's alert: the alert at the end of the first qualifying window of the sorted times, or none. |
| Detection.ScanGroup | Detection/detection_rules.py:45-61 | Sorting a group in place, then scanning it, yields the alert of the group's sorted timestamps. |
| Detection.CollectAttempts | Detection/detection_rules.py:36-42 | The first loop succeeds exactly when every FAILED_LOGIN timestamp parses. On success it returns the dictionary of failed timestamps per (ip, user), in first-seen order. Otherwise it fails at the first unparseable FAILED_LOGIN. |
| Detection.DetectBruteForce | Detection/detection_rules.py:34-63 | detect_brute_force succeeds exactly when every FAILED_LOGIN timestamp parses. It returns the per-key alerts in first-seen key order, and otherwise the first failure. |
| Detection.IsSuspiciousLogin | Detection/detection_rules.py:69-71 | A suspicious login is a SUCCESS_LOGIN with a parsed timestamp whose hour is in the range; none exists unless the range meets 0..23. |
| Detection.SuspiciousAlert | Detection/detection_rules.py:72-80 | The suspicious-hour alert for an event: SUSPICIOUS_LOGIN_TIME, MEDIUM, T1078, with the event's ip, user and timestamp. |
| Detection.SuspiciousAlerts | Detection/detection_rules.py:68-80 | At most one alert per event; every alert is SUSPICIOUS_LOGIN_TIME, MEDIUM, with an hour in the suspicious range. |
| Detection.DetectSuspiciousLogin | Detection/detection_rules.py:65-82 | detect_suspicious_login succeeds exactly when every SUCCESS_LOGIN timestamp parses. It returns the alerts of the suspicious-hour logins in input order, and otherwise the first failure. |
| Detection.RunDetection | Detection/detection_rules.py:88-92 | run_detection succeeds exactly when both rules do. It returns the suspicious-hour alerts followed by the brute-force alerts, so its length is the sum of theirs. The suspicious-hour rule's error takes precedence. |
| DetectionLemmas.GroupAlertContents | Detection/detection_rules.py:52-60 | A group's alert carries BRUTE_FORCE, HIGH, T1110, the fixed description and the group's (ip, user). It is stamped with the last timestamp of a qualifying window. |
| DetectionLemmas.GroupAlertIffWindow | Detection/detection_rules.py:46-51 | A group alerts exactly when some window of its sorted timestamps qualifies. |
| DetectionLemmas.GroupAlertStamp | Detection/detection_rules.py:51-59 | On sorted timestamps, the alert is stamped `sorted[i+T-1]` for the first qualifying i. That stamp is one of the group's timestamps, and all T attempts of the window lie within W seconds before it. |
| DetectionLemmas.QualifyingWindowMeaning | Detection/detection_rules.py:51 | On sorted timestamps, all T attempts of a qualifying window fall within W seconds before its last one. |
| DetectionLemmas.GroupAlertOrderInsensitive | Detection/detection_rules.py:45 | Because the group is sorted first, its alert depends only on the multiset of its timestamps, not on their arrival order. |
| DetectionLemmas.BruteForceAlertSource | Detection/detection_rules.py:44-61 | Every alert of the second loop is the alert of one of the dictionary's keys. |
| DetectionLemmas.BruteForceAlertPresent | Detection/detection_rules.py:44-61 | Every key of the dictionary whose group alerts contributes its alert. |
| DetectionLemmas.BruteForceAlertKeysIn | Detection/detection_rules.py:44-56 | Every alert is filed under one of the dictionary's keys. |
| DetectionLemmas.BruteForceAlertsFollowKeys | Detection/detection_rules.py:44-61 | Alerts follow the key order: an earlier alert's key sits strictly earlier in the key list. |
| DetectionLemmas.BruteForceAlertIffWindow | Detection/detection_rules.py:45-51 | An (ip, user) pair gets an alert exactly when some i has `times[i+T-1] - times[i] <= W` in its sorted failed timestamps (inclusive). |
| DetectionLemmas.FewFailuresNoAlert | Detection/detection_rules.py:46-49 | A pair with fewer than FAILED_THRESHOLD parsed failed logins gets no alert. |
| DetectionLemmas.BruteForceAlertContents | Detection/detection_rules.py:51-60 | Every brute-force alert carries the constants and is the alert of its own (ip, user) pair's sorted failed timestamps, so by GroupAlertStamp it is stamped at the end of the earliest qualifying window. Its timestamp is one of that pair's failed logins. |
| DetectionLemmas.BruteForceAlertsOrdered | Detection/detection_rules.py:36-61 | Brute-force alerts come in first-seen order of their (ip, user) among FAILED_LOGIN events, and no pair gets two alerts. |
| DetectionLemmas.FailedPairsSource | Detection/detection_rules.py:38-42 | Every collected pair comes from a FAILED_LOGIN event with that ip, user and timestamp, and every FAILED_LOGIN event with a parsed timestamp is collected. |
| DetectionLemmas.FailedPairsAppend | Detection/detection_rules.py:38-42 | Failed-login collection distributes over concatenation of event lists. |
| DetectionLemmas.FailedPairsSkips | Detection/detection_rules.py:39 | An event that is not a FAILED_LOGIN adds no pair, wherever it occurs in the list. |
| DetectionLemmas.FirstUnparseableSkips | Detection/detection_rules.py:38-42 | Inserting an event of another kind anywhere leaves unchanged whether a kind's timestamps all parse, and which event fails first, up to the shift of one position after the insertion point. |
| DetectionLemmas.BruteForceIgnoresOtherEvents | Detection/detection_rules.py:39 | Inserting an event that is not a FAILED_LOGIN anywhere in the list changes neither the brute-force output nor whether it fails; a failure keeps its event, whose position shifts by one when it lies after the insertion. |
| DetectionLemmas.SuspiciousAlertsAppend | Detection/detection_rules.py:68-80 | The suspicious-hour rule treats events one at a time: its output on a concatenation is the concatenation of its outputs. |
| DetectionLemmas.SuspiciousAlertsContents | Detection/detection_rules.py:68-80 | Every suspicious-hour alert copies the user, ip and timestamp of a SUCCESS_LOGIN in the suspicious hours, and every such login has its alert. |
| DetectionLemmas.SuspiciousAlertsShape | Detection/detection_rules.py:71-80 | Every suspicious-hour alert is SUSPICIOUS_LOGIN_TIME, MEDIUM, T1078 with the fixed description, and its hour lies in the range. |
| DetectionLemmas.SuspiciousIgnoresOtherEvents | Detection/detection_rules.py:69 | Inserting an event that is not a SUCCESS_LOGIN anywhere in the list changes neither the suspicious-hour output nor whether it fails; a failure keeps its event, whose position shifts by one when it lies after the insertion. |
| DetectionLemmas.DefaultSuspiciousHours | Detection/detection_rules.py:20 | With `range(0, 5)`, a login is suspicious exactly when it falls in 00:00:00–04:59:59 of its day. |
| DetectionLemmas.SortOfSorted | Detection/detection_rules.py:45 | Sorting an already sorted list leaves it unchanged. |
| DetectionLemmas.BoundaryWindowAlerts | Detection/detection_rules.py:51 | Exactly FAILED_THRESHOLD sorted failures spanning exactly the window alert at the last one: the bound is inclusive. |
| DetectionLemmas.BruteForceExample | Detection/detection_rules.py:46-60 | Failures at 10:00:00, 10:01:00, 10:02:00, 10:03:00 and 10:04:30 alert HIGH/T1110 at 10:04:30. |
| DetectionLemmas.LaterWindowExample | Detection/detection_rules.py:46-61 | With six failures where only the second window qualifies, the group alerts once, at the sixth failure. |
| DetectionLemmas.SuspiciousExample | Detection/detection_rules.py:68-80 | A successful login at 03:15:00 alerts SUSPICIOUS_LOGIN_TIME, MEDIUM, T1078 with the event's user, ip and timestamp. |
| Incidents.KeyOf | incident_report_generator.py:29 | The incident key is the alert's (alert_type, user, ip); no other field takes part. |
| Incidents.GroupIncidents | incident_report_generator.py:26-31 | group_incidents returns the dictionary of alerts per (alert_type, user, ip), in first-seen key order. |
| Incidents.GroupIsAlertsWithKey | incident_report_generator.py:28-30 | Each incident holds exactly the alerts with its key, in input order, with no re-sorting. |
| Incidents.GroupSharesKey | incident_report_generator.py:29-30 | All alerts of an incident share its (alert_type, user, ip). |
| Incidents.IncidentsPartition | incident_report_generator.py:26-31 | Every alert lands in the incident of its own key and in no other. The incident sizes add up to the number of alerts. |
| Incidents.DifferentKeysSeparateIncidents | incident_report_generator.py:29-30 | Two alerts with different keys (for example, the same type and user but a different ip) never share an incident. |
| Incidents.IncidentOrder | incident_report_generator.py:27-31 | Incidents are ordered by first appearance: the incident at p has an alert before any alert of the incident at q > p. |
| Incidents.SeverityRank | incident_report_generator.py:37-38 | The rank is at most 3, and it is 0 exactly for text other than LOW, MEDIUM and HIGH. |
| Incidents.SeverityOrder | incident_report_generator.py:37-38 | HIGH ranks over MEDIUM, which ranks over LOW, which ranks over unknown text. Ranks 1, 2 and 3 each belong to one level. |
| Incidents.HighestIndex | incident_report_generator.py:53 | `max(alerts, key=severity_rank)` returns a position of maximal rank, and every earlier alert ranks strictly lower (the first maximum wins). |
| Incidents.HighestIndexUnique | incident_report_generator.py:53 | The stable maximum is unique: any position with the maximal rank and only lower ranks before it is HighestIndex. |
| Incidents.Timeline | incident_report_generator.py:62-64 | The timeline lists exactly the incident's (timestamp, description) pairs, in group order. |
| Incidents.Reports | incident_report_generator.py:50-64 | What the report says about one group: its number, its key, the severity and technique of the stable-maximum alert, and the timeline. A reported incident has a non-empty timeline, and no alert of its group ranks above its severity. |
| Incidents.GenerateReport | incident_report_generator.py:50-72 | Incidents are numbered 1..n in key order. Each carries its key, the severity and technique of its representative alert, and its timeline. |
| Incidents.RepresentativeIsHighest | incident_report_generator.py:53-60 | The reported severity is the highest rank in the group, and it belongs to an alert with only lower-ranked alerts before it. |
| Incidents.BuildReport | incident_report_generator.py:92-94 | Grouping then reporting yields one incident per key in first-seen order. Incident p is numbered p+1 and reports exactly the alerts of its key, in input order. |

## Left out

- File and console I/O is not modelled: loading events and alerts, saving alerts and the report, `mkdir`, `json`, `print` and the `__main__` blocks. Events and alerts are parameters and results.
- `Parser/log_parser.py` is not part of this model. It reads files, extracts fields with regular expressions and stamps events with the current time.
- Date text is not modelled.
  - `strptime` is reduced to `Stamp`: either seconds, or unparseable.
  - The `strftime` re-formatting of the brute-force alert timestamp is not modelled, and neither is the verbatim copy of the suspicious-hour event's timestamp text. Both alerts carry the timestamp in seconds.
- The Markdown text of the report is not modelled: its header with `datetime.now()`, the line layout and the fixed recommendation bullets. `GenerateReport` returns the structured incidents instead.
- Missing fields in an event or alert record (a `KeyError` in the source) are not modelled, because records are typed.
- A threshold of 0 is not modelled: `Threshold` is at least 1. With 0, every window is empty and `window[-1]` would raise.
- Sorting.SortInPlace: an insertion sort stands in for the library's sort. Only the result is stated, and that result is unique (`SortedUnique`).
- Detection.ScanGroup: the group's list is copied into a fresh array before sorting. The source sorts the dictionary's own list in place, and that list is never read again.
- DetectionLemmas.BruteForceExample: the worked examples are stated on one group's timestamps, already in ascending order, as the scan receives them after sorting. The event-list form follows from `BruteForceAlertIffWindow`, `BruteForceAlertContents` and `SortOfSorted`.

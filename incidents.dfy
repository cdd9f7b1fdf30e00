/** The incident aggregator: alerts are grouped into incidents by
    (alert type, user, ip); each incident is numbered, takes the severity and
    technique of its highest-ranked alert, and lists its alerts as a timeline.
    The report is produced as a list of incident records; its Markdown
    rendering is not part of this model. */
module Incidents {
  import opened Records
  import opened Grouping

  /** The grouping key: (alert_type, user, ip). */
  type IncidentKey = (string, string, string)

  /** The key an alert is filed under; severity, description, technique and
      timestamp play no part in it. */
  function KeyOf(a: Alert): (k: IncidentKey)
    ensures k.0 == a.alertType && k.1 == a.user && k.2 == a.ip
  {
    (a.alertType, a.user, a.ip)
  }

  /** The (key, alert) pairs appended to the incidents dictionary, in input order. */
  function AlertPairs(alerts: seq<Alert>): seq<(IncidentKey, Alert)>
  {
    seq(|alerts|, i requires 0 <= i < |alerts| => (KeyOf(alerts[i]), alerts[i]))
  }

  lemma AlertPairsPrefix(alerts: seq<Alert>, n: nat)
    requires n < |alerts|
    ensures AlertPairs(alerts[..n + 1]) == AlertPairs(alerts[..n]) + [(KeyOf(alerts[n]), alerts[n])]
  {
  }

  // ---------------------------------------------------------------------
  // group_incidents
  // ---------------------------------------------------------------------

  /** group_incidents: append each alert to the list of its key in an
      insertion-ordered dictionary, returned as its key order and its contents. */
  method GroupIncidents(alerts: seq<Alert>) returns (keys: seq<IncidentKey>, groups: map<IncidentKey, seq<Alert>>)
    ensures keys == FirstSeen(AlertPairs(alerts))
    ensures groups == GroupMap(AlertPairs(alerts))
  {
    keys := [];
    groups := map[];
    ghost var pairs: seq<(IncidentKey, Alert)> := [];
    for n := 0 to |alerts|
      invariant pairs == AlertPairs(alerts[..n])
      invariant keys == FirstSeen(pairs)
      invariant groups == GroupMap(pairs)
    {
      var alert := alerts[n];
      var key := (alert.alertType, alert.user, alert.ip);
      AlertPairsPrefix(alerts, n);
      AppendStep(pairs, keys, groups, key, alert);
      var group := if key in groups then groups[key] else [];
      if key !in groups {
        keys := keys + [key];
      }
      groups := groups[key := group + [alert]];
      pairs := pairs + [(key, alert)];
    }
    assert alerts[..|alerts|] == alerts;
  }

  /** The alerts with the given key, in input order: a reference definition of
      one incident's contents, independent of the dictionary. */
  function AlertsWithKey(alerts: seq<Alert>, k: IncidentKey): seq<Alert>
  {
    if |alerts| == 0 then []
    else (if KeyOf(alerts[0]) == k then [alerts[0]] else []) + AlertsWithKey(alerts[1..], k)
  }

  /** Each incident holds exactly the alerts of its key, in their input order. */
  lemma {:induction false} GroupIsAlertsWithKey(alerts: seq<Alert>, k: IncidentKey)
    ensures GroupOf(AlertPairs(alerts), k) == AlertsWithKey(alerts, k)
  {
    if |alerts| > 0 {
      var head := AlertPairs([alerts[0]]);
      var rest := AlertPairs(alerts[1..]);
      assert AlertPairs(alerts) == head + rest;
      GroupOfAppend(head, rest, k);
      GroupIsAlertsWithKey(alerts[1..], k);
      assert GroupOf(head, k) == if KeyOf(alerts[0]) == k then [alerts[0]] else [] by {
        assert head[..0] == [];
      }
    }
  }

  /** All alerts of an incident share its key. */
  lemma GroupSharesKey(alerts: seq<Alert>, k: IncidentKey)
    ensures forall a :: a in GroupOf(AlertPairs(alerts), k) ==> KeyOf(a) == k
  {
    var pairs := AlertPairs(alerts);
    GroupMembers(pairs, k);
    forall a | a in GroupOf(pairs, k)
      ensures KeyOf(a) == k
    {
      var i :| 0 <= i < |pairs| && pairs[i] == (k, a);
    }
  }

  /** Every alert lands in the incident of its own key, which is one of the
      incidents, and in no other; the incident sizes add up to the number of
      alerts. */
  lemma IncidentsPartition(alerts: seq<Alert>)
    ensures var pairs := AlertPairs(alerts);
      forall i :: 0 <= i < |alerts| ==>
        KeyOf(alerts[i]) in FirstSeen(pairs) && alerts[i] in GroupOf(pairs, KeyOf(alerts[i]))
    ensures var pairs := AlertPairs(alerts);
      forall i, k :: 0 <= i < |alerts| && alerts[i] in GroupOf(pairs, k) ==> k == KeyOf(alerts[i])
    ensures var pairs := AlertPairs(alerts);
      TotalSize(pairs, FirstSeen(pairs)) == |alerts|
  {
    var pairs := AlertPairs(alerts);
    forall i | 0 <= i < |alerts|
      ensures KeyOf(alerts[i]) in FirstSeen(pairs) && alerts[i] in GroupOf(pairs, KeyOf(alerts[i]))
    {
      GroupContainsOwn(pairs, i);
      FirstSeenMembers(pairs, KeyOf(alerts[i]));
    }
    forall i, k | 0 <= i < |alerts| && alerts[i] in GroupOf(pairs, k)
      ensures k == KeyOf(alerts[i])
    {
      GroupSharesKey(alerts, k);
    }
    GroupSizesSum(pairs);
  }

  /** Alerts that differ in ip (or in type, or in user) never share an incident. */
  lemma DifferentKeysSeparateIncidents(alerts: seq<Alert>, i: nat, j: nat, k: IncidentKey)
    requires i < |alerts| && j < |alerts|
    requires KeyOf(alerts[i]) != KeyOf(alerts[j])
    ensures !(alerts[i] in GroupOf(AlertPairs(alerts), k) && alerts[j] in GroupOf(AlertPairs(alerts), k))
  {
    GroupSharesKey(alerts, k);
  }

  /** Incidents are ordered by the first appearance of their key: the incident
      at position p has an alert before any alert of the incident at q > p. */
  lemma IncidentOrder(alerts: seq<Alert>, p: nat, q: nat)
    requires p < q < |FirstSeen(AlertPairs(alerts))|
    ensures var keys := FirstSeen(AlertPairs(alerts));
      exists i :: 0 <= i < |alerts| && KeyOf(alerts[i]) == keys[p] &&
        forall j :: 0 <= j <= i ==> KeyOf(alerts[j]) != keys[q]
  {
    var pairs := AlertPairs(alerts);
    FirstSeenOrder(pairs, p, q);
    var i :| 0 <= i < |pairs| && pairs[i].0 == FirstSeen(pairs)[p] &&
      forall j :: 0 <= j <= i ==> pairs[j].0 != FirstSeen(pairs)[q];
    assert forall j :: 0 <= j < |alerts| ==> pairs[j].0 == KeyOf(alerts[j]);
  }

  // ---------------------------------------------------------------------
  // severity_rank and the representative alert
  // ---------------------------------------------------------------------

  /** severity_rank: LOW 1, MEDIUM 2, HIGH 3, any other text 0. */
  function SeverityRank(level: string): (rank: nat)
    ensures rank <= 3
    ensures rank == 0 <==> level != LOW && level != MEDIUM && level != HIGH
  {
    if level == LOW then 1
    else if level == MEDIUM then 2
    else if level == HIGH then 3
    else 0
  }

  /** The known levels are ranked HIGH over MEDIUM over LOW over anything else,
      and distinct known levels have distinct ranks. */
  lemma SeverityOrder(level: string)
    ensures SeverityRank(HIGH) > SeverityRank(MEDIUM) > SeverityRank(LOW) > SeverityRank(level) || SeverityRank(level) > 0
    ensures SeverityRank(level) == 3 ==> level == HIGH
    ensures SeverityRank(level) == 2 ==> level == MEDIUM
    ensures SeverityRank(level) == 1 ==> level == LOW
  {
  }

  /** max(alerts, key=severity_rank): the position of the first alert of the
      highest rank. */
  function HighestIndex(alerts: seq<Alert>): (r: nat)
    requires |alerts| > 0
    ensures r < |alerts|
    ensures forall j :: 0 <= j < |alerts| ==> SeverityRank(alerts[j].severity) <= SeverityRank(alerts[r].severity)
    ensures forall j :: 0 <= j < r ==> SeverityRank(alerts[j].severity) < SeverityRank(alerts[r].severity)
  {
    if |alerts| == 1 then 0
    else
      var best := HighestIndex(alerts[..|alerts| - 1]);
      var last := |alerts| - 1;
      assert alerts[..last][best] == alerts[best];
      assert forall j :: 0 <= j < last ==> alerts[..last][j] == alerts[j];
      if SeverityRank(alerts[last].severity) > SeverityRank(alerts[best].severity) then last else best
  }

  /** The maximum with its tie-break is unique: any position holding a
      highest rank with only lower ranks before it is HighestIndex. */
  lemma HighestIndexUnique(alerts: seq<Alert>, r: nat)
    requires r < |alerts|
    requires forall j :: 0 <= j < |alerts| ==> SeverityRank(alerts[j].severity) <= SeverityRank(alerts[r].severity)
    requires forall j :: 0 <= j < r ==> SeverityRank(alerts[j].severity) < SeverityRank(alerts[r].severity)
    ensures HighestIndex(alerts) == r
  {
    var h := HighestIndex(alerts);
    assert SeverityRank(alerts[h].severity) == SeverityRank(alerts[r].severity);
  }

  // ---------------------------------------------------------------------
  // generate_report
  // ---------------------------------------------------------------------

  datatype TimelineEntry = TimelineEntry(timestamp: int, description: string)

  /** One numbered incident as the report lists it. */
  datatype Incident = Incident(
    id: nat,
    alertType: string,
    user: string,
    ip: string,
    severity: string,
    technique: string,
    timeline: seq<TimelineEntry>)

  /** Every incident has at least one alert, as group_incidents guarantees. */
  predicate NonEmptyGroups(keys: seq<IncidentKey>, groups: map<IncidentKey, seq<Alert>>)
  {
    forall k :: k in keys ==> k in groups && |groups[k]| > 0
  }

  /** The timeline of one incident: each alert's timestamp and description, in order. */
  method Timeline(alerts: seq<Alert>) returns (timeline: seq<TimelineEntry>)
    ensures |timeline| == |alerts|
    ensures forall u :: 0 <= u < |alerts| ==>
      timeline[u].timestamp == alerts[u].timestamp && timeline[u].description == alerts[u].description
  {
    timeline := [];
    for t := 0 to |alerts|
      invariant |timeline| == t
      invariant forall u :: 0 <= u < t ==>
        timeline[u].timestamp == alerts[u].timestamp && timeline[u].description == alerts[u].description
    {
      timeline := timeline + [TimelineEntry(alerts[t].timestamp, alerts[t].description)];
    }
  }

  /** The incident reported for one group: its number, its key, the severity
      and technique of its representative alert, and its timeline. */
  predicate Reports(incident: Incident, id: nat, key: IncidentKey, group: seq<Alert>): (b: bool)
    ensures b ==> |incident.timeline| > 0
    ensures b ==> forall a :: a in group ==> SeverityRank(a.severity) <= SeverityRank(incident.severity)
  {
    |group| > 0 &&
    incident.id == id &&
    (incident.alertType, incident.user, incident.ip) == key &&
    incident.severity == group[HighestIndex(group)].severity &&
    incident.technique == group[HighestIndex(group)].technique &&
    |incident.timeline| == |group| &&
    forall u :: 0 <= u < |group| ==>
      incident.timeline[u] == TimelineEntry(group[u].timestamp, group[u].description)
  }

  /** The structured content of generate_report: incidents numbered 1, 2, ...
      in key order, each with its key, the severity and technique of its
      representative alert, and its timeline. */
  method GenerateReport(keys: seq<IncidentKey>, groups: map<IncidentKey, seq<Alert>>) returns (incidents: seq<Incident>)
    requires NonEmptyGroups(keys, groups)
    ensures |incidents| == |keys|
    ensures forall p :: 0 <= p < |keys| ==> incidents[p].id == p + 1
    ensures forall p :: 0 <= p < |keys| ==>
      (incidents[p].alertType, incidents[p].user, incidents[p].ip) == keys[p]
    ensures forall p :: 0 <= p < |keys| ==>
      var group := groups[keys[p]];
      incidents[p].severity == group[HighestIndex(group)].severity &&
      incidents[p].technique == group[HighestIndex(group)].technique
    ensures forall p :: 0 <= p < |keys| ==>
      var group := groups[keys[p]];
      |incidents[p].timeline| == |group| &&
      forall u :: 0 <= u < |group| ==>
        incidents[p].timeline[u] == TimelineEntry(group[u].timestamp, group[u].description)
  {
    var incidentId := 1;
    incidents := [];
    for j := 0 to |keys|
      invariant |incidents| == j && incidentId == j + 1
      invariant forall p :: 0 <= p < j ==> Reports(incidents[p], p + 1, keys[p], groups[keys[p]])
    {
      var (alertType, user, ip) := keys[j];
      var alerts := groups[keys[j]];
      var highest := alerts[HighestIndex(alerts)];
      var timeline := Timeline(alerts);
      incidents := incidents + [Incident(incidentId, alertType, user, ip, highest.severity, highest.technique, timeline)];
      incidentId := incidentId + 1;
    }
  }

  /** The representative of a reported incident has the highest severity rank
      in its group, and every alert before it ranks strictly lower. */
  lemma RepresentativeIsHighest(incident: Incident, id: nat, key: IncidentKey, group: seq<Alert>)
    requires Reports(incident, id, key, group)
    ensures forall a :: a in group ==> SeverityRank(a.severity) <= SeverityRank(incident.severity)
    ensures exists r :: 0 <= r < |group| && group[r].severity == incident.severity &&
                        forall u :: 0 <= u < r ==> SeverityRank(group[u].severity) < SeverityRank(incident.severity)
  {
    var r := HighestIndex(group);
    assert group[r].severity == incident.severity;
  }

  /** The aggregator end to end: group the alerts, then report one incident
      per key in first-seen order, holding exactly the alerts of that key in
      input order. */
  method BuildReport(alerts: seq<Alert>) returns (incidents: seq<Incident>)
    ensures |incidents| == |FirstSeen(AlertPairs(alerts))|
    ensures forall p :: 0 <= p < |incidents| ==>
      var key := FirstSeen(AlertPairs(alerts))[p];
      Reports(incidents[p], p + 1, key, AlertsWithKey(alerts, key))
  {
    var keys, groups := GroupIncidents(alerts);
    ghost var pairs := AlertPairs(alerts);
    forall k | k in keys
      ensures k in groups && |groups[k]| > 0 && groups[k] == AlertsWithKey(alerts, k)
    {
      GroupNonEmptyIffSeen(pairs, k);
      GroupIsAlertsWithKey(alerts, k);
    }
    incidents := GenerateReport(keys, groups);
  }
}

/** What the two detection rules promise, stated over the whole event list:
    which (ip, user) pairs get a brute-force alert and with what content, in
    what order, and which events make a suspicious-hour alert. */
module DetectionLemmas {
  import opened Records
  import opened Grouping
  import opened Sorting
  import opened Detection

  // ---------------------------------------------------------------------
  // One group
  // ---------------------------------------------------------------------

  /** A group's alert carries the rule's constants and the last timestamp of a
      qualifying window, and is filed under the group's own key. */
  lemma GroupAlertContents(key: LoginKey, sorted: seq<int>, cfg: Config)
    requires GroupAlert(key, sorted, cfg).Some?
    ensures var a := GroupAlert(key, sorted, cfg).value;
      a.alertType == BRUTE_FORCE && a.severity == HIGH && a.technique == "T1110" &&
      a.description == "Brute force attack detected" && AlertKey(a) == key &&
      exists i :: WindowQualifies(sorted, i, cfg) && a.timestamp == sorted[i + cfg.failedThreshold - 1]
  {
    var i := FirstQualifying(sorted, cfg).value;
    assert WindowQualifies(sorted, i, cfg);
  }

  /** A group alerts exactly when some window of its sorted timestamps qualifies. */
  lemma GroupAlertIffWindow(key: LoginKey, sorted: seq<int>, cfg: Config)
    ensures GroupAlert(key, sorted, cfg).Some? <==> exists i :: WindowQualifies(sorted, i, cfg)
  {
    if GroupAlert(key, sorted, cfg).None? {
      assert FirstQualifying(sorted, cfg).None?;
    }
  }

  /** On sorted timestamps a qualifying window holds failedThreshold attempts,
      all within the configured span before its last one. */
  lemma QualifyingWindowMeaning(sorted: seq<int>, i: int, cfg: Config)
    requires Sorted(sorted)
    requires WindowQualifies(sorted, i, cfg)
    ensures var last := sorted[i + cfg.failedThreshold - 1];
      forall k :: i <= k < i + cfg.failedThreshold ==>
        last - WindowSeconds(cfg) <= sorted[k] <= last
  {
  }

  /** On sorted timestamps, a group's alert is stamped with the end of the
      first qualifying window, one of the group's timestamps, and every attempt
      of that window lies within the configured span before it. */
  lemma GroupAlertStamp(key: LoginKey, sorted: seq<int>, cfg: Config)
    requires Sorted(sorted)
    requires GroupAlert(key, sorted, cfg).Some?
    ensures FirstQualifying(sorted, cfg).Some?
    ensures var t := GroupAlert(key, sorted, cfg).value.timestamp;
      var i := FirstQualifying(sorted, cfg).value;
      t == sorted[i + cfg.failedThreshold - 1] && t in multiset(sorted) &&
      forall k :: i <= k < i + cfg.failedThreshold ==> t - WindowSeconds(cfg) <= sorted[k] <= t
  {
    var i := FirstQualifying(sorted, cfg).value;
    QualifyingWindowMeaning(sorted, i, cfg);
    assert sorted[i + cfg.failedThreshold - 1] in sorted;
  }

  /** Only the timestamps of a group matter, not the order they arrived in. */
  lemma GroupAlertOrderInsensitive(key: LoginKey, t1: seq<int>, t2: seq<int>, cfg: Config)
    requires multiset(t1) == multiset(t2)
    ensures GroupAlert(key, Sort(t1), cfg) == GroupAlert(key, Sort(t2), cfg)
  {
    SortedUnique(Sort(t1), Sort(t2));
  }

  // ---------------------------------------------------------------------
  // All groups
  // ---------------------------------------------------------------------

  /** Each alert of a key list is the alert of one of its keys' groups. */
  lemma {:induction false} BruteForceAlertSource(keys: seq<LoginKey>, pairs: seq<(LoginKey, int)>, cfg: Config, a: Alert)
    requires a in BruteForceAlerts(keys, pairs, cfg)
    ensures AlertKey(a) in keys
    ensures GroupAlert(AlertKey(a), Sort(GroupOf(pairs, AlertKey(a))), cfg) == Some(a)
  {
    var front := keys[..|keys| - 1];
    var key := keys[|keys| - 1];
    var g := GroupAlert(key, Sort(GroupOf(pairs, key)), cfg);
    if a in BruteForceAlerts(front, pairs, cfg) {
      BruteForceAlertSource(front, pairs, cfg, a);
      assert AlertKey(a) in front;
    } else {
      assert g == Some(a);
      GroupAlertContents(key, Sort(GroupOf(pairs, key)), cfg);
    }
  }

  /** Each key of a key list whose group alerts contributes that alert. */
  lemma {:induction false} BruteForceAlertPresent(keys: seq<LoginKey>, pairs: seq<(LoginKey, int)>, cfg: Config, k: LoginKey)
    requires k in keys
    requires GroupAlert(k, Sort(GroupOf(pairs, k)), cfg).Some?
    ensures GroupAlert(k, Sort(GroupOf(pairs, k)), cfg).value in BruteForceAlerts(keys, pairs, cfg)
  {
    var front := keys[..|keys| - 1];
    var key := keys[|keys| - 1];
    assert BruteForceAlerts(keys, pairs, cfg) == BruteForceAlerts(front, pairs, cfg) + KeyAlerts(key, pairs, cfg);
    if k == key {
      assert GroupAlert(k, Sort(GroupOf(pairs, k)), cfg).value in KeyAlerts(key, pairs, cfg);
    } else {
      InFront(keys, k);
      BruteForceAlertPresent(front, pairs, cfg, k);
    }
  }

  /** Every alert of a key list is filed under one of its keys. */
  lemma {:induction false} BruteForceAlertKeysIn(keys: seq<LoginKey>, pairs: seq<(LoginKey, int)>, cfg: Config)
    ensures forall a :: a in BruteForceAlerts(keys, pairs, cfg) ==> AlertKey(a) in keys
  {
    if |keys| > 0 {
      var front := keys[..|keys| - 1];
      var key := keys[|keys| - 1];
      BruteForceAlertKeysIn(front, pairs, cfg);
      assert forall k :: k in front ==> k in keys;
      if GroupAlert(key, Sort(GroupOf(pairs, key)), cfg).Some? {
        GroupAlertContents(key, Sort(GroupOf(pairs, key)), cfg);
      }
    }
  }

  /** The position of a key in a list without repetitions is where it sits. */
  lemma IndexOfDistinct<K>(keys: seq<K>, i: nat)
    requires Distinct(keys) && i < |keys|
    ensures IndexOf(keys, keys[i]) == i
  {
  }

  /** A key of a prefix sits at the same position in the whole list. */
  lemma IndexOfPrefix<K>(keys: seq<K>, n: nat, k: K)
    requires n <= |keys| && k in keys[..n]
    ensures k in keys && IndexOf(keys, k) == IndexOf(keys[..n], k)
  {
    var i := IndexOf(keys[..n], k);
    assert keys[i] == k;
    assert forall j :: 0 <= j < i ==> keys[..n][j] == keys[j];
  }

  /** The alerts' keys occur in the key list, in increasing positions. */
  predicate FollowsKeys(alerts: seq<Alert>, keys: seq<LoginKey>)
  {
    forall p, q :: 0 <= p < q < |alerts| ==>
      AlertKey(alerts[p]) in keys && AlertKey(alerts[q]) in keys &&
      IndexOf(keys, AlertKey(alerts[p])) < IndexOf(keys, AlertKey(alerts[q]))
  }

  lemma FollowsKeysSnoc(earlier: seq<Alert>, keys: seq<LoginKey>, tail: seq<Alert>)
    requires Distinct(keys) && |keys| > 0
    requires FollowsKeys(earlier, keys[..|keys| - 1])
    requires forall a :: a in earlier ==> AlertKey(a) in keys[..|keys| - 1]
    requires forall a :: a in tail ==> AlertKey(a) == keys[|keys| - 1]
    requires |tail| <= 1
    ensures FollowsKeys(earlier + tail, keys)
  {
    var n := |keys| - 1;
    var alerts := earlier + tail;
    forall p, q | 0 <= p < q < |alerts|
      ensures AlertKey(alerts[p]) in keys && AlertKey(alerts[q]) in keys &&
              IndexOf(keys, AlertKey(alerts[p])) < IndexOf(keys, AlertKey(alerts[q]))
    {
      assert alerts[p] == earlier[p] && earlier[p] in earlier;
      IndexOfPrefix(keys, n, AlertKey(alerts[p]));
      if q < |earlier| {
        assert alerts[q] == earlier[q] && earlier[q] in earlier;
        IndexOfPrefix(keys, n, AlertKey(alerts[q]));
      } else {
        assert alerts[q] == tail[q - |earlier|] && alerts[q] in tail;
        IndexOfDistinct(keys, n);
      }
    }
  }

  /** The alerts follow the key list: an earlier alert's key comes earlier. */
  lemma {:induction false} BruteForceAlertsFollowKeys(keys: seq<LoginKey>, pairs: seq<(LoginKey, int)>, cfg: Config)
    requires Distinct(keys)
    ensures FollowsKeys(BruteForceAlerts(keys, pairs, cfg), keys)
  {
    if |keys| > 0 {
      var front := keys[..|keys| - 1];
      var key := keys[|keys| - 1];
      var g := GroupAlert(key, Sort(GroupOf(pairs, key)), cfg);
      var tail := KeyAlerts(key, pairs, cfg);
      assert BruteForceAlerts(keys, pairs, cfg) == BruteForceAlerts(front, pairs, cfg) + tail;
      BruteForceAlertsFollowKeys(front, pairs, cfg);
      BruteForceAlertKeysIn(front, pairs, cfg);
      if g.Some? {
        GroupAlertContents(key, Sort(GroupOf(pairs, key)), cfg);
      }
      FollowsKeysSnoc(BruteForceAlerts(front, pairs, cfg), keys, tail);
    }
  }

  // ---------------------------------------------------------------------
  // The brute-force rule on events
  // ---------------------------------------------------------------------

  /** An (ip, user) pair is alerted on exactly when the sorted timestamps of
      its failed logins hold a qualifying window. */
  lemma BruteForceAlertIffWindow(events: seq<Event>, cfg: Config, key: LoginKey)
    ensures (exists a :: a in BruteForceAlertsOf(events, cfg) && AlertKey(a) == key) <==>
            exists i :: WindowQualifies(Sort(FailedTimes(events, key)), i, cfg)
  {
    var pairs := FailedPairs(events);
    var keys := FirstSeen(pairs);
    var alerts := BruteForceAlertsOf(events, cfg);
    var sorted := Sort(FailedTimes(events, key));
    var g := GroupAlert(key, sorted, cfg);
    GroupAlertIffWindow(key, sorted, cfg);
    if exists a :: a in alerts && AlertKey(a) == key {
      var a :| a in alerts && AlertKey(a) == key;
      BruteForceAlertSource(keys, pairs, cfg, a);
    }
    if g.Some? {
      GroupAlertContents(key, sorted, cfg);
      assert |GroupOf(pairs, key)| > 0 by {
        var i :| WindowQualifies(sorted, i, cfg);
      }
      GroupNonEmptyIffSeen(pairs, key);
      BruteForceAlertPresent(keys, pairs, cfg, key);
      assert g.value in alerts && AlertKey(g.value) == key;
    }
  }

  /** Fewer failed logins than the threshold never make an alert. */
  lemma FewFailuresNoAlert(events: seq<Event>, cfg: Config, key: LoginKey)
    requires |FailedTimes(events, key)| < cfg.failedThreshold
    ensures forall a :: a in BruteForceAlertsOf(events, cfg) ==> AlertKey(a) != key
  {
    BruteForceAlertIffWindow(events, cfg, key);
  }

  /** Each brute-force alert carries the rule's constants and is the alert of
      its own pair's sorted failed-login timestamps (so, by GroupAlertStamp,
      it is stamped with the end of their earliest qualifying window); its
      timestamp is one of that pair's failed logins. */
  lemma BruteForceAlertContents(events: seq<Event>, cfg: Config, a: Alert)
    requires a in BruteForceAlertsOf(events, cfg)
    ensures a.alertType == BRUTE_FORCE && a.severity == HIGH && a.technique == "T1110"
    ensures a.description == "Brute force attack detected"
    ensures GroupAlert(AlertKey(a), Sort(FailedTimes(events, AlertKey(a))), cfg) == Some(a)
    ensures a.timestamp in FailedTimes(events, AlertKey(a))
  {
    var pairs := FailedPairs(events);
    var key := AlertKey(a);
    var times := FailedTimes(events, key);
    assert GroupAlert(key, Sort(times), cfg) == Some(a) by {
      BruteForceAlertSource(FirstSeen(pairs), pairs, cfg, a);
    }
    GroupAlertContents(key, Sort(times), cfg);
    assert a.timestamp in multiset(times) by {
      GroupAlertStamp(key, Sort(times), cfg);
    }
  }

  /** At most one brute-force alert per (ip, user) pair, in the order in which
      the pairs first had a parsed failed login. */
  lemma BruteForceAlertsOrdered(events: seq<Event>, cfg: Config)
    ensures FollowsKeys(BruteForceAlertsOf(events, cfg), FirstSeen(FailedPairs(events)))
    ensures var alerts := BruteForceAlertsOf(events, cfg);
      forall p, q :: 0 <= p < q < |alerts| ==> AlertKey(alerts[p]) != AlertKey(alerts[q])
  {
    var pairs := FailedPairs(events);
    BruteForceAlertsFollowKeys(FirstSeen(pairs), pairs, cfg);
  }

  /** The event is a FAILED_LOGIN of the pair's (ip, user) at the pair's time. */
  predicate CollectedFrom(e: Event, p: (LoginKey, int))
  {
    e.eventType == FailedLogin && e.stamp == Seconds(p.1) && (e.ip, e.user) == p.0
  }

  /** Every collected (key, timestamp) pair comes from a FAILED_LOGIN event
      with that ip, user and parsed timestamp, and every such event is collected. */
  lemma {:induction false} FailedPairsSource(events: seq<Event>)
    ensures forall k :: 0 <= k < |FailedPairs(events)| ==>
      exists i :: 0 <= i < |events| && CollectedFrom(events[i], FailedPairs(events)[k])
    ensures forall i :: 0 <= i < |events| && events[i].eventType == FailedLogin && events[i].stamp.Seconds? ==>
      ((events[i].ip, events[i].user), events[i].stamp.seconds) in FailedPairs(events)
  {
    if |events| > 0 {
      var front := events[..|events| - 1];
      FailedPairsSource(front);
      var pairs := FailedPairs(events);
      assert pairs[..|FailedPairs(front)|] == FailedPairs(front);
      forall k | 0 <= k < |pairs|
        ensures exists i :: 0 <= i < |events| && CollectedFrom(events[i], pairs[k])
      {
        if k < |FailedPairs(front)| {
          assert pairs[k] == FailedPairs(front)[k];
          var i :| 0 <= i < |front| && CollectedFrom(front[i], pairs[k]);
          assert events[i] == front[i];
        } else {
          assert CollectedFrom(events[|events| - 1], pairs[k]);
        }
      }
      forall i | 0 <= i < |events| && events[i].eventType == FailedLogin && events[i].stamp.Seconds?
        ensures ((events[i].ip, events[i].user), events[i].stamp.seconds) in pairs
      {
        if i < |front| {
          assert events[i] == front[i];
        }
      }
    } else {
      assert FailedPairs(events) == [];
    }
  }

  /** Failed-login collection distributes over concatenation. */
  lemma {:induction false} FailedPairsAppend(a: seq<Event>, b: seq<Event>)
    ensures FailedPairs(a + b) == FailedPairs(a) + FailedPairs(b)
  {
    if |b| == 0 {
      assert a + b == a;
    } else {
      var front := b[..|b| - 1];
      FailedPairsAppend(a, front);
      assert (a + b)[..|a + b| - 1] == a + front;
    }
  }

  /** Inserting an event of another kind anywhere in the list changes neither
      whether the timestamps of a kind all parse nor which event is the first
      failure, except that a failure after the insertion point moves one on. */
  lemma FirstUnparseableSkips(a: seq<Event>, e: Event, b: seq<Event>, kind: EventType)
    requires e.eventType != kind
    ensures StampsParsed(a + [e] + b, kind) <==> StampsParsed(a + b, kind)
    ensures var r := FirstUnparseable(a + b, kind);
      FirstUnparseable(a + [e] + b, kind) ==
        if r.None? then None else if r.value < |a| then r else Some(r.value + 1)
  {
    var s := a + b;
    var t := a + [e] + b;
    assert forall i :: 0 <= i < |a| ==> t[i] == s[i];
    assert forall i :: |a| <= i < |s| ==> t[i + 1] == s[i];
    assert StampsParsed(s, kind) ==> StampsParsed(t, kind) by {
      forall i | 0 <= i < |t| && t[i].eventType == kind && StampsParsed(s, kind)
        ensures t[i].stamp.Seconds?
      {
        if i > |a| {
          assert t[i] == s[i - 1];
        }
      }
    }
    assert StampsParsed(t, kind) ==> StampsParsed(s, kind) by {
      forall i | 0 <= i < |s| && s[i].eventType == kind && StampsParsed(t, kind)
        ensures s[i].stamp.Seconds?
      {
        if i >= |a| {
          assert t[i + 1] == s[i];
        }
      }
    }
    var r := FirstUnparseable(s, kind);
    if r.Some? {
      var n := if r.value < |a| then r.value else r.value + 1;
      assert t[n] == s[r.value];
      forall j | 0 <= j < n && t[..n][j].eventType == kind
        ensures t[..n][j].stamp.Seconds?
      {
        if j > |a| {
          assert t[..n][j] == s[j - 1];
        }
      }
      FirstUnparseableAt(t, n, kind);
    }
  }

  /** An event that is not a failed login adds no pair, wherever it occurs. */
  lemma FailedPairsSkips(a: seq<Event>, e: Event, b: seq<Event>)
    requires e.eventType != FailedLogin
    ensures FailedPairs(a + [e] + b) == FailedPairs(a + b)
  {
    FailedPairsAppend(a + [e], b);
    FailedPairsAppend(a, [e]);
    FailedPairsAppend(a, b);
    assert FailedPairs([e]) == [] by {
      assert [e][..0] == [];
    }
  }

  /** Events other than failed logins, wherever they occur, do not affect the
      brute-force rule: the output is the same, and so is the failure. */
  lemma BruteForceIgnoresOtherEvents(a: seq<Event>, e: Event, b: seq<Event>, cfg: Config)
    requires e.eventType != FailedLogin
    ensures BruteForceAlertsOf(a + [e] + b, cfg) == BruteForceAlertsOf(a + b, cfg)
    ensures StampsParsed(a + [e] + b, FailedLogin) <==> StampsParsed(a + b, FailedLogin)
    ensures var r := FirstUnparseable(a + b, FailedLogin);
      FirstUnparseable(a + [e] + b, FailedLogin) ==
        if r.None? then None else if r.value < |a| then r else Some(r.value + 1)
  {
    FailedPairsSkips(a, e, b);
    FirstUnparseableSkips(a, e, b, FailedLogin);
  }

  // ---------------------------------------------------------------------
  // The suspicious-hour rule on events
  // ---------------------------------------------------------------------

  /** The rule looks at each event on its own: its output on a concatenation
      is the concatenation of its outputs. */
  lemma {:induction false} SuspiciousAlertsAppend(a: seq<Event>, b: seq<Event>, cfg: Config)
    ensures SuspiciousAlerts(a + b, cfg) == SuspiciousAlerts(a, cfg) + SuspiciousAlerts(b, cfg)
  {
    if |b| == 0 {
      assert a + b == a;
    } else {
      var front := b[..|b| - 1];
      SuspiciousAlertsAppend(a, front, cfg);
      assert (a + b)[..|a + b| - 1] == a + front;
    }
  }

  /** Every alert comes from a SUCCESS_LOGIN event in the suspicious hours,
      copying its user, ip and timestamp, and every such event makes one. */
  lemma {:induction false} SuspiciousAlertsContents(events: seq<Event>, cfg: Config)
    ensures forall a :: a in SuspiciousAlerts(events, cfg) ==>
      exists i :: 0 <= i < |events| && IsSuspiciousLogin(events[i], cfg) && a == SuspiciousAlert(events[i])
    ensures forall i :: 0 <= i < |events| && IsSuspiciousLogin(events[i], cfg) ==>
      SuspiciousAlert(events[i]) in SuspiciousAlerts(events, cfg)
    ensures |SuspiciousAlerts(events, cfg)| <= |events|
  {
    if |events| > 0 {
      var front := events[..|events| - 1];
      SuspiciousAlertsContents(front, cfg);
      assert events == front + [events[|events| - 1]];
      forall a | a in SuspiciousAlerts(front, cfg)
        ensures exists i :: 0 <= i < |events| && IsSuspiciousLogin(events[i], cfg) && a == SuspiciousAlert(events[i])
      {
        var i :| 0 <= i < |front| && IsSuspiciousLogin(front[i], cfg) && a == SuspiciousAlert(front[i]);
        assert events[i] == front[i];
      }
      forall i | 0 <= i < |front| && IsSuspiciousLogin(events[i], cfg)
        ensures SuspiciousAlert(events[i]) in SuspiciousAlerts(events, cfg)
      {
        assert events[i] == front[i];
      }
    }
  }

  /** Each suspicious-hour alert carries the rule's constants and an hour in the range. */
  lemma SuspiciousAlertsShape(events: seq<Event>, cfg: Config)
    ensures forall a :: a in SuspiciousAlerts(events, cfg) ==>
      a.alertType == SUSPICIOUS_LOGIN_TIME && a.severity == MEDIUM && a.technique == "T1078" &&
      a.description == "Login occurred during suspicious hours" &&
      InSuspiciousHours(cfg, HourOfDay(a.timestamp))
  {
    SuspiciousAlertsContents(events, cfg);
  }

  /** Events other than successful logins, wherever they occur, do not affect
      the suspicious-hour rule: the output is the same, and so is the failure. */
  lemma SuspiciousIgnoresOtherEvents(a: seq<Event>, e: Event, b: seq<Event>, cfg: Config)
    requires e.eventType != SuccessLogin
    ensures SuspiciousAlerts(a + [e] + b, cfg) == SuspiciousAlerts(a + b, cfg)
    ensures StampsParsed(a + [e] + b, SuccessLogin) <==> StampsParsed(a + b, SuccessLogin)
    ensures var r := FirstUnparseable(a + b, SuccessLogin);
      FirstUnparseable(a + [e] + b, SuccessLogin) ==
        if r.None? then None else if r.value < |a| then r else Some(r.value + 1)
  {
    assert SuspiciousAlerts(a + [e] + b, cfg) == SuspiciousAlerts(a + b, cfg) by {
      SuspiciousAlertsAppend(a + [e], b, cfg);
      SuspiciousAlertsAppend(a, [e], cfg);
      SuspiciousAlertsAppend(a, b, cfg);
      assert SuspiciousAlerts([e], cfg) == [] by {
        assert [e][..0] == [];
      }
    }
    FirstUnparseableSkips(a, e, b, SuccessLogin);
  }

  /** With the default range(0, 5), a login is suspicious exactly when it falls
      in the first five hours of its day, 00:00:00 to 04:59:59. */
  lemma DefaultSuspiciousHours(t: int)
    ensures InSuspiciousHours(Defaults, HourOfDay(t)) <==> t % 86400 < 5 * 3600
  {
  }

  // ---------------------------------------------------------------------
  // Worked examples
  // ---------------------------------------------------------------------

  /** Sorting leaves an already sorted sequence as it is. */
  lemma SortOfSorted(s: seq<int>)
    requires Sorted(s)
    ensures Sort(s) == s
  {
    SortedUnique(Sort(s), s);
  }

  /** The span comparison is inclusive: a sorted group of exactly
      failedThreshold failures spanning exactly the configured time makes an
      alert at the last one. */
  lemma BoundaryWindowAlerts(key: LoginKey, sorted: seq<int>, cfg: Config)
    requires |sorted| == cfg.failedThreshold
    requires sorted[|sorted| - 1] - sorted[0] == WindowSeconds(cfg)
    ensures GroupAlert(key, sorted, cfg) == Some(BruteForceAlert(key, sorted[|sorted| - 1]))
  {
    FirstWindowAt(key, sorted, 0, cfg);
  }

  /** Five failures of bob from 10.0.0.1 at 10:00:00, 10:01:00, 10:02:00,
      10:03:00 and 10:04:30 (in seconds after midnight, already in order)
      make one HIGH alert stamped 10:04:30. */
  lemma BruteForceExample(sorted: seq<int>)
    requires |sorted| == 5
    requires sorted[0] == 36000 && sorted[1] == 36060 && sorted[2] == 36120 && sorted[3] == 36180 && sorted[4] == 36270
    ensures GroupAlert(("10.0.0.1", "bob"), sorted, Defaults) ==
      Some(Alert(BRUTE_FORCE, HIGH, "Brute force attack detected", "bob", "10.0.0.1", "T1110", 36270))
  {
    FirstWindowAt(("10.0.0.1", "bob"), sorted, 0, Defaults);
  }

  /** Six ordered failures where the first five span more than five minutes
      but the last five do not make one alert, at the sixth failure. */
  lemma LaterWindowExample(sorted: seq<int>)
    requires |sorted| == 6
    requires sorted[0] == 0 && sorted[1] == 400 && sorted[2] == 460 && sorted[3] == 520 && sorted[4] == 580 && sorted[5] == 640
    ensures GroupAlert(("10.0.0.1", "bob"), sorted, Defaults) ==
      Some(Alert(BRUTE_FORCE, HIGH, "Brute force attack detected", "bob", "10.0.0.1", "T1110", 640))
  {
    assert !WindowQualifies(sorted, 0, Defaults);
    FirstWindowAt(("10.0.0.1", "bob"), sorted, 1, Defaults);
  }

  /** A successful login by alice from 10.0.0.2 at 03:15:00 makes one MEDIUM
      T1078 alert. */
  lemma SuspiciousExample()
    ensures SuspiciousAlerts([Event(SuccessLogin, "10.0.0.2", "alice", Seconds(11700))], Defaults) ==
      [Alert(SUSPICIOUS_LOGIN_TIME, MEDIUM, "Login occurred during suspicious hours", "alice", "10.0.0.2", "T1078", 11700)]
  {
    var events := [Event(SuccessLogin, "10.0.0.2", "alice", Seconds(11700))];
    assert events[..0] == [];
  }
}

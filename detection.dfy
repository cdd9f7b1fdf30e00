/** The detection engine: two independent rules over the full list of login
    events, a brute-force rule over FAILED_LOGIN events and a suspicious-hour
    rule over SUCCESS_LOGIN events, and the driver that concatenates their
    alerts. */
module Detection {
  import opened Records
  import opened Grouping
  import opened Sorting

  type Threshold = n: nat | 1 <= n witness 1

  /** The rule configuration: how many failed attempts make a window, how many
      minutes a window may span, and the half-open range of suspicious hours. */
  datatype Config = Config(
    failedThreshold: Threshold,
    windowMinutes: int,
    suspiciousStart: int,
    suspiciousStop: int)

  /** FAILED_THRESHOLD = 5, TIME_WINDOW_MINUTES = 5, SUSPICIOUS_HOURS = range(0, 5). */
  const Defaults := Config(5, 5, 0, 5)

  function WindowSeconds(cfg: Config): int
  {
    cfg.windowMinutes * 60
  }

  /** The hour-of-day field of a timestamp, with no time-zone adjustment. */
  function HourOfDay(t: int): (h: int)
    ensures 0 <= h < 24
  {
    (t % 86400) / 3600
  }

  /** Membership of an hour in the configured `range(start, stop)`. */
  predicate InSuspiciousHours(cfg: Config, hour: int): (b: bool)
    ensures b ==> cfg.suspiciousStart < cfg.suspiciousStop
  {
    cfg.suspiciousStart <= hour < cfg.suspiciousStop
  }

  /** A rule raised on the timestamp of the event at this index. */
  datatype DetectionError = MalformedTimestamp(eventIndex: nat)

  // ---------------------------------------------------------------------
  // Brute force
  // ---------------------------------------------------------------------

  /** The brute-force grouping key: (ip, user). */
  type LoginKey = (string, string)

  function AlertKey(a: Alert): LoginKey
  {
    (a.ip, a.user)
  }

  /** The (key, timestamp) pairs appended to the attempts dictionary, one per
      FAILED_LOGIN event with a parsed timestamp, in input order. */
  function FailedPairs(events: seq<Event>): (r: seq<(LoginKey, int)>)
    ensures |r| <= |events|
    ensures (forall i :: 0 <= i < |events| ==> events[i].eventType != FailedLogin) ==> r == []
  {
    if |events| == 0 then []
    else
      var e := events[|events| - 1];
      FailedPairs(events[..|events| - 1]) +
        (if e.eventType == FailedLogin && e.stamp.Seconds? then [((e.ip, e.user), e.stamp.seconds)] else [])
  }

  lemma FailedPairsStep(events: seq<Event>, n: nat)
    requires n < |events|
    ensures var e := events[n];
      e.eventType == FailedLogin && e.stamp.Seconds? ==>
        FailedPairs(events[..n + 1]) == FailedPairs(events[..n]) + [((e.ip, e.user), e.stamp.seconds)]
    ensures var e := events[n];
      !(e.eventType == FailedLogin && e.stamp.Seconds?) ==> FailedPairs(events[..n + 1]) == FailedPairs(events[..n])
    ensures var e := events[n];
      StampsParsed(events[..n], FailedLogin) && (e.eventType == FailedLogin ==> e.stamp.Seconds?) ==>
        StampsParsed(events[..n + 1], FailedLogin)
  {
    assert events[..n + 1][..n] == events[..n];
  }

  /** The failed-login timestamps of one (ip, user) pair, in input order. */
  function FailedTimes(events: seq<Event>, key: LoginKey): seq<int>
  {
    GroupOf(FailedPairs(events), key)
  }

  /** The window of failedThreshold consecutive timestamps starting at i exists
      and spans at most the configured number of minutes (inclusive). */
  predicate WindowQualifies(times: seq<int>, i: int, cfg: Config): (b: bool)
    ensures b ==> i < |times| && cfg.failedThreshold <= |times|
  {
    0 <= i && i + cfg.failedThreshold <= |times| &&
    times[i + cfg.failedThreshold - 1] - times[i] <= WindowSeconds(cfg)
  }

  function FirstQualifyingFrom(times: seq<int>, from: nat, cfg: Config): (r: Option<nat>)
    requires from <= |times|
    ensures r.Some? ==> from <= r.value && WindowQualifies(times, r.value, cfg)
    ensures r.Some? ==> forall j :: from <= j < r.value ==> !WindowQualifies(times, j, cfg)
    ensures r.None? ==> forall j :: from <= j ==> !WindowQualifies(times, j, cfg)
    decreases |times| - from
  {
    if from == |times| then None
    else if WindowQualifies(times, from, cfg) then Some(from)
    else FirstQualifyingFrom(times, from + 1, cfg)
  }

  /** The start of the first qualifying window, if any. */
  function FirstQualifying(times: seq<int>, cfg: Config): (r: Option<nat>)
    ensures r.Some? ==> WindowQualifies(times, r.value, cfg)
    ensures r.Some? ==> forall j :: 0 <= j < r.value ==> !WindowQualifies(times, j, cfg)
    ensures r.None? <==> forall j :: !WindowQualifies(times, j, cfg)
  {
    FirstQualifyingFrom(times, 0, cfg)
  }

  /** The alert record of the brute-force rule for one (ip, user) pair. */
  function BruteForceAlert(key: LoginKey, t: int): (a: Alert)
    ensures AlertKey(a) == key && a.timestamp == t
    ensures a.alertType == BRUTE_FORCE && a.severity == HIGH && a.technique == "T1110"
  {
    Alert(BRUTE_FORCE, HIGH, "Brute force attack detected", key.1, key.0, "T1110", t)
  }

  /** The alert one group yields: stamped with the last timestamp of the first
      qualifying window of its sorted timestamps, or none. */
  function GroupAlert(key: LoginKey, sorted: seq<int>, cfg: Config): (r: Option<Alert>)
    ensures r.None? <==> forall j :: !WindowQualifies(sorted, j, cfg)
    ensures r.Some? ==> r.value == BruteForceAlert(key, r.value.timestamp) && r.value.timestamp in sorted
  {
    match FirstQualifying(sorted, cfg)
    case None => None
    case Some(i) => Some(BruteForceAlert(key, sorted[i + cfg.failedThreshold - 1]))
  }

  /** What one key's group contributes to the rule's output: its alert, if any. */
  function KeyAlerts(key: LoginKey, pairs: seq<(LoginKey, int)>, cfg: Config): (r: seq<Alert>)
    ensures |r| <= 1
    ensures forall a :: a in r ==> a == BruteForceAlert(key, a.timestamp) && a.timestamp in GroupOf(pairs, key)
  {
    match GroupAlert(key, Sort(GroupOf(pairs, key)), cfg)
    case None => []
    case Some(a) =>
      assert a.timestamp in multiset(Sort(GroupOf(pairs, key)));
      [a]
  }

  /** The brute-force alerts of the given keys, in key order. */
  function BruteForceAlerts(keys: seq<LoginKey>, pairs: seq<(LoginKey, int)>, cfg: Config): (r: seq<Alert>)
    ensures |r| <= |keys|
    ensures forall a :: a in r ==>
      AlertKey(a) in keys && a == BruteForceAlert(AlertKey(a), a.timestamp) &&
      a.timestamp in GroupOf(pairs, AlertKey(a))
  {
    if |keys| == 0 then []
    else BruteForceAlerts(keys[..|keys| - 1], pairs, cfg) + KeyAlerts(keys[|keys| - 1], pairs, cfg)
  }

  lemma BruteForceAlertsStep(keys: seq<LoginKey>, j: nat, pairs: seq<(LoginKey, int)>, cfg: Config)
    requires j < |keys|
    ensures BruteForceAlerts(keys[..j + 1], pairs, cfg) ==
      BruteForceAlerts(keys[..j], pairs, cfg) + KeyAlerts(keys[j], pairs, cfg)
  {
    assert keys[..j + 1][..j] == keys[..j];
  }

  /** The brute-force rule's output on events whose failed-login timestamps parse. */
  function BruteForceAlertsOf(events: seq<Event>, cfg: Config): (r: seq<Alert>)
    ensures |r| <= |FirstSeen(FailedPairs(events))|
    ensures forall a :: a in r ==>
      a == BruteForceAlert(AlertKey(a), a.timestamp) && a.timestamp in FailedTimes(events, AlertKey(a))
  {
    var pairs := FailedPairs(events);
    BruteForceAlerts(FirstSeen(pairs), pairs, cfg)
  }

  /** The end of the slice times[i:i + T] once Python clamps it to the list. */
  function WindowEnd(n: nat, i: nat, cfg: Config): nat
  {
    if i + cfg.failedThreshold <= n then i + cfg.failedThreshold else n
  }

  /** What the scan reads off the slice times[i:i + T]: a short slice is no
      window; a full one qualifies exactly when its span is small enough, and
      its last timestamp is times[i + T - 1]. */
  lemma WindowSlice(times: seq<int>, i: nat, cfg: Config)
    requires i <= |times|
    ensures var window := times[i..WindowEnd(|times|, i, cfg)];
      |window| < cfg.failedThreshold ==> !WindowQualifies(times, i, cfg)
    ensures var window := times[i..WindowEnd(|times|, i, cfg)];
      |window| >= cfg.failedThreshold ==>
        window[|window| - 1] == times[i + cfg.failedThreshold - 1] &&
        (WindowQualifies(times, i, cfg) <==> window[|window| - 1] - window[0] <= WindowSeconds(cfg))
  {
  }

  /** A qualifying window preceded by none is the first one, and fixes the alert. */
  lemma FirstWindowAt(key: LoginKey, times: seq<int>, i: nat, cfg: Config)
    requires WindowQualifies(times, i, cfg)
    requires forall j :: 0 <= j < i ==> !WindowQualifies(times, j, cfg)
    ensures FirstQualifying(times, cfg) == Some(i)
    ensures GroupAlert(key, times, cfg) == Some(BruteForceAlert(key, times[i + cfg.failedThreshold - 1]))
  {
  }

  /** The window scan over one group's sorted timestamps: skip windows that
      run off the end, and alert on (and stop at) the first one that spans at
      most the configured time. */
  method ScanWindows(key: LoginKey, a: array<int>, cfg: Config) returns (alert: Option<Alert>)
    ensures alert == GroupAlert(key, a[..], cfg)
  {
    alert := None;
    for i := 0 to a.Length
      invariant alert == None
      invariant forall j :: 0 <= j < i ==> !WindowQualifies(a[..], j, cfg)
    {
      var window := a[i..WindowEnd(a.Length, i, cfg)];
      WindowSlice(a[..], i, cfg);
      assert window == a[..][i..WindowEnd(a.Length, i, cfg)];
      if |window| < cfg.failedThreshold {
        continue;
      }
      if window[|window| - 1] - window[0] <= WindowSeconds(cfg) {
        FirstWindowAt(key, a[..], i, cfg);
        alert := Some(BruteForceAlert(key, window[|window| - 1]));
        break;
      }
    }
  }

  /** One (ip, user) group: sort its timestamps in place, then scan them. */
  method ScanGroup(key: LoginKey, times: seq<int>, cfg: Config) returns (alert: Option<Alert>)
    ensures alert == GroupAlert(key, Sort(times), cfg)
  {
    var a := new int[|times|](i requires 0 <= i < |times| => times[i]);
    assert a[..] == times;
    SortInPlace(a);
    alert := ScanWindows(key, a, cfg);
  }

  /** The first loop of detect_brute_force: append each FAILED_LOGIN
      timestamp to the list of its (ip, user) key in an insertion-ordered
      dictionary, returned as its key order and its contents. An unparseable
      timestamp on a FAILED_LOGIN event aborts the rule. */
  method CollectAttempts(events: seq<Event>)
    returns (r: Result<(seq<LoginKey>, map<LoginKey, seq<int>>), DetectionError>)
    ensures r.Success? <==> StampsParsed(events, FailedLogin)
    ensures r.Success? ==> r.value.0 == FirstSeen(FailedPairs(events))
    ensures r.Success? ==> r.value.1 == GroupMap(FailedPairs(events))
    ensures r.Failure? ==> r.error == MalformedTimestamp(FirstUnparseable(events, FailedLogin).value)
  {
    var keys: seq<LoginKey> := [];
    var attempts: map<LoginKey, seq<int>> := map[];
    ghost var pairs: seq<(LoginKey, int)> := [];
    for n := 0 to |events|
      invariant StampsParsed(events[..n], FailedLogin)
      invariant pairs == FailedPairs(events[..n])
      invariant keys == FirstSeen(pairs)
      invariant attempts == GroupMap(pairs)
    {
      var e := events[n];
      FailedPairsStep(events, n);
      if e.eventType == FailedLogin {
        match e.stamp
        case Unparseable =>
          FirstUnparseableAt(events, n, FailedLogin);
          return Failure(MalformedTimestamp(n));
        case Seconds(t) =>
          var key := (e.ip, e.user);
          AppendStep(pairs, keys, attempts, key, t);
          var group := if key in attempts then attempts[key] else [];
          if key !in attempts {
            keys := keys + [key];
          }
          attempts := attempts[key := group + [t]];
          pairs := pairs + [(key, t)];
      }
    }
    assert events[..|events|] == events;
    return Success((keys, attempts));
  }

  /** detect_brute_force: collect the attempts, then scan each (ip, user)
      group in first-seen key order. */
  method DetectBruteForce(events: seq<Event>, cfg: Config) returns (r: Result<seq<Alert>, DetectionError>)
    ensures r.Success? <==> StampsParsed(events, FailedLogin)
    ensures r.Success? ==> r.value == BruteForceAlertsOf(events, cfg)
    ensures r.Failure? ==> r.error == MalformedTimestamp(FirstUnparseable(events, FailedLogin).value)
  {
    var collected := CollectAttempts(events);
    if collected.Failure? {
      return Failure(collected.error);
    }
    var (keys, attempts) := collected.value;
    ghost var pairs := FailedPairs(events);
    var alerts: seq<Alert> := [];
    for j := 0 to |keys|
      invariant alerts == BruteForceAlerts(keys[..j], pairs, cfg)
    {
      BruteForceAlertsStep(keys, j, pairs, cfg);
      var alert := ScanGroup(keys[j], attempts[keys[j]], cfg);
      if alert.Some? {
        alerts := alerts + [alert.value];
      }
    }
    assert keys[..|keys|] == keys;
    return Success(alerts);
  }

  // ---------------------------------------------------------------------
  // Suspicious-hour login
  // ---------------------------------------------------------------------

  /** A SUCCESS_LOGIN event whose hour lies in the suspicious range. */
  predicate IsSuspiciousLogin(e: Event, cfg: Config): (b: bool)
    ensures b ==> e.eventType == SuccessLogin && e.stamp.Seconds?
    ensures b ==> cfg.suspiciousStart < 24 && 0 < cfg.suspiciousStop
  {
    e.eventType == SuccessLogin && e.stamp.Seconds? &&
    InSuspiciousHours(cfg, HourOfDay(e.stamp.seconds))
  }

  /** The alert record of the suspicious-hour rule for one login event. */
  function SuspiciousAlert(e: Event): (a: Alert)
    requires e.stamp.Seconds?
    ensures AlertKey(a) == (e.ip, e.user) && a.timestamp == e.stamp.seconds
    ensures a.alertType == SUSPICIOUS_LOGIN_TIME && a.severity == MEDIUM && a.technique == "T1078"
  {
    Alert(SUSPICIOUS_LOGIN_TIME, MEDIUM, "Login occurred during suspicious hours",
          e.user, e.ip, "T1078", e.stamp.seconds)
  }

  /** The suspicious-hour rule's output on events whose success-login timestamps parse. */
  function SuspiciousAlerts(events: seq<Event>, cfg: Config): (r: seq<Alert>)
    ensures |r| <= |events|
    ensures forall a :: a in r ==>
      a.alertType == SUSPICIOUS_LOGIN_TIME && a.severity == MEDIUM && InSuspiciousHours(cfg, HourOfDay(a.timestamp))
  {
    if |events| == 0 then []
    else
      var e := events[|events| - 1];
      SuspiciousAlerts(events[..|events| - 1], cfg) +
        (if IsSuspiciousLogin(e, cfg) then [SuspiciousAlert(e)] else [])
  }

  /** detect_suspicious_login: one alert per SUCCESS_LOGIN event in the
      suspicious hours, in input order. An unparseable timestamp on a
      SUCCESS_LOGIN event aborts the rule. */
  method DetectSuspiciousLogin(events: seq<Event>, cfg: Config) returns (r: Result<seq<Alert>, DetectionError>)
    ensures r.Success? <==> StampsParsed(events, SuccessLogin)
    ensures r.Success? ==> r.value == SuspiciousAlerts(events, cfg)
    ensures r.Failure? ==> r.error == MalformedTimestamp(FirstUnparseable(events, SuccessLogin).value)
  {
    var alerts: seq<Alert> := [];
    for n := 0 to |events|
      invariant StampsParsed(events[..n], SuccessLogin)
      invariant alerts == SuspiciousAlerts(events[..n], cfg)
    {
      var e := events[n];
      assert events[..n + 1][..n] == events[..n];
      if e.eventType == SuccessLogin {
        match e.stamp
        case Unparseable =>
          assert forall j :: 0 <= j < n ==> events[..n][j] == events[j];
          return Failure(MalformedTimestamp(n));
        case Seconds(t) =>
          if InSuspiciousHours(cfg, HourOfDay(t)) {
            alerts := alerts + [Alert(SUSPICIOUS_LOGIN_TIME, MEDIUM, "Login occurred during suspicious hours",
                                      e.user, e.ip, "T1078", t)];
          }
      }
    }
    assert events[..|events|] == events;
    return Success(alerts);
  }

  // ---------------------------------------------------------------------
  // Driver
  // ---------------------------------------------------------------------

  /** run_detection: the suspicious-hour alerts followed by the brute-force
      alerts; the first rule to fail decides the error. */
  method RunDetection(events: seq<Event>, cfg: Config) returns (r: Result<seq<Alert>, DetectionError>)
    ensures r.Success? <==> StampsParsed(events, SuccessLogin) && StampsParsed(events, FailedLogin)
    ensures r.Success? ==> r.value == SuspiciousAlerts(events, cfg) + BruteForceAlertsOf(events, cfg)
    ensures r.Success? ==> |r.value| == |SuspiciousAlerts(events, cfg)| + |BruteForceAlertsOf(events, cfg)|
    ensures r.Failure? && !StampsParsed(events, SuccessLogin) ==>
      r.error == MalformedTimestamp(FirstUnparseable(events, SuccessLogin).value)
    ensures r.Failure? && StampsParsed(events, SuccessLogin) ==>
      r.error == MalformedTimestamp(FirstUnparseable(events, FailedLogin).value)
  {
    var suspicious := DetectSuspiciousLogin(events, cfg);
    if suspicious.Failure? {
      return Failure(suspicious.error);
    }
    var bruteForce := DetectBruteForce(events, cfg);
    if bruteForce.Failure? {
      return Failure(bruteForce.error);
    }
    return Success(suspicious.value + bruteForce.value);
  }
}

/** Records that flow through the pipeline: login events into the detection
    engine, alerts out of it and into the incident aggregator. */
module Records {

  datatype Option<+T> = None | Some(value: T)

  datatype Result<+T, +E> = Success(value: T) | Failure(error: E)

  /** A timestamp as the detection rules see it once parsed: whole seconds
      counted from a midnight reference point, in naive local time. Text that
      does not match "YYYY-MM-DD HH:MM:SS" makes the parser raise, which is
      the Unparseable case. */
  datatype Stamp = Seconds(seconds: int) | Unparseable

  /** The event_type field. Only the two login kinds are acted on; any other
      text is carried along and ignored by every rule. The rules compare the
      raw text, so an event typed "FAILED_LOGIN" or "SUCCESS_LOGIN" is always
      one of the first two cases: OtherType never holds either text, which
      EventTypeOf guarantees for every event built from its text. */
  datatype EventType = FailedLogin | SuccessLogin | OtherType(name: string)

  /** The event kind named by the event_type text. */
  function EventTypeOf(text: string): (t: EventType)
    ensures t == FailedLogin <==> text == "FAILED_LOGIN"
    ensures t == SuccessLogin <==> text == "SUCCESS_LOGIN"
    ensures t.OtherType? ==> t.name == text && t.name != "FAILED_LOGIN" && t.name != "SUCCESS_LOGIN"
  {
    if text == "FAILED_LOGIN" then FailedLogin
    else if text == "SUCCESS_LOGIN" then SuccessLogin
    else OtherType(text)
  }

  datatype Event = Event(eventType: EventType, ip: string, user: string, stamp: Stamp)

  /** An alert record. Type, severity and technique are free text, as in the
      alerts file the aggregator reads; the detection rules only produce the
      constants below. */
  datatype Alert = Alert(
    alertType: string,
    severity: string,
    description: string,
    user: string,
    ip: string,
    technique: string,
    timestamp: int)

  const BRUTE_FORCE := "BRUTE_FORCE"
  const SUSPICIOUS_LOGIN_TIME := "SUSPICIOUS_LOGIN_TIME"

  const LOW := "LOW"
  const MEDIUM := "MEDIUM"
  const HIGH := "HIGH"

  /** Predicate: every event of the given kind carries a parseable timestamp. */
  predicate StampsParsed(events: seq<Event>, kind: EventType)
  {
    forall i :: 0 <= i < |events| && events[i].eventType == kind ==> events[i].stamp.Seconds?
  }

  /** The index of the first event of the given kind whose timestamp does not
      parse: where a rule that parses the timestamps of that kind raises. */
  function FirstUnparseable(events: seq<Event>, kind: EventType): (r: Option<nat>)
    ensures r.None? <==> StampsParsed(events, kind)
    ensures r.Some? ==>
      r.value < |events| && events[r.value].eventType == kind && events[r.value].stamp.Unparseable?
    ensures r.Some? ==>
      forall j :: 0 <= j < r.value && events[j].eventType == kind ==> events[j].stamp.Seconds?
  {
    if |events| == 0 then None
    else if events[0].eventType == kind && events[0].stamp.Unparseable? then Some(0)
    else match FirstUnparseable(events[1..], kind)
      case None => None
      case Some(j) => Some(j + 1)
  }

  /** Where a left-to-right scan that has seen only parseable timestamps of the
      kind so far meets an unparseable one, it is at the first such event. */
  lemma FirstUnparseableAt(events: seq<Event>, n: nat, kind: EventType)
    requires n < |events|
    requires StampsParsed(events[..n], kind)
    requires events[n].eventType == kind && events[n].stamp.Unparseable?
    ensures !StampsParsed(events, kind)
    ensures FirstUnparseable(events, kind) == Some(n)
  {
    assert forall j :: 0 <= j < n ==> events[..n][j] == events[j];
  }
}

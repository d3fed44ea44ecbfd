/**
 * The alert webhook: Alertmanager and Grafana payloads are formatted into
 * chat messages and handed to the chat-notification service. The HTTP
 * layer is abstracted: a request's outcome is a parameter, and the
 * messages the handlers send are returned, in order, as an outbox.
 */
module Webhook {
  import opened Wrappers
  import opened PyText
  import opened SeqFacts

  /** The administrator who is told about malformed alerts. */
  const Admin: string := "zhouhuang"
  /** Labels that never appear in a notification. */
  const Excluded: seq<string> := ["alertname", "consul_address", "consul_dc"]
  /** The first line of an Alertmanager notification. */
  const NoticeTitle: string := "【告警通知】\n"
  /** HTTP 200, `requests.codes.ok`. */
  const StatusOk: int := 200

  /** A chat message handed to the notification service. */
  datatype Message = Message(to: string, text: string)

  // ---------------------------------------------------------------------------
  // http_requests and reliao_notify
  // ---------------------------------------------------------------------------

  /** The ways `requests.request` can end, by the first `except` clause that catches them. */
  datatype HttpOutcome =
    | Response(status: int)
    | MissingUrl
    | ConnectTimeout
    | ConnectionFailed
    | ReadTimeout
    | OtherTimeout
    | HttpError
    | OtherError(text: string)

  /** http_requests: code 0 with the response for HTTP 200, otherwise code 1 and a reason. */
  function HttpRequests(outcome: HttpOutcome): (r: (int, string))
    ensures r.0 == 0 <==> outcome == Response(StatusOk)
    ensures r.0 == 0 || r.0 == 1
  {
    match outcome
    case Response(status) => if status == StatusOk then (0, "") else (1, "response error status code")
    case MissingUrl => (1, "Missing Url")
    case ConnectTimeout => (1, "Connect to server timed out'")
    case ConnectionFailed => (1, "Unable connect to server")
    case ReadTimeout => (1, "Server timeout did not respond")
    case OtherTimeout => (1, "Server Response timeout")
    case HttpError => (1, "Server Error")
    case OtherError(text) => (1, text)
  }

  /** reliao_notify: `"ok"` exactly when the service answered HTTP 200. */
  function ReliaoNotify(outcome: HttpOutcome): (r: string)
    ensures r == "ok" <==> outcome == Response(StatusOk)
    ensures r == "ok" || r == "not ok"
  {
    var (code, _) := HttpRequests(outcome);
    if code == 1 then "not ok" else "ok"
  }

  // ---------------------------------------------------------------------------
  // Labels
  // ---------------------------------------------------------------------------

  /** The line a label contributes. */
  function LabelLine(k: string, v: string): string {
    k + " = " + v + "\n"
  }

  /** The labels that are shown, in their order. */
  function Kept(labels: seq<(string, string)>): (r: seq<(string, string)>)
    ensures forall p :: p in r <==> p in labels && p.0 !in Excluded
    ensures |r| <= |labels|
  {
    if labels == [] then []
    else
      var init := labels[..|labels| - 1];
      var last := labels[|labels| - 1];
      assert labels == init + [last];
      if last.0 in Excluded then Kept(init) else Kept(init) + [last]
  }

  /** The label lines of a label list, in order. */
  function Lines(labels: seq<(string, string)>): string {
    if labels == [] then [] else Lines(labels[..|labels| - 1]) + LabelLine(labels[|labels| - 1].0, labels[|labels| - 1].1)
  }

  /** Filtering keeps the order: the labels of two lists are those of each, one after the other. */
  lemma {:induction false} KeptAppend(a: seq<(string, string)>, b: seq<(string, string)>)
    ensures Kept(a + b) == Kept(a) + Kept(b)
    decreases |b|
  {
    if b == [] {
      assert a + b == a;
    } else {
      var b' := b[..|b| - 1];
      assert (a + b)[..|a + b| - 1] == a + b';
      assert (a + b)[|a + b| - 1] == b[|b| - 1];
      KeptAppend(a, b');
      if b[|b| - 1].0 !in Excluded {
        Assoc(Kept(a), Kept(b'), [b[|b| - 1]]);
      }
    }
  }

  /** The label loop of prometheus_alerts. */
  method AppendLabels(content: string, labels: seq<(string, string)>) returns (c: string)
    ensures c == content + Lines(Kept(labels))
  {
    c := content;
    var i := 0;
    while i < |labels|
      invariant 0 <= i <= |labels|
      invariant c == content + Lines(Kept(labels[..i]))
    {
      var (k, v) := labels[i];
      assert labels[..i + 1][..i] == labels[..i];
      if k !in Excluded {
        c := c + LabelLine(k, v);
        Assoc(content, Lines(Kept(labels[..i])), LabelLine(k, v));
      }
      i := i + 1;
    }
    assert labels[..i] == labels;
  }

  // ---------------------------------------------------------------------------
  // prometheus_alerts
  // ---------------------------------------------------------------------------

  /** One alert of an Alertmanager payload; `None` is a key the JSON object lacks. */
  datatype Alert = Alert(
    status: Option<string>,
    labels: Option<seq<(string, string)>>,
    annotations: Option<map<string, string>>,
    startsAt: Option<string>,
    endsAt: Option<string>)

  /** The first key the alert's lookups fail on, in the order they are made. */
  function MissingKey(a: Alert): (r: Option<string>)
    ensures r.None? <==> a.labels.Some? && a.annotations.Some? && "summary" in a.annotations.value
                         && "description" in a.annotations.value && a.startsAt.Some? && a.endsAt.Some?
  {
    if a.labels.None? then Some("labels")
    else if a.annotations.None? then Some("annotations")
    else if "summary" !in a.annotations.value then Some("summary")
    else if "description" !in a.annotations.value then Some("description")
    else if a.startsAt.None? then Some("startsAt")
    else if a.endsAt.None? then Some("endsAt")
    else None
  }

  /** What the administrator is told about an alert lacking `key`; `alertsText` is the alert list as printed. */
  function AdminNotice(key: string, alertsText: string): Message {
    Message(Admin, "Alertmanager webhook faild, info: '" + key + "' key not find. alerts: " + alertsText)
  }

  /** The block a complete alert contributes: its head, one line per kept label, and its tail. */
  function Block(status: string, a: Alert): string
    requires MissingKey(a).None?
  {
    BlockHead(status, a) + Lines(Kept(a.labels.value)) + BlockTail(a)
  }

  /** The status, summary and description lines of a block. */
  function BlockHead(status: string, a: Alert): string
    requires MissingKey(a).None?
  {
    "[告警状态]: " + status + "\n"
    + "[告警主题]: " + a.annotations.value["summary"] + "\n"
    + "[告警描述]: " + a.annotations.value["description"] + "\n"
  }

  /** The start and end lines of a block and the empty line after it. */
  function BlockTail(a: Alert): string
    requires a.startsAt.Some? && a.endsAt.Some?
  {
    "[开始时间]: " + a.startsAt.value + "\n"
    + "[结束时间]: " + a.endsAt.value + "\n"
    + "\n"
  }

  /** The closing remark when more than three alerts fire. */
  function Warning(count: nat): string {
    "注意! 本次共产生" + NatToString(count) + "条报警,请多留意!"
  }

  /** The state of the alert loop: the text so far, the alerts counted, the messages sent, and whether a lookup of `status` failed. */
  datatype Scan = Scan(content: string, count: nat, outbox: seq<Message>, failed: bool)

  /** The alert loop over a prefix of the alerts. */
  function ScanAlerts(status: string, alerts: seq<Alert>, alertsText: string): Scan {
    if alerts == [] then Scan("", 0, [], false)
    else
      var s := ScanAlerts(status, alerts[..|alerts| - 1], alertsText);
      var a := alerts[|alerts| - 1];
      if s.failed then s
      else if a.status.None? then s.(failed := true)
      else if a.status.value != status then s
      else match MissingKey(a)
        case Some(key) => s.(outbox := s.outbox + [AdminNotice(key, alertsText)])
        case None => s.(content := s.content + Block(status, a), count := s.count + 1)
  }

  /** prometheus_alerts: the messages sent and whether the handler answered (`false`: uncaught KeyError). */
  function Prometheus(status: string, alerts: seq<Alert>, alertsText: string, user: string): (seq<Message>, bool) {
    var s := ScanAlerts(status, alerts, alertsText);
    if s.failed then (s.outbox, false)
    else
      var content := if s.count > 3 && status == "firing" then s.content + Warning(s.count) else s.content;
      if s.count > 0 then (s.outbox + [Message(user, NoticeTitle + content)], true) else (s.outbox, true)
  }

  /** The content one complete alert adds, line by line as prometheus_alerts appends it. */
  method AppendBlock(content: string, status: string, a: Alert) returns (c: string)
    requires MissingKey(a).None?
    ensures c == content + Block(status, a)
  {
    var annotations := a.annotations.value;
    var head := "[告警状态]: " + status + "\n";
    head := head + "[告警主题]: " + annotations["summary"] + "\n";
    head := head + "[告警描述]: " + annotations["description"] + "\n";
    var labelLines := AppendLabels("", a.labels.value);
    var tail := "[开始时间]: " + a.startsAt.value + "\n";
    tail := tail + "[结束时间]: " + a.endsAt.value + "\n";
    tail := tail + "\n";
    c := content + (head + labelLines + tail);
  }

  /** One step of the alert loop. */
  lemma ScanStep(status: string, alerts: seq<Alert>, alertsText: string, i: nat)
    requires i < |alerts|
    ensures ScanAlerts(status, alerts[..i + 1], alertsText) ==
      var s := ScanAlerts(status, alerts[..i], alertsText);
      var a := alerts[i];
      if s.failed then s
      else if a.status.None? then s.(failed := true)
      else if a.status.value != status then s
      else match MissingKey(a)
        case Some(key) => s.(outbox := s.outbox + [AdminNotice(key, alertsText)])
        case None => s.(content := s.content + Block(status, a), count := s.count + 1)
  {
    assert alerts[..i + 1][..i] == alerts[..i];
  }

  /** prometheus_alerts, as the loops it is. */
  method PrometheusAlerts(status: string, alerts: seq<Alert>, alertsText: string, user: string)
    returns (outbox: seq<Message>, answered: bool)
    ensures (outbox, answered) == Prometheus(status, alerts, alertsText, user)
  {
    var count: nat := 0;
    var content := "";
    outbox := [];
    var i := 0;
    while i < |alerts|
      invariant 0 <= i <= |alerts|
      invariant ScanAlerts(status, alerts[..i], alertsText) == Scan(content, count, outbox, false)
    {
      var a := alerts[i];
      ScanStep(status, alerts, alertsText, i);
      if a.status.None? {
        ScanFailedStays(status, alerts, alertsText, i + 1);
        return outbox, false;
      }
      if a.status.value == status {
        var missing := MissingKey(a);
        if missing.Some? {
          outbox := outbox + [AdminNotice(missing.value, alertsText)];
        } else {
          content := AppendBlock(content, status, a);
          count := count + 1;
        }
      }
      i := i + 1;
    }
    assert alerts[..i] == alerts;
    if count > 3 && status == "firing" {
      content := content + Warning(count);
    }
    if count > 0 {
      outbox := outbox + [Message(user, NoticeTitle + content)];
    }
    return outbox, true;
  }

  /** Once the status lookup failed, the loop stays failed. */
  lemma {:induction false} ScanFailedStays(status: string, alerts: seq<Alert>, alertsText: string, n: nat)
    requires n <= |alerts| && ScanAlerts(status, alerts[..n], alertsText).failed
    ensures ScanAlerts(status, alerts, alertsText) == ScanAlerts(status, alerts[..n], alertsText)
    decreases |alerts| - n
  {
    if n < |alerts| {
      assert alerts[..n + 1][..n] == alerts[..n];
      ScanFailedStays(status, alerts, alertsText, n + 1);
    } else {
      assert alerts[..n] == alerts;
    }
  }

  // ---------------------------------------------------------------------------
  // grafana_alerts
  // ---------------------------------------------------------------------------

  /** One entry of `evalMatches`; `value` is the value as `format` prints it. */
  datatype EvalMatch = EvalMatch(metric: Option<string>, value: Option<string>)

  /** A Grafana payload; `None` is a key the JSON object lacks. */
  datatype GrafanaPayload = GrafanaPayload(
    title: Option<string>,
    ruleName: Option<string>,
    state: Option<string>,
    message: Option<string>,
    evalMatches: Option<seq<EvalMatch>>)

  /** The fixed lines of a Grafana notification; `startAt` is the time the request arrived. */
  function GrafanaHeader(state: string, title: string, message: string, ruleName: string, startAt: string): string {
    "【Grafana告警】\n"
    + "[告警状态]: " + state + "\n"
    + "[告警主题]: " + title + "\n"
    + "[详情描述]: " + message + "\n"
    + "[触发规则]: " + ruleName + "\n"
    + "[告警时间]: " + startAt + "\n"
    + "[数值详情]:\n"
  }

  /** The line of one evaluation match. */
  function MatchLine(m: EvalMatch): string
    requires m.metric.Some? && m.value.Some?
  {
    m.metric.value + " = " + m.value.value + "\n"
  }

  /** Whether every match has both keys. */
  predicate MatchesComplete(ms: seq<EvalMatch>) {
    forall i :: 0 <= i < |ms| ==> ms[i].metric.Some? && ms[i].value.Some?
  }

  /** The match lines, in input order. */
  function MatchLines(ms: seq<EvalMatch>): string
    requires MatchesComplete(ms)
  {
    if ms == [] then [] else MatchLines(ms[..|ms| - 1]) + MatchLine(ms[|ms| - 1])
  }

  /** grafana_alerts: the notification sent, or `None` when a lookup raised KeyError before it. */
  function Grafana(p: GrafanaPayload, startAt: string, user: string): Option<Message> {
    if p.title.None? || p.ruleName.None? || p.state.None? || p.message.None? || p.evalMatches.None? then None
    else if !MatchesComplete(p.evalMatches.value) then None
    else
      Some(Message(user, GrafanaHeader(p.state.value, p.title.value, p.message.value, p.ruleName.value, startAt)
                         + MatchLines(p.evalMatches.value)))
  }

  /** grafana_alerts, as the loop it is. */
  method GrafanaAlerts(p: GrafanaPayload, startAt: string, user: string) returns (sent: Option<Message>)
    ensures sent == Grafana(p, startAt, user)
  {
    if p.title.None? || p.ruleName.None? || p.state.None? || p.message.None? || p.evalMatches.None? {
      return None;
    }
    var matches := p.evalMatches.value;
    var content := GrafanaHeader(p.state.value, p.title.value, p.message.value, p.ruleName.value, startAt);
    ghost var header := content;
    var i := 0;
    while i < |matches|
      invariant 0 <= i <= |matches|
      invariant MatchesComplete(matches[..i])
      invariant content == header + MatchLines(matches[..i])
    {
      var m := matches[i];
      if m.metric.None? || m.value.None? {
        assert !MatchesComplete(matches);
        return None;
      }
      assert matches[..i + 1][..i] == matches[..i];
      Assoc(header, MatchLines(matches[..i]), MatchLine(m));
      content := content + (m.metric.value + " = " + m.value.value + "\n");
      i := i + 1;
    }
    assert matches[..i] == matches;
    return Some(Message(user, content));
  }
}

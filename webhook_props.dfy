/**
 * What the Alertmanager and Grafana handlers promise: which alerts are
 * counted, what the administrator is told, when a notification is sent and
 * when it carries the closing remark.
 */
module WebhookProps {
  import opened Wrappers
  import opened PyText
  import opened SeqFacts
  import opened Webhook

  /** An alert that adds a block: its status is the payload's and every lookup succeeds. */
  predicate Contributes(status: string, a: Alert) {
    a.status == Some(status) && MissingKey(a).None?
  }

  /** An alert the administrator is told about: its status is the payload's but a lookup fails. */
  predicate Malformed(status: string, a: Alert) {
    a.status == Some(status) && MissingKey(a).Some?
  }

  /** Some alert has no `status`, which the handler does not catch. */
  predicate StatusMissing(alerts: seq<Alert>) {
    exists i :: 0 <= i < |alerts| && alerts[i].status.None?
  }

  /** The alerts that add a block, in order. */
  function Accepted(status: string, alerts: seq<Alert>): (r: seq<Alert>)
    ensures forall a :: a in r <==> a in alerts && Contributes(status, a)
    ensures |r| <= |alerts|
  {
    if alerts == [] then []
    else
      var init := alerts[..|alerts| - 1];
      var a := alerts[|alerts| - 1];
      assert alerts == init + [a];
      if Contributes(status, a) then Accepted(status, init) + [a] else Accepted(status, init)
  }

  /** The blocks of accepted alerts, one after the other. */
  function Blocks(status: string, accepted: seq<Alert>): string
    requires forall a :: a in accepted ==> Contributes(status, a)
  {
    if accepted == [] then []
    else
      assert accepted[|accepted| - 1] in accepted;
      assert Contributes(status, accepted[|accepted| - 1]);
      Blocks(status, accepted[..|accepted| - 1]) + Block(status, accepted[|accepted| - 1])
  }

  /** The notices sent to the administrator, one per malformed alert, in order. */
  function Notices(status: string, alerts: seq<Alert>, alertsText: string): (r: seq<Message>)
    ensures forall m :: m in r ==> m.to == Admin
  {
    if alerts == [] then []
    else
      var init := alerts[..|alerts| - 1];
      var a := alerts[|alerts| - 1];
      if Malformed(status, a) then Notices(status, init, alertsText) + [AdminNotice(MissingKey(a).value, alertsText)]
      else Notices(status, init, alertsText)
  }

  /** An alert list lacks a status exactly when its front does or its last alert does. */
  lemma StatusMissingSnoc(alerts: seq<Alert>)
    requires alerts != []
    ensures StatusMissing(alerts) <==> StatusMissing(alerts[..|alerts| - 1]) || alerts[|alerts| - 1].status.None?
  {
    var init := alerts[..|alerts| - 1];
    assert forall i :: 0 <= i < |init| ==> init[i] == alerts[i];
    if StatusMissing(alerts) && !alerts[|alerts| - 1].status.None? {
      var i :| 0 <= i < |alerts| && alerts[i].status.None?;
      assert init[i].status.None?;
    }
  }

  /**
   * The alert loop fails exactly when some alert lacks `status`; otherwise
   * it counts the accepted alerts, concatenates their blocks and notifies
   * the administrator once per malformed alert.
   */
  lemma {:induction false} ScanMeaning(status: string, alerts: seq<Alert>, alertsText: string)
    ensures ScanAlerts(status, alerts, alertsText).failed <==> StatusMissing(alerts)
    ensures !StatusMissing(alerts) ==>
      ScanAlerts(status, alerts, alertsText) ==
      Scan(Blocks(status, Accepted(status, alerts)), |Accepted(status, alerts)|, Notices(status, alerts, alertsText), false)
  {
    if alerts != [] {
      var init := alerts[..|alerts| - 1];
      var a := alerts[|alerts| - 1];
      ScanMeaning(status, init, alertsText);
      StatusMissingSnoc(alerts);
      if Contributes(status, a) {
        var acc := Accepted(status, init);
        assert Accepted(status, alerts) == acc + [a];
        assert (acc + [a])[..|acc|] == acc;
      }
    }
  }

  /** A block ends with an empty line. */
  lemma BlockEnds(status: string, a: Alert)
    requires MissingKey(a).None?
    ensures |Block(status, a)| >= 2 && Block(status, a)[|Block(status, a)| - 1] == '\n'
  {
  }

  /** Blocks of a non-empty list end with a newline. */
  lemma BlocksEnd(status: string, accepted: seq<Alert>)
    requires forall a :: a in accepted ==> Contributes(status, a)
    requires accepted != []
    ensures var b := Blocks(status, accepted); |b| > 0 && b[|b| - 1] == '\n'
  {
    var last := accepted[|accepted| - 1];
    assert last in accepted;
    BlockEnds(status, last);
    var b := Blocks(status, accepted);
    var pre := Blocks(status, accepted[..|accepted| - 1]);
    assert b == pre + Block(status, last);
    assert b[|b| - 1] == Block(status, last)[|Block(status, last)| - 1];
  }

  /** The notice text starts with the title and ends in '!' exactly when the warning was added to the blocks. */
  lemma NoticeText(blocks: string, count: nat, warn: bool)
    requires |blocks| > 0 && blocks[|blocks| - 1] == '\n'
    ensures var text := NoticeTitle + (if warn then blocks + Warning(count) else blocks);
            StartsWith(text, NoticeTitle) && (text[|text| - 1] == '!' <==> warn)
  {
    var text := NoticeTitle + (if warn then blocks + Warning(count) else blocks);
    assert text[..|NoticeTitle|] == NoticeTitle;
    if warn {
      var w := Warning(count);
      assert w[|w| - 1] == '!';
      assert text == (NoticeTitle + blocks) + w;
    } else {
      assert text[|text| - 1] == blocks[|blocks| - 1];
    }
  }

  /**
   * prometheus_alerts answers exactly when every alert has a status; it
   * then sends the administrator notices first and a notification to the
   * user exactly when at least one alert was accepted. The notification
   * starts with the title line and ends with the closing remark (whose
   * last character is `!`) exactly when more than three alerts fire.
   */
  lemma PrometheusOutcome(status: string, alerts: seq<Alert>, alertsText: string, user: string)
    ensures var (outbox, answered) := Prometheus(status, alerts, alertsText, user);
      && (answered <==> !StatusMissing(alerts))
      && (answered ==>
            var notices := Notices(status, alerts, alertsText);
            var count := |Accepted(status, alerts)|;
            && |outbox| == |notices| + (if count > 0 then 1 else 0)
            && outbox[..|notices|] == notices
            && (count > 0 ==>
                  var m := outbox[|outbox| - 1];
                  && m.to == user
                  && StartsWith(m.text, NoticeTitle)
                  && (m.text[|m.text| - 1] == '!' <==> count > 3 && status == "firing")))
  {
    ScanMeaning(status, alerts, alertsText);
    var (outbox, answered) := Prometheus(status, alerts, alertsText, user);
    if answered {
      var acc := Accepted(status, alerts);
      var notices := Notices(status, alerts, alertsText);
      if |acc| > 0 {
        var blocks := Blocks(status, acc);
        BlocksEnd(status, acc);
        var warn := |acc| > 3 && status == "firing";
        var content := if warn then blocks + Warning(|acc|) else blocks;
        var text := NoticeTitle + content;
        assert outbox == notices + [Message(user, text)];
        assert (notices + [Message(user, text)])[..|notices|] == notices;
        NoticeText(blocks, |acc|, warn);
      } else {
        assert outbox == notices;
      }
    }
  }

  /** Label lines keep their order across a split of the list. */
  lemma {:induction false} LinesAppend(a: seq<(string, string)>, b: seq<(string, string)>)
    ensures Lines(a + b) == Lines(a) + Lines(b)
    decreases |b|
  {
    if b == [] {
      assert a + b == a;
    } else {
      var b' := b[..|b| - 1];
      assert (a + b)[..|a + b| - 1] == a + b';
      assert (a + b)[|a + b| - 1] == b[|b| - 1];
      LinesAppend(a, b');
      var last := b[|b| - 1];
      Assoc(Lines(a), Lines(b'), LabelLine(last.0, last.1));
    }
  }

  /**
   * The label lines of an alert are those of each label in turn, an
   * excluded label contributing nothing.
   */
  lemma LabelsShown(labels: seq<(string, string)>, k: string, v: string)
    ensures Lines(Kept(labels + [(k, v)])) ==
      Lines(Kept(labels)) + (if k in Excluded then "" else LabelLine(k, v))
  {
    KeptAppend(labels, [(k, v)]);
    assert Kept([(k, v)]) == if k in Excluded then [] else [(k, v)] by {
      assert [(k, v)][..0] == [];
    }
    LinesAppend(Kept(labels), Kept([(k, v)]));
    if k !in Excluded {
      assert Lines([(k, v)]) == Lines([]) + LabelLine(k, v) by {
        assert [(k, v)][..0] == [];
      }
    } else {
      assert Kept(labels) + [] == Kept(labels);
    }
  }

  /** Match lines keep the input order. */
  lemma {:induction false} MatchLinesAppend(a: seq<EvalMatch>, b: seq<EvalMatch>)
    requires MatchesComplete(a) && MatchesComplete(b)
    ensures MatchesComplete(a + b)
    ensures MatchLines(a + b) == MatchLines(a) + MatchLines(b)
    decreases |b|
  {
    assert MatchesComplete(a + b) by {
      forall i | 0 <= i < |a + b| ensures (a + b)[i].metric.Some? && (a + b)[i].value.Some? {
        if i < |a| { assert (a + b)[i] == a[i]; } else { assert (a + b)[i] == b[i - |a|]; }
      }
    }
    if b == [] {
      assert a + b == a;
    } else {
      var b' := b[..|b| - 1];
      assert (a + b)[..|a + b| - 1] == a + b';
      assert (a + b)[|a + b| - 1] == b[|b| - 1];
      MatchLinesAppend(a, b');
      Assoc(MatchLines(a), MatchLines(b'), MatchLine(b[|b| - 1]));
    }
  }

  /**
   * grafana_alerts notifies, addressed to the requested user, exactly when
   * every key it reads is present: the five top-level keys and both keys of
   * every match.
   */
  lemma GrafanaSent(p: GrafanaPayload, startAt: string, user: string)
    ensures Grafana(p, startAt, user).Some? <==>
      && p.title.Some? && p.ruleName.Some? && p.state.Some? && p.message.Some? && p.evalMatches.Some?
      && (forall i :: 0 <= i < |p.evalMatches.value| ==>
            p.evalMatches.value[i].metric.Some? && p.evalMatches.value[i].value.Some?)
    ensures Grafana(p, startAt, user).Some? ==> Grafana(p, startAt, user).value.to == user
  {
  }

  /**
   * With the top-level keys present, one more match keeps the notification
   * exactly when that match is complete, and appends its `metric = value` line.
   */
  lemma GrafanaOutcome(p: GrafanaPayload, startAt: string, user: string, ms: seq<EvalMatch>, m: EvalMatch)
    requires p.title.Some? && p.ruleName.Some? && p.state.Some? && p.message.Some?
    requires p.evalMatches == Some(ms + [m])
    ensures Grafana(p, startAt, user).Some? <==> MatchesComplete(ms) && m.metric.Some? && m.value.Some?
    ensures Grafana(p, startAt, user).Some? ==>
      && Grafana(p.(evalMatches := Some(ms)), startAt, user).Some?
      && Grafana(p, startAt, user).value.to == user
      && Grafana(p, startAt, user).value.text == Grafana(p.(evalMatches := Some(ms)), startAt, user).value.text + MatchLine(m)
  {
    var all := ms + [m];
    assert all[..|ms|] == ms;
    assert all[|ms|] == m;
    if MatchesComplete(ms) && m.metric.Some? && m.value.Some? {
      assert MatchesComplete(all) by {
        forall i | 0 <= i < |all| ensures all[i].metric.Some? && all[i].value.Some? {
          if i < |ms| { assert all[i] == ms[i]; }
        }
      }
      var header := GrafanaHeader(p.state.value, p.title.value, p.message.value, p.ruleName.value, startAt);
      Assoc(header, MatchLines(ms), MatchLine(m));
    } else if !MatchesComplete(ms) {
      var i :| 0 <= i < |ms| && !(ms[i].metric.Some? && ms[i].value.Some?);
      assert all[i] == ms[i];
    }
  }
}

/**
 * The listening-port exporter: every scrape runs `ss -ntl`, parses the
 * listening ports out of its output and reports them together with the
 * ports that were listening at the previous scrape but are gone now.
 * Running the command is abstracted as its outcome, a parameter.
 */
module PortExporter {
  import opened Wrappers
  import opened PyText
  import opened SeqFacts

  /** What running the shell command gave: an exit status and its output, or an exception at launch. */
  datatype RunOutcome = Exited(status: int, output: string) | LaunchError(message: string)

  /** The text of the IndexError raised by a `:`-less address. */
  const IndexErrorText: string := "list index out of range"

  /** What one line of `ss` output contributes. */
  datatype LineResult = Skip | Raise | Port(text: string)

  /**
   * The port of a local address: its second `:`-separated component, the
   * text between the first `:` and the next one (or the end), or `None` (an
   * IndexError) when it has no `:`. `AddressPortOf` states which text that is.
   */
  function AddressPort(address: string): (r: Option<string>)
    ensures r.None? <==> ':' !in address
    ensures r.Some? ==> ':' !in r.value
  {
    var parts := SplitOn(address, ':');
    if |parts| < 2 then None else Some(parts[1])
  }

  /**
   * An address made of a `:`-free head, `:`, a `:`-free port, and then
   * nothing or a further `:`-led tail, yields that port. Every address with
   * a `:` has exactly one such decomposition.
   */
  lemma AddressPortOf(head: string, port: string, tail: string)
    requires ':' !in head && ':' !in port && (tail == [] || tail[0] == ':')
    ensures AddressPort(head + [':'] + port + tail) == Some(port)
  {
    Assoc(head + [':'], port, tail);
    SplitOnFirst(head, ':', port + tail);
    if tail == [] {
      assert port + tail == port;
      SplitOnNone(port, ':');
    } else {
      assert tail == [':'] + tail[1..];
      Assoc(port, [':'], tail[1..]);
      SplitOnFirst(port, ':', tail[1..]);
    }
  }

  /** A line with more than three fields gives the port of its fourth, the local address. */
  function LinePort(line: string): LineResult {
    var fields := Fields(line);
    if |fields| <= 3 then Skip
    else match AddressPort(fields[3])
      case None => Raise
      case Some(port) => Port(port)
  }

  /**
   * What a line contributes: nothing when it has three fields or fewer; an
   * IndexError when its fourth field, the local address, has no `:`; and
   * otherwise the port of that address.
   */
  lemma LinePortCases(line: string)
    ensures LinePort(line) == Skip <==> |Fields(line)| <= 3
    ensures LinePort(line) == Raise <==> |Fields(line)| > 3 && ':' !in Fields(line)[3]
    ensures LinePort(line).Port? ==>
              |Fields(line)| > 3 && ':' in Fields(line)[3] && AddressPort(Fields(line)[3]) == Some(LinePort(line).text)
  {
  }

  /** The ports parsed from some lines, and the error text once a line raised. */
  datatype Parse = Parse(ports: seq<string>, error: Option<string>)

  /**
   * The body of the parsing loop for one line, written as the statements the
   * collector runs; `LinePort` is the same step as a value, and
   * `LinePortCases` states what it gives.
   */
  method ParseLine(line: string) returns (r: LineResult)
    ensures r == LinePort(line)
  {
    var fields := Fields(line);
    r := Skip;
    if |fields| > 3 {
      var parts := SplitOn(fields[3], ':');
      if |parts| < 2 {
        r := Raise;
      } else {
        r := Port(parts[1]);
      }
    }
  }

  /** What each of `lines` contributes. */
  function Classify(lines: seq<string>): (r: seq<LineResult>)
    ensures |r| == |lines| && forall i :: 0 <= i < |lines| ==> r[i] == LinePort(lines[i])
  {
    seq(|lines|, i requires 0 <= i < |lines| => LinePort(lines[i]))
  }

  /** The parsing loop over the lines' contributions, stopping at the first line that raises. */
  function ParseLines(rs: seq<LineResult>): (r: Parse)
    ensures |r.ports| <= |rs|
    ensures r.error.None? || r.error == Some(IndexErrorText)
  {
    if rs == [] then Parse([], None)
    else
      var p := ParseLines(rs[..|rs| - 1]);
      if p.error.Some? then p
      else match rs[|rs| - 1]
        case Skip => p
        case Raise => p.(error := Some(IndexErrorText))
        case Port(port) => p.(ports := p.ports + [port])
  }

  /** The lines of the command's output after the header line. */
  function OutputLines(output: string): seq<string> {
    SplitOn(output, '\n')[1..]
  }

  /** The new `(ports, success, info)` after run_sh, given the old success flag. */
  function RunShResult(success: int, outcome: RunOutcome): (seq<string>, int, string) {
    match outcome
    case LaunchError(message) => ([], success, message)
    case Exited(status, output) =>
      if status != 0 then ([], success, "none")
      else
        var p := ParseLines(Classify(OutputLines(output)));
        match p.error
        case None => (p.ports, 1, "none")
        case Some(e) => (p.ports, 0, e)
  }

  /** A sample of the listen-port gauge: the port label and the value. */
  datatype Sample = Sample(port: string, value: int)

  /**
   * The listen-port samples of a scrape: every current port with value 1,
   * in order, and every port that was listening before but is not now with
   * value 0. No port is reported both ways.
   */
  function Report(before: seq<string>, now: seq<string>): (r: (seq<Sample>, set<Sample>))
    ensures |r.0| == |now| && forall i :: 0 <= i < |now| ==> r.0[i] == Sample(now[i], 1)
    ensures forall x :: x in r.1 <==> x.value == 0 && x.port in before && x.port !in now
    ensures forall x, i :: x in r.1 && 0 <= i < |r.0| ==> x.port != r.0[i].port
  {
    (seq(|now|, i requires 0 <= i < |now| => Sample(now[i], 1)),
     set p | p in before && p !in now :: Sample(p, 0))
  }

  /** The loop of collect over the current ports: one sample of value 1 each, in order. */
  method CurrentSamples(now: seq<string>) returns (current: seq<Sample>)
    ensures |current| == |now| && forall i :: 0 <= i < |now| ==> current[i] == Sample(now[i], 1)
  {
    current := [];
    var i := 0;
    while i < |now|
      invariant 0 <= i <= |now|
      invariant |current| == i && forall k :: 0 <= k < i ==> current[k] == Sample(now[k], 1)
    {
      current := current + [Sample(now[i], 1)];
      i := i + 1;
    }
  }

  /** The exporter's state between scrapes. */
  class CustomCollector {
    var ports: seq<string>
    var oldPorts: seq<string>
    var success: int
    var info: string

    constructor ()
      ensures ports == [] && oldPorts == [] && success == 0 && info == "none"
    {
      ports := [];
      oldPorts := [];
      success := 0;
      info := "none";
    }

    /** run_sh: resets the ports and the info text, then parses a successful run's output. */
    method RunSh(outcome: RunOutcome)
      modifies this
      ensures (ports, success, info) == RunShResult(old(success), outcome)
      ensures oldPorts == old(oldPorts)
    {
      ports := [];
      info := "none";
      var status: int;
      var output: string;
      match outcome {
        case LaunchError(message) =>
          output := message;
          info := message;
          status := 1;
        case Exited(s, o) =>
          status := s;
          output := o;
      }
      if status == 0 {
        success := 1;
        ParseOutput(OutputLines(output));
      }
    }

    /** The parsing loop of run_sh over the lines after the header, appending to `ports`. */
    method ParseOutput(lines: seq<string>)
      requires ports == [] && info == "none" && success == 1
      modifies this`ports, this`info, this`success
      ensures var p := ParseLines(Classify(lines));
              && ports == p.ports
              && (p.error.None? ==> success == 1 && info == "none")
              && (p.error.Some? ==> success == 0 && info == p.error.value)
    {
      ghost var rs := Classify(lines);
      var i := 0;
      while i < |lines|
        invariant 0 <= i <= |lines|
        invariant ParseLines(rs[..i]) == Parse(ports, None)
        invariant info == "none" && success == 1
      {
        var r := ParseLine(lines[i]);
        ParseStep(rs, i);
        match r {
          case Skip =>
          case Raise =>
            info := IndexErrorText;
            success := 0;
            ParseStops(rs, i + 1);
            return;
          case Port(port) =>
            ports := ports + [port];
        }
        i := i + 1;
      }
      assert rs[..i] == rs;
    }

    /**
     * collect: scrapes once, then reports every current port with value 1
     * and every port that has gone since the previous scrape with value 0.
     * The job sample carries the info text and the success flag.
     */
    method Collect(outcome: RunOutcome) returns (job: (string, int), current: seq<Sample>, lost: set<Sample>)
      modifies this
      ensures (ports, success, info) == RunShResult(old(success), outcome)
      ensures oldPorts == ports
      ensures job == (info, success)
      ensures (current, lost) == Report(old(oldPorts), ports)
    {
      RunSh(outcome);
      var lostPorts := (set p | p in oldPorts) - (set p | p in ports);
      oldPorts := ports;
      job := (info, success);
      current := CurrentSamples(ports);
      lost := set p | p in lostPorts :: Sample(p, 0);
      ghost var report := Report(old(oldPorts), ports);
      assert current == report.0;
      assert forall x :: x in lost <==> x.value == 0 && x.port in old(oldPorts) && x.port !in ports;
      assert lost == report.1;
    }
  }

  /** One more line of the parsing loop. */
  lemma ParseStep(rs: seq<LineResult>, i: nat)
    requires i < |rs|
    ensures ParseLines(rs[..i + 1]) ==
      var p := ParseLines(rs[..i]);
      if p.error.Some? then p
      else match rs[i]
        case Skip => p
        case Raise => p.(error := Some(IndexErrorText))
        case Port(port) => p.(ports := p.ports + [port])
  {
    assert rs[..i + 1][..i] == rs[..i];
  }

  /** Once a line raised, later lines are not looked at. */
  lemma {:induction false} ParseStops(rs: seq<LineResult>, n: nat)
    requires n <= |rs| && ParseLines(rs[..n]).error.Some?
    ensures ParseLines(rs) == ParseLines(rs[..n])
    decreases |rs| - n
  {
    if n < |rs| {
      assert rs[..n + 1][..n] == rs[..n];
      ParseStops(rs, n + 1);
    } else {
      assert rs[..n] == rs;
    }
  }

  /** Parsing two runs of lines one after the other: the second run is parsed only when the first did not raise. */
  lemma {:induction false} ParseAppend(a: seq<LineResult>, b: seq<LineResult>)
    ensures ParseLines(a).error.Some? ==> ParseLines(a + b) == ParseLines(a)
    ensures ParseLines(a).error.None? ==>
      ParseLines(a + b) == Parse(ParseLines(a).ports + ParseLines(b).ports, ParseLines(b).error)
    decreases |b|
  {
    if b == [] {
      assert a + b == a;
    } else {
      var b' := b[..|b| - 1];
      assert (a + b)[..|a + b| - 1] == a + b';
      assert (a + b)[|a + b| - 1] == b[|b| - 1];
      ParseAppend(a, b');
      if ParseLines(a).error.None? && ParseLines(b').error.None? && b[|b| - 1].Port? {
        Assoc(ParseLines(a).ports, ParseLines(b').ports, [b[|b| - 1].text]);
      }
    }
  }

  /** Parsing raises exactly when some line has more than three fields and a `:`-less fourth one. */
  lemma {:induction false} ParseRaises(rs: seq<LineResult>)
    ensures ParseLines(rs).error.Some? <==> exists i :: 0 <= i < |rs| && rs[i].Raise?
  {
    if rs != [] {
      var init := rs[..|rs| - 1];
      ParseRaises(init);
      assert forall i :: 0 <= i < |init| ==> init[i] == rs[i];
    }
  }

  /**
   * A line that raises ends the parse: the ports of the earlier lines are
   * kept and the error text is the IndexError's.
   */
  lemma {:induction false} PortsBeforeError(rs: seq<LineResult>, i: nat)
    requires i < |rs| && rs[i].Raise?
    requires ParseLines(rs[..i]).error.None?
    ensures ParseLines(rs) == Parse(ParseLines(rs[..i]).ports, Some(IndexErrorText))
  {
    RaiseStep(rs, i);
    ParseStops(rs, i + 1);
  }

  /** The line that raises sets the error and keeps the ports. */
  lemma {:induction false} RaiseStep(rs: seq<LineResult>, i: nat)
    requires i < |rs| && rs[i].Raise?
    requires ParseLines(rs[..i]).error.None?
    ensures ParseLines(rs[..i + 1]) == Parse(ParseLines(rs[..i]).ports, Some(IndexErrorText))
  {
    var upto := rs[..i + 1];
    assert upto[..|upto| - 1] == rs[..i];
    assert upto[|upto| - 1].Raise?;
  }

  /** Every run_sh starts from no ports; only a zero exit status parses, and only it changes `success`. */
  lemma RunShCases(success: int, outcome: RunOutcome)
    ensures var (ports, success', info) := RunShResult(success, outcome);
      && (!(outcome.Exited? && outcome.status == 0) ==> ports == [] && success' == success)
      && (outcome.LaunchError? ==> info == outcome.message)
      && (outcome.Exited? && outcome.status != 0 ==> info == "none")
      && (outcome.Exited? && outcome.status == 0 ==>
            && (success' == 1 <==> info == "none")
            && (success' == 0 <==> info == IndexErrorText)
            && |ports| <= |OutputLines(outcome.output)|)
  {
  }

  /** An IPv4 listener's address yields its port. */
  lemma Ipv4Address(address: string)
    requires address == "0.0.0.0:22"
    ensures AddressPort(address) == Some("22")
  {
    assert address == "0.0.0.0" + [':'] + "22";
    SplitOnFirst("0.0.0.0", ':', "22");
    SplitOnNone("22", ':');
  }

  /**
   * An IPv6 listener's address yields the empty text: `[::]:22` splits on
   * `:` into `[`, the empty text, `]` and `22`.
   */
  lemma Ipv6Address(address: string)
    requires address == "[::]:22"
    ensures AddressPort(address) == Some("")
  {
    assert address == "[" + [':'] + ("" + [':'] + "]:22");
    SplitOnFirst("[", ':', "" + [':'] + "]:22");
    SplitOnFirst("", ':', "]:22");
  }
}

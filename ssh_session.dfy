/**
 * The per-line commit logic of the SSH proxy's interactive session. Remote
 * echo accumulates into `cmd` while the user is typing; a local Enter
 * reconstructs the command, logs it, applies the deny-list and resets the
 * line state. A `vi`/`fg` command switches logging off until the shell
 * prompt shows up again in the remote output.
 *
 * `LocalStep` and `RemoteStep` are the transitions on a `Tty` value; the
 * class `SshTty` carries the same state in fields and is proved to follow
 * them.
 */
module SshSession {
  import opened Wrappers
  import opened PyText
  import opened SshReconstruct

  /** Commands that are never forwarded. */
  const Unsupported: seq<string> := ["reboot", "shutdown", "init"]
  /** What is sent to the remote instead of a refused command's Enter. */
  const Refusal: string := "\rOperation is not supported!\r\n"
  /** Longest logged command. */
  const MaxLogged: nat := 200

  /** Python's `pat in s` for a one-character pattern is membership. */
  lemma OccursSingle(s: string, c: char)
    ensures Occurs(s, [c]) <==> c in s
  {
    if c in s {
      var i :| 0 <= i < |s| && s[i] == c;
      assert s[i..i + 1] == [c];
      assert OccursAt(s, [c], i);
    }
    if Occurs(s, [c]) {
      var i :| 0 <= i <= |s| && OccursAt(s, [c], i);
      assert s[i] == s[i..i + 1][0];
    }
  }

  /** is_output: the chunk contains one of `\n`, `\r`, `\r\n`; the third test adds nothing. */
  function IsOutput(x: string): (b: bool)
    ensures b <==> '\n' in x || '\r' in x
  {
    OccursSingle(x, '\n');
    OccursSingle(x, '\r');
    assert Occurs(x, "\r\n") ==> '\r' in x by {
      if Occurs(x, "\r\n") {
        var i :| 0 <= i <= |x| && OccursAt(x, "\r\n", i);
        assert x[i] == x[i..i + 2][0];
      }
    }
    Occurs(x, "\n") || Occurs(x, "\r") || Occurs(x, "\r\n")
  }

  /** A local chunk that commits the line. */
  predicate IsCommitKey(x: string) {
    x == "\r" || x == "\n" || x == "\r\n"
  }

  // ---------------------------------------------------------------------------
  // The shell-prompt pattern `\[.*@.*\][\$#]`
  // ---------------------------------------------------------------------------

  /** No line break in `s[lo..hi]`: `.` does not match `\n`. */
  predicate NoBreak(s: string, lo: int, hi: int)
    requires 0 <= lo <= hi <= |s|
  {
    forall m :: lo <= m < hi ==> s[m] != '\n'
  }

  /** A match of the prompt pattern with `[` at `i`, `@` at `j`, `]` at `k` and the sigil after it. */
  predicate PromptAt(s: string, i: int, j: int, k: int) {
    && 0 <= i < j < k && k + 1 < |s|
    && s[i] == '[' && s[j] == '@' && s[k] == ']' && (s[k + 1] == '$' || s[k + 1] == '#')
    && NoBreak(s, i, k + 2)
  }

  /** `re.search` of the prompt pattern succeeds. */
  predicate PromptMatch(s: string) {
    exists i, j, k | 0 <= i < j < k < |s| :: PromptAt(s, i, j, k)
  }

  /**
   * The scanner's state after a prefix: 0 nothing open, 1 a `[` on the
   * current line, 2 a `[` then an `@`, 3 as 2 and the last character is
   * `]`, 4 a match was found.
   */
  function PromptStep(q: nat, c: char): (q': nat)
    requires q <= 4
    ensures q' <= 4
  {
    if q == 4 then 4
    else if c == '\n' then 0
    else if q == 0 then (if c == '[' then 1 else 0)
    else if q == 1 then (if c == '@' then 2 else 1)
    else if q == 2 then (if c == ']' then 3 else 2)
    else if c == '$' || c == '#' then 4
    else if c == ']' then 3
    else 2
  }

  function PromptState(s: string): (q: nat)
    ensures q <= 4
  {
    if s == [] then 0 else PromptStep(PromptState(s[..|s| - 1]), s[|s| - 1])
  }

  /** The scanner used for `ps1_pattern.search(vim_data)`. */
  predicate PromptSeen(s: string) {
    PromptState(s) == 4
  }

  /** A `[` on the current line, no line break after it. */
  predicate Open1(s: string) {
    exists i :: 0 <= i < |s| && s[i] == '[' && NoBreak(s, i, |s|)
  }

  /** A `[` and a later `@` on the current line. */
  predicate Open2(s: string) {
    exists i, j :: 0 <= i < j < |s| && s[i] == '[' && s[j] == '@' && NoBreak(s, i, |s|)
  }

  /** As `Open2` before the last character, which is `]`. */
  predicate Open3(s: string) {
    |s| >= 1 && s[|s| - 1] == ']' && Open2(s[..|s| - 1])
  }

  /** What each scanner state means about the prefix read so far. */
  predicate StateMeaning(s: string, q: nat) {
    && (q == 4 <==> PromptMatch(s))
    && (q < 4 ==> (q >= 1 <==> Open1(s)) && (q >= 2 <==> Open2(s)) && (q == 3 <==> Open3(s)))
  }

  /** The scanner decides the prompt pattern. */
  lemma PromptSeenMatches(s: string)
    ensures PromptSeen(s) <==> PromptMatch(s)
  {
    PromptStateMeaning(s);
  }

  lemma {:induction false} PromptStateMeaning(s: string)
    ensures StateMeaning(s, PromptState(s))
    decreases |s|
  {
    if s == [] {
    } else {
      var p := s[..|s| - 1];
      PromptStateMeaning(p);
      PromptStepMeaning(p, s[|s| - 1], PromptState(p));
      assert p + [s[|s| - 1]] == s;
    }
  }

  lemma PromptStepMeaning(p: string, c: char, q: nat)
    requires q <= 4 && StateMeaning(p, q)
    ensures StateMeaning(p + [c], PromptStep(q, c))
  {
    var s := p + [c];
    assert s[..|p|] == p;
    MatchExtends(p, c);
    if q < 4 {
      Open1Step(p, c);
      Open2Step(p, c);
      Open3Step(p, c);
      MatchStep(p, c);
    }
  }

  /** A match in the prefix is a match in the extension. */
  lemma MatchExtends(p: string, c: char)
    ensures PromptMatch(p) ==> PromptMatch(p + [c])
  {
    if PromptMatch(p) {
      var i, j, k :| 0 <= i < j < k < |p| && PromptAt(p, i, j, k);
      var s := p + [c];
      assert forall m :: 0 <= m < |p| ==> s[m] == p[m];
      assert PromptAt(s, i, j, k);
    }
  }

  lemma Open1Step(p: string, c: char)
    ensures Open1(p + [c]) <==> c != '\n' && (c == '[' || Open1(p))
  {
    var s := p + [c];
    assert forall m :: 0 <= m < |p| ==> s[m] == p[m];
    if Open1(s) {
      var i :| 0 <= i < |s| && s[i] == '[' && NoBreak(s, i, |s|);
      assert s[|p|] == c;
      if i < |p| {
        assert 0 <= i < |p| && p[i] == '[' && NoBreak(p, i, |p|);
      }
    }
    if c != '\n' && c == '[' {
      assert s[|p|] == '[' && NoBreak(s, |p|, |s|);
    }
    if c != '\n' && Open1(p) {
      var i :| 0 <= i < |p| && p[i] == '[' && NoBreak(p, i, |p|);
      assert s[i] == '[' && NoBreak(s, i, |s|);
    }
  }

  lemma Open2Step(p: string, c: char)
    ensures Open2(p + [c]) <==> c != '\n' && (Open2(p) || (c == '@' && Open1(p)))
  {
    var s := p + [c];
    assert forall m :: 0 <= m < |p| ==> s[m] == p[m];
    if Open2(s) {
      var i, j :| 0 <= i < j < |s| && s[i] == '[' && s[j] == '@' && NoBreak(s, i, |s|);
      assert s[|p|] == c;
      if j < |p| {
        assert 0 <= i < j < |p| && p[i] == '[' && p[j] == '@' && NoBreak(p, i, |p|);
      } else {
        assert 0 <= i < |p| && p[i] == '[' && NoBreak(p, i, |p|);
      }
    }
    if c != '\n' && Open2(p) {
      var i, j :| 0 <= i < j < |p| && p[i] == '[' && p[j] == '@' && NoBreak(p, i, |p|);
      assert s[i] == '[' && s[j] == '@' && NoBreak(s, i, |s|);
    }
    if c != '\n' && c == '@' && Open1(p) {
      var i :| 0 <= i < |p| && p[i] == '[' && NoBreak(p, i, |p|);
      assert s[i] == '[' && s[|p|] == '@' && NoBreak(s, i, |s|);
    }
  }

  lemma Open3Step(p: string, c: char)
    ensures Open3(p + [c]) <==> c == ']' && Open2(p)
  {
    var s := p + [c];
    assert s[..|s| - 1] == p;
  }

  lemma MatchStep(p: string, c: char)
    requires !PromptMatch(p)
    ensures PromptMatch(p + [c]) <==> (c == '$' || c == '#') && Open3(p)
  {
    var s := p + [c];
    assert forall m :: 0 <= m < |p| ==> s[m] == p[m];
    if PromptMatch(s) {
      var i, j, k :| 0 <= i < j < k < |s| && PromptAt(s, i, j, k);
      if k + 1 < |p| {
        assert PromptAt(p, i, j, k);
      }
      assert k + 1 == |p|;
      var q := p[..|p| - 1];
      assert 0 <= i < j < |q| && q[i] == '[' && q[j] == '@' && NoBreak(q, i, |q|);
    }
    if (c == '$' || c == '#') && Open3(p) {
      var q := p[..|p| - 1];
      var i, j :| 0 <= i < j < |q| && q[i] == '[' && q[j] == '@' && NoBreak(q, i, |q|);
      assert PromptAt(s, i, j, |p| - 1);
    }
  }

  // ---------------------------------------------------------------------------
  // remove_control_char and deal_command
  // ---------------------------------------------------------------------------

  /** A command that opens a full-screen program whose output must not be logged. */
  predicate StartsFullScreen(t: string) {
    StartsWith(t, "vi") || StartsWith(t, "fg")
  }

  /**
   * The `vim_flag` logic of remove_control_char around the filtered text:
   * the text that comes out, and the new flag.
   */
  function Suppress(vimFlag: bool, filtered: string): (string, bool) {
    if vimFlag then ("", true) else (filtered, StartsFullScreen(filtered))
  }

  /** The state the commit logic keeps between chunks. */
  datatype Tty = Tty(cmd: string, inputMode: bool, vimFlag: bool, vimData: string)

  /** What a local chunk leads to: text sent to the remote and an optional log line, the end of the session, or an uncaught IndexError. */
  datatype LocalOutcome = Forward(sent: string, log: Option<string>) | Closed | Crashed

  /** What a remote chunk leads to: the text shown to the user, or the end of the session. */
  datatype RemoteOutcome = Shown(text: string) | SessionClosed

  /** The log line `"%s %s %s" % (user, ip, cmd)`. */
  function LogLine(user: string, ip: string, cmd: string): string {
    user + " " + ip + " " + cmd
  }

  /** The transition on a chunk read from the remote channel. */
  function RemoteStep(st: Tty, x: string): (Tty, RemoteOutcome) {
    if x == [] then (st, SessionClosed)
    else
      var data := if st.vimFlag then st.vimData + x else st.vimData;
      var cmd := if st.inputMode && !IsOutput(x) then st.cmd + x else st.cmd;
      (st.(cmd := cmd, vimData := data), Shown(x))
  }

  /**
   * The transition on a chunk read from the user's terminal. `filter`
   * stands for the control-sequence regex substitution of remove_control_char.
   */
  function LocalStep(user: string, ip: string, filter: string -> string, st: Tty, x: string): (Tty, LocalOutcome) {
    if IsCommitKey(x) then Commit(user, ip, filter, st, x, Replayed(st.cmd))
    else if x == [] then (st.(inputMode := true), Closed)
    else (st.(inputMode := true), Forward(x, None))
  }

  /**
   * The commit transition, given what the replay of `st.cmd` gave: the
   * full-screen flag is cleared at a prompt, the command is filtered,
   * capped and logged, the deny-list applied and the line state reset.
   */
  function Commit(user: string, ip: string, filter: string -> string, st: Tty, x: string, replay: Option<string>): (Tty, LocalOutcome) {
    var flag := if st.vimFlag && PromptSeen(st.vimData) then false else st.vimFlag;
    match replay
    case None => (st.(inputMode := true, vimFlag := flag), Crashed)
    case Some(c) =>
      var (t, flag') := Suppress(flag, filter(Strip(c)));
      var logged := Prefix(t, MaxLogged);
      var sent := if logged in Unsupported then Refusal else x;
      (Tty("", false, flag', ""), Forward(sent, if |logged| > 0 then Some(LogLine(user, ip, logged)) else None))
  }

  /** The commit of a line whose replay succeeded, spelled out. */
  lemma CommitReplayed(user: string, ip: string, filter: string -> string, st: Tty, x: string, c: string)
    ensures var flag := if st.vimFlag && PromptSeen(st.vimData) then false else st.vimFlag;
            var (t, flag') := Suppress(flag, filter(Strip(c)));
            var logged := Prefix(t, MaxLogged);
            Commit(user, ip, filter, st, x, Some(c)) ==
              (Tty("", false, flag', ""),
               Forward(if logged in Unsupported then Refusal else x, if |logged| > 0 then Some(LogLine(user, ip, logged)) else None))
  {
  }

  /** The commit does not depend on whether the line was already in input mode. */
  lemma CommitIgnoresMode(user: string, ip: string, filter: string -> string, st: Tty, x: string, replay: Option<string>)
    ensures Commit(user, ip, filter, st.(inputMode := true), x, replay) == Commit(user, ip, filter, st, x, replay)
  {
  }

  /** The session object: the same state, in fields, updated by the two event methods. */
  class SshTty {
    const user: string
    const ip: string
    /** The control-sequence regex substitution, left uninterpreted. */
    const controlFilter: string -> string
    var cmd: string
    var inputMode: bool
    var vimFlag: bool
    var vimData: string

    function State(): Tty
      reads this
    {
      Tty(cmd, inputMode, vimFlag, vimData)
    }

    constructor(user: string, ip: string, controlFilter: string -> string)
      ensures this.user == user && this.ip == ip && this.controlFilter == controlFilter
      ensures State() == Tty("", false, false, "")
    {
      this.user := user;
      this.ip := ip;
      this.controlFilter := controlFilter;
      cmd := "";
      inputMode := false;
      vimFlag := false;
      vimData := "";
    }

    /** remove_control_char: filters the stripped text, then applies the `vim_flag` logic. */
    method RemoveControlChar(r: string) returns (t: string)
      modifies this`vimFlag
      ensures (t, vimFlag) == Suppress(old(vimFlag), controlFilter(Strip(r)))
    {
      t := controlFilter(Strip(r));
      if !vimFlag {
        if StartsWith(t, "vi") || StartsWith(t, "fg") {
          vimFlag := true;
        }
      } else {
        t := "";
      }
    }

    /** deal_command: the replay, then remove_control_char; `None` when the replay raised IndexError. */
    method DealCommand(raw: string) returns (r: Option<string>)
      modifies this`vimFlag
      ensures Replayed(raw).None? ==> r.None? && vimFlag == old(vimFlag)
      ensures Replayed(raw).Some? ==>
                r.Some? && (r.value, vimFlag) == Suppress(old(vimFlag), controlFilter(Strip(Replayed(raw).value)))
    {
      var c := ReplayLineEdits(raw);
      if c.None? {
        return None;
      }
      var t := RemoveControlChar(c.value);
      return Some(t);
    }

    /** A chunk from the remote channel; the empty chunk means the session closed. */
    method OnRemoteChunk(x: string) returns (o: RemoteOutcome)
      modifies this
      ensures (State(), o) == RemoteStep(old(State()), x)
    {
      if |x| == 0 {
        return SessionClosed;
      }
      if vimFlag {
        vimData := vimData + x;
      }
      if inputMode && !IsOutput(x) {
        cmd := cmd + x;
      }
      return Shown(x);
    }

    /** A chunk from the user's terminal. */
    method OnLocalChunk(x: string) returns (o: LocalOutcome)
      modifies this
      ensures (State(), o) == LocalStep(user, ip, controlFilter, old(State()), x)
    {
      ghost var st := State();
      ghost var replay := Replayed(cmd);
      inputMode := true;
      if x == "\r" || x == "\n" || x == "\r\n" {
        CommitIgnoresMode(user, ip, controlFilter, st, x, replay);
        o := CommitLine(x);
        return;
      }
      if |x| == 0 {
        return Closed;
      }
      return Forward(x, None);
    }

    /** The commit branch of the terminal handler, once input mode is on. */
    method CommitLine(x: string) returns (o: LocalOutcome)
      requires IsCommitKey(x) && inputMode
      modifies this
      ensures (State(), o) == Commit(user, ip, controlFilter, old(State()), x, Replayed(old(cmd)))
    {
      ghost var st := State();
      ghost var replay := Replayed(cmd);
      if vimFlag && PromptSeen(vimData) {
        vimFlag := false;
      }
      ghost var flag := vimFlag;
      var c := DealCommand(cmd);
      if c.None? {
        assert replay.None? && vimFlag == flag;
        assert State() == Tty(st.cmd, true, flag, st.vimData);
        return Crashed;
      }
      assert replay == Some(replay.value);
      CommitReplayed(user, ip, controlFilter, st, x, replay.value);
      o := LogAndReset(x, c.value);
    }

    /** The end of a commit: cut the reconstruction to 200 characters, log it, refuse a denied command, and clear the line state. */
    method LogAndReset(x: string, t: string) returns (o: LocalOutcome)
      modifies this`cmd, this`vimData, this`inputMode
      ensures var logged := Prefix(t, MaxLogged);
              cmd == "" && vimData == "" && !inputMode &&
              o == Forward(if logged in Unsupported then Refusal else x,
                           if |logged| > 0 then Some(LogLine(user, ip, logged)) else None)
    {
      cmd := Prefix(t, MaxLogged);
      var log: Option<string> := None;
      if |cmd| > 0 {
        log := Some(LogLine(user, ip, cmd));
      }
      var sent := x;
      if cmd in Unsupported {
        sent := Refusal;
      }
      cmd := "";
      vimData := "";
      inputMode := false;
      return Forward(sent, log);
    }
  }
}

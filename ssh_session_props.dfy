/**
 * What the commit logic promises: the line state is reset at every
 * commit, log lines name a reconstructed command of at most 200
 * characters, deny-listed commands are refused, logging is suppressed
 * while a full-screen program runs and resumes only once the shell prompt
 * is seen, and the command buffer is built from the remote echo only.
 */
module SshSessionProps {
  import opened Wrappers
  import opened PyText
  import opened SshReconstruct
  import opened SshSession

  /** The filtered reconstruction, before suppression, of a line whose replay succeeds. */
  function Filtered(filter: string -> string, raw: string): string
    requires Replayed(raw).Some?
  {
    filter(Strip(Replayed(raw).value))
  }

  /** A commit whose replay succeeds empties the line state and forwards either the Enter or the refusal. */
  lemma CommitResets(user: string, ip: string, filter: string -> string, st: Tty, x: string)
    requires IsCommitKey(x) && Replayed(st.cmd).Some?
    ensures var (st', o) := LocalStep(user, ip, filter, st, x);
            && st'.cmd == "" && st'.vimData == "" && !st'.inputMode
            && o.Forward? && (o.sent == x || o.sent == Refusal)
  {
  }

  /** A commit whose replay raises IndexError ends the session with the line state untouched. */
  lemma CommitCrash(user: string, ip: string, filter: string -> string, st: Tty, x: string)
    requires IsCommitKey(x) && Replayed(st.cmd).None?
    ensures var (st', o) := LocalStep(user, ip, filter, st, x);
            o == Crashed && st'.cmd == st.cmd && st'.vimData == st.vimData && st'.inputMode
  {
  }

  /**
   * A log line is written only at a commit, only when logging is not
   * suppressed, and it names the filtered reconstruction cut to 200
   * characters, which is not empty.
   */
  lemma LogLineShape(user: string, ip: string, filter: string -> string, st: Tty, x: string)
    ensures var (st', o) := LocalStep(user, ip, filter, st, x);
            o.Forward? && o.log.Some? ==>
              && IsCommitKey(x) && Replayed(st.cmd).Some?
              && !(st.vimFlag && !PromptSeen(st.vimData))
              && var logged := Prefix(Filtered(filter, st.cmd), MaxLogged);
                 logged != [] && o.log.value == LogLine(user, ip, logged)
  {
    if IsCommitKey(x) {
      var replay := Replayed(st.cmd);
      CommitLogShape(user, ip, filter, st, x, replay);
      assert replay.Some? ==> Filtered(filter, st.cmd) == filter(Strip(replay.value));
    }
  }

  /** `LogLineShape` for a given outcome of the replay. */
  lemma CommitLogShape(user: string, ip: string, filter: string -> string, st: Tty, x: string, replay: Option<string>)
    ensures var (st', o) := Commit(user, ip, filter, st, x, replay);
            o.Forward? && o.log.Some? ==>
              && replay.Some?
              && !(st.vimFlag && !PromptSeen(st.vimData))
              && var logged := Prefix(filter(Strip(replay.value)), MaxLogged);
                 logged != [] && o.log.value == LogLine(user, ip, logged)
  {
    var (st', o) := Commit(user, ip, filter, st, x, replay);
    if replay.Some? {
      var flag := if st.vimFlag && PromptSeen(st.vimData) then false else st.vimFlag;
      var t := filter(Strip(replay.value));
      var (u, flag') := Suppress(flag, t);
      var logged := Prefix(u, MaxLogged);
      assert o.log == if |logged| > 0 then Some(LogLine(user, ip, logged)) else None;
      if o.log.Some? {
        assert !flag && u == t;
      }
    }
  }

  /** An unsuppressed commit whose filtered command is non-empty is logged, cut to 200 characters. */
  lemma CommitLogged(user: string, ip: string, filter: string -> string, st: Tty, x: string)
    requires IsCommitKey(x) && Replayed(st.cmd).Some?
    requires !st.vimFlag || PromptSeen(st.vimData)
    requires Filtered(filter, st.cmd) != []
    ensures var (st', o) := LocalStep(user, ip, filter, st, x);
            o.Forward? && o.log == Some(LogLine(user, ip, Prefix(Filtered(filter, st.cmd), MaxLogged)))
  {
  }

  /** The refusal replaces exactly the Enter of a deny-listed command; everything else is forwarded as typed. */
  lemma DenyList(user: string, ip: string, filter: string -> string, st: Tty, x: string)
    requires x != [] && (IsCommitKey(x) ==> Replayed(st.cmd).Some?)
    ensures var (st', o) := LocalStep(user, ip, filter, st, x);
            && o.Forward?
            && (!IsCommitKey(x) ==> o.sent == x && o.log.None?)
            && (IsCommitKey(x) ==>
                  var flag := st.vimFlag && !PromptSeen(st.vimData);
                  var logged := Prefix(Suppress(flag, Filtered(filter, st.cmd)).0, MaxLogged);
                  (o.sent == Refusal <==> logged in Unsupported) && (o.sent != Refusal ==> o.sent == x))
  {
  }

  /** While a full-screen program runs and the prompt has not been seen, a commit logs nothing and the flag stays. */
  lemma SuppressedWhileFullScreen(user: string, ip: string, filter: string -> string, st: Tty, x: string)
    requires st.vimFlag && !PromptSeen(st.vimData)
    ensures var (st', o) := LocalStep(user, ip, filter, st, x);
            st'.vimFlag && (o.Forward? ==> o.log.None?)
  {
  }

  /** A `vi` or `fg` command sets the flag, and is itself still logged. */
  lemma FullScreenCommandLogged(user: string, ip: string, filter: string -> string, st: Tty, x: string)
    requires IsCommitKey(x) && Replayed(st.cmd).Some? && !st.vimFlag
    requires StartsFullScreen(Filtered(filter, st.cmd))
    ensures var (st', o) := LocalStep(user, ip, filter, st, x);
            st'.vimFlag && o.Forward? && o.log == Some(LogLine(user, ip, Prefix(Filtered(filter, st.cmd), MaxLogged)))
  {
  }

  /** The flag is cleared only at a commit, and only when the remote output since the last commit matched the prompt pattern. */
  lemma FlagClearedOnlyAtPrompt(user: string, ip: string, filter: string -> string, st: Tty, x: string)
    requires st.vimFlag
    ensures !LocalStep(user, ip, filter, st, x).0.vimFlag ==> IsCommitKey(x) && PromptMatch(st.vimData)
    ensures RemoteStep(st, x).0.vimFlag
  {
    PromptSeenMatches(st.vimData);
  }

  /** A remote chunk is appended to the command buffer exactly when typing has begun and it carries no CR or LF. */
  lemma RemoteAppends(st: Tty, x: string)
    requires x != []
    ensures var (st', o) := RemoteStep(st, x);
            && o == Shown(x)
            && (st'.cmd == st.cmd + x <==> st.inputMode && '\n' !in x && '\r' !in x)
            && (st'.cmd == st.cmd || st'.cmd == st.cmd + x)
            && st'.inputMode == st.inputMode && st'.vimFlag == st.vimFlag
  {
    assert |st.cmd + x| > |st.cmd|;
  }

  // ---------------------------------------------------------------------------
  // Over a whole line of events
  // ---------------------------------------------------------------------------

  datatype Event = FromRemote(text: string) | FromUser(text: string)

  /** The state after one event. */
  function Step(user: string, ip: string, filter: string -> string, st: Tty, e: Event): Tty {
    match e
    case FromRemote(x) => RemoteStep(st, x).0
    case FromUser(x) => LocalStep(user, ip, filter, st, x).0
  }

  /** The state after a sequence of events. */
  function Run(user: string, ip: string, filter: string -> string, st: Tty, evs: seq<Event>): Tty
    decreases |evs|
  {
    if evs == [] then st else Run(user, ip, filter, Step(user, ip, filter, st, evs[0]), evs[1..])
  }

  /** An event that stays inside the current line: non-empty, and not a local Enter. */
  predicate InLine(e: Event) {
    e.text != [] && !(e.FromUser? && IsCommitKey(e.text))
  }

  predicate WithinLine(evs: seq<Event>) {
    forall k :: 0 <= k < |evs| ==> InLine(evs[k])
  }

  /** The text an event adds to the command buffer once typing has begun. */
  function EchoOf(e: Event): string {
    if e.FromRemote? && !IsOutput(e.text) then e.text else []
  }

  /** The remote chunks of `evs` that carry no CR or LF, concatenated. */
  function Echoed(evs: seq<Event>): string {
    if evs == [] then [] else EchoOf(evs[0]) + Echoed(evs[1..])
  }

  lemma StepInLine(user: string, ip: string, filter: string -> string, st: Tty, e: Event)
    requires st.inputMode && InLine(e)
    ensures Step(user, ip, filter, st, e).cmd == st.cmd + EchoOf(e)
    ensures Step(user, ip, filter, st, e).inputMode
  {
    if e.FromUser? {
      assert st.cmd + [] == st.cmd;
    } else if IsOutput(e.text) {
      assert st.cmd + [] == st.cmd;
    }
  }

  /**
   * Once typing has begun, the command buffer at the end of a line is what
   * it was plus the echoed remote chunks; no keystroke reaches it directly.
   */
  lemma {:induction false} BufferIsEcho(user: string, ip: string, filter: string -> string, st: Tty, evs: seq<Event>)
    requires st.inputMode && WithinLine(evs)
    ensures Run(user, ip, filter, st, evs).cmd == st.cmd + Echoed(evs)
    ensures Run(user, ip, filter, st, evs).inputMode
    decreases |evs|
  {
    if evs == [] {
      assert st.cmd + [] == st.cmd;
    } else {
      var st' := Step(user, ip, filter, st, evs[0]);
      StepInLine(user, ip, filter, st, evs[0]);
      assert WithinLine(evs[1..]) by {
        assert forall k :: 0 <= k < |evs| - 1 ==> evs[1..][k] == evs[k + 1];
      }
      BufferIsEcho(user, ip, filter, st', evs[1..]);
      assert st.cmd + EchoOf(evs[0]) + Echoed(evs[1..]) == st.cmd + (EchoOf(evs[0]) + Echoed(evs[1..]));
    }
  }
}

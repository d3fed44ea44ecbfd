# Operations toolbox: verified model of its core

This project models four scripts of an operations toolbox in Dafny and proves properties about them.

- **SSH audit proxy.** The proxy relays a terminal session to a remote host and logs each command line the user commits. It does not see keystrokes. It reconstructs the command from the remote shell's *echo* of the line, replaying the line editing that shows in that echo:
  - backspaces;
  - Erase in Line, `ESC [ K` (section 8.3.41 of ECMA-48);
  - Insert Character, `ESC [ 1 @` (section 8.3.64 of ECMA-48).

  A full-screen program (`vi…`, `fg…`) suppresses logging until a shell prompt is seen again. A small deny-list replaces `reboot`, `shutdown` and `init` with a refusal. Batch execution dispatches the deduplicated hosts in pools of two.
- **Terminal snake game.** Direction filtering, head advance, grow or drop the tail, collision, and score/high score.
- **Alert webhook.** It formats Alertmanager and Grafana payloads into chat messages and hands them to a notification service.
- **Listening-port exporter.** It parses `ss -ntl` output and reports the ports that are listening and those that were lost since the previous scrape.

## Modules

- `Wrappers`: `Option`.
- `SeqFacts`: small sequence identities.
- `PyText`: Python's string operations as the source uses them. It covers `strip`, negative-index slicing, `split`, `split()`, `startswith` and `str(n)`.
- `SshReconstruct`: the reconstructor (`ssh.py`, 95-224).
  - The pre-pass `RemoveObstructChar`.
  - The priority-ordered tokenizer `NextLexeme`/`Lex`.
  - The splices `DealBackspace` and `DealReplaceChar`.
  - The loop `ReplayLineEdits`, proved equal to `Replayed`. `Replayed` is the editing state machine `Apply` over the lexemes, followed by `Finish`.
- `SshPrePassProps`: what the pre-pass removes and what it keeps.
- `SshReplayProps`: what the reconstructor does to typical edits.
- `SshSession`: the per-line commit logic of the proxy (`ssh.py`, 140-161 and 371-418).
  - The pure transitions are `RemoteStep` and `LocalStep`. A commit goes through `Commit`, which takes the replay's result as a parameter.
  - The class `SshTty` holds `cmd`, `inputMode`, `vimFlag` and `vimData` as fields. Its methods `OnRemoteChunk` and `OnLocalChunk` are proved against those transitions.
  - The prompt regex `\[.*@.*\][\$#]` is decided by a small scanner, proved equivalent to the regex's meaning.
- `SshSessionProps`: properties of the commit logic.
- `SshBatch`: `run_cmd`'s batching (`ssh.py`, 491-515).
- `SnakeGame`: the game rules (`snake.py`).
- `Webhook`, `WebhookProps`: the alert handlers (`flask_webhook.py`).
- `PortExporter`: the exporter (`net_port_exporter.py`).

## Model

| member | source | states |
|---|---|---|
| SshSession.IsOutput | ssh.py:85-93 | true exactly when the chunk contains a line feed or a carriage return |
| SshReconstruct.RemoveNoise | ssh.py:98-99 | the result has no BEL and no CR and is no longer than the input |
| SshReconstruct.DropCursorPairs | ssh.py:100-102 | the result contains no backspace/cursor-right pair; every pass shortens the text, so the loop ends |
| SshReconstruct.RemoveObstruct | ssh.py:95-103 | the pre-pass output has no BEL, no CR and no backspace/cursor-right pair |
| SshReconstruct.RemoveObstructChar | ssh.py:95-103 | the rewrite loop computes `RemoveObstruct` and leaves no BEL, CR or cancelling pair |
| SshReconstruct.WordRunLength | ssh.py:174 | length of the `\s*\w+\s*` match at the front: non-zero exactly when a word character follows the leading spaces |
| SshReconstruct.ClearLineLength | ssh.py:184 | length of the `\x1b[K\x08*` match: the erase sequence followed only by backspaces |
| SshReconstruct.BackspaceRun | ssh.py:193 | length of the leading `\x08+` run |
| SshReconstruct.InsertRunLength | ssh.py:207 | length of the `(\x1b[1@\w)+` match: a multiple of five, non-zero exactly when one group is there |
| SshReconstruct.InsertRunGroups | ssh.py:207 | every five-character group of that match is an insert prefix and a word character |
| SshReconstruct.NextLexeme | ssh.py:173-218 | each iteration consumes a non-empty prefix of the input; the word rule is taken exactly when it matches |
| SshReconstruct.Lex | ssh.py:173-218 | the tokens concatenate back to the whole input, so the loop consumes everything |
| SshReconstruct.LexStep | ssh.py:173-218 | the token stream is the first token followed by the tokens of the rest |
| SshReconstruct.DealBackspace | ssh.py:105-120 | pending text is spliced at `len - n` with Python's slicing, then one character is dropped per trailing backspace; the whole match is consumed |
| SshReconstruct.InsertedChars | ssh.py:127-128 | the characters following each `\x1b[1@`, one per group |
| SshReconstruct.ReplaceSpec | ssh.py:122-138 | fails (IndexError) exactly when one character must go to a position the text does not have; otherwise it overwrites that position, or inserts there before a space, and consumes the whole match |
| SshReconstruct.DealReplaceChar | ssh.py:122-138 | the list splice computes `ReplaceSpec` |
| SshReconstruct.ReplayLineEdits | ssh.py:163-222 | the tokenizer/reconstructor loop computes `Replayed`, the editing state machine applied to the tokens |
| SshReplayProps.LexCleanPrefix | ssh.py:173-182 | text without backspaces or escapes is tokenized into word and single-character tokens only, leaving later tokens untouched |
| SshReplayProps.RunClean | ssh.py:173-218 | such text is appended to the command unchanged |
| SshReplayProps.ReplayCleanInput | ssh.py:167-222 | on input with no backspace, escape, BEL or CR, the reconstructed command is the stripped input |
| SshReplayProps.TrailingBackspacesIgnored | ssh.py:193-205 | a backspace run that ends the input leaves the command as it was |
| SshReplayProps.TrailingRunAnyState | ssh.py:193-205 | from any editing state, a backspace run that ends the tokens (after a token that is not itself a backspace run) leaves the state as it was |
| SshReplayProps.ReplayRegionThenTrailing | ssh.py:163-222 | a line, `n` backspaces, retyped text and a trailing backspace run reconstruct to the line without its last `n` characters followed by the new text: the open region is finished, not shortened |
| SshReplayProps.RegionTrailingExample | ssh.py:193-222 | `abc`, a backspace, `x`, a backspace reconstructs to `abx` |
| SshReplayProps.RegionSplicedAgain | ssh.py:198-221 | were the trailing run replayed like an inner one, the pending `x` would be spliced in and one more character dropped, giving `ab` |
| SshReplayProps.BackspaceThenText | ssh.py:193-221 | `n` backspaces then text replace the last `n` characters with that text |
| SshReplayProps.ReplayRetype | ssh.py:163-222 | a typed line, `n` backspaces and retyped text reconstruct to the line without its last `n` characters followed by the new text |
| SshReplayProps.ReplayRetypeExample | ssh.py:163-222 | `abc`, three backspaces, `xyz` reconstructs to `xyz` |
| SshReplayProps.EraseAfterBackspaces | ssh.py:106-191 | erase-in-line after `n` backspaces and text splices the text in at `len - n`, drops one more character per following backspace and resets the pending state |
| SshReplayProps.EraseExample | ssh.py:184-191 | `hello`, two backspaces, erase-in-line gives `hel` |
| SshReplayProps.InsertAfterBackspaces | ssh.py:122-212 | one inserted character after `n` backspaces overwrites position `len - n` (length kept) or is inserted before a space there, and the backspace count becomes 0 |
| SshReplayProps.ReplaceOne | ssh.py:122-138 | one inserted character at `n` backspaces from the end overwrites position `len - n`, or is inserted there before a space, consuming the five-character group |
| SshReplayProps.OverwriteExample | ssh.py:207-212 | `cat`, a backspace, insert `r` gives `car` |
| SshReplayProps.BackspaceAfterInsertRunWipes | ssh.py:198-211 | after an insert run resets the count while the backspace flag stays set, the next backspace run slices with `[0:-0]` and the command becomes only the pending text |
| SshReplayProps.WipeExample | ssh.py:198-221 | `abc`, backspace, insert `x`, backspace, `d` reconstructs to `d` |
| SshPrePassProps.RemoveObstructClean | ssh.py:95-103 | on input with no backspace, escape, BEL or CR the pre-pass only strips |
| SshPrePassProps.RemoveNoiseConcat | ssh.py:98-99 | the substitution works piecewise: splitting the text just before a BEL, CR or ESC splits the result |
| SshPrePassProps.RemoveNoiseDrops | ssh.py:98-99 | a BEL, a CR or an `ESC [ 1 P` between two texts is removed and nothing else around it changes |
| SshPrePassProps.RemoveNoisePlain | ssh.py:98-99 | text without BEL, CR or ESC is kept as it is |
| SshPrePassProps.RemoveNoiseEscape | ssh.py:98-99 | an ESC that does not start `ESC [ 1 P` is kept |
| SshPrePassProps.DropOnePair | ssh.py:100-102 | one backspace/cursor-right pair between texts without backspaces is removed and both texts are kept |
| SshPrePassProps.RemoveObstructPair | ssh.py:95-103 | on clean texts around one cancelling pair, the pre-pass gives the left text left-stripped followed by the right text right-stripped |
| SshPrePassProps.PrePassOneEscape | ssh.py:95-103 | an escape sequence other than `ESC [ 1 P` and cursor-right, between texts without BEL, CR or ESC, passes the pre-pass unchanged |
| SshSession.PromptSeenMatches | ssh.py:44 | the scanner reports a prompt exactly when `\[.*@.*\][\$#]` matches somewhere on one line of the text |
| SshSession.PromptStateMeaning | ssh.py:44 | each scanner state describes the text read so far |
| SshSession.SshTty.RemoveControlChar | ssh.py:140-161 | while the flag is set the text is dropped; otherwise a command starting with `vi` or `fg` sets it and is still returned |
| SshSession.SshTty.DealCommand | ssh.py:163-224 | the reconstructed command, filtered and suppressed; IndexError leaves the flag unchanged |
| SshSession.SshTty.OnRemoteChunk | ssh.py:371-391 | a chunk is shown, joins `vimData` while the flag is set, and joins `cmd` only in input mode when it has no CR or LF; an empty chunk ends the session |
| SshSession.SshTty.OnLocalChunk | ssh.py:393-418 | the commit transition: flag cleared at a prompt, command reconstructed and capped at 200, logged if non-empty, deny-list refusal, state reset |
| SshSession.SshTty.CommitLine | ssh.py:398-414 | a commit key: the flag is cleared at a prompt, and the line becomes `Commit` applied to what the replay of `cmd` gave; IndexError ends the session |
| SshSession.SshTty.LogAndReset | ssh.py:404-414 | the command is cut to 200 characters, logged as `user ip cmd` only if non-empty, replaced by the refusal if denied, and `cmd`, `vimData` and input mode are cleared |
| SshSession.CommitIgnoresMode | ssh.py:396-398 | setting input mode before the commit does not change what the commit does |
| SshSessionProps.CommitResets | ssh.py:404-414 | after a commit `cmd` and `vimData` are empty, input mode is off, and what is sent is the key or the refusal |
| SshSessionProps.CommitCrash | ssh.py:404 | when the replay raises IndexError the session ends and nothing is reset |
| SshSessionProps.LogLineShape | ssh.py:398-408 | a log line appears only at a commit whose replay succeeded outside full-screen mode, and it is user, address and the filtered reconstruction cut to 200 characters, non-empty |
| SshSessionProps.CommitLogShape | ssh.py:399-408 | whatever the replay gave, a logged commit had a replay, was outside full-screen mode, and logs user, address and the non-empty filtered command cut to 200 characters |
| SshSessionProps.CommitLogged | ssh.py:404-408 | a non-empty command outside full-screen mode is logged, truncated to 200 characters |
| SshSessionProps.DenyList | ssh.py:409-411 | the refusal is sent exactly when the logged command is `reboot`, `shutdown` or `init`; otherwise the chunk itself is sent |
| SshSessionProps.SuppressedWhileFullScreen | ssh.py:399-404 | while the flag is set and no prompt has been seen, nothing is logged and the flag stays |
| SshSessionProps.FullScreenCommandLogged | ssh.py:155-159 | the command that starts a full-screen program sets the flag and is itself logged |
| SshSessionProps.FlagClearedOnlyAtPrompt | ssh.py:399-402 | the flag is cleared only by a commit whose `vimData` matches the prompt pattern, never by a remote chunk |
| SshSessionProps.RemoteAppends | ssh.py:385-386 | a remote chunk is appended to `cmd` exactly when in input mode and it has no CR or LF |
| SshSessionProps.BufferIsEcho | ssh.py:371-418 | once a key has been typed (input mode on), up to the next commit the command buffer is what it was plus the CR/LF-free remote chunks, and input mode stays on |
| SshBatch.DefaultUser | ssh.py:493-496 | a given user is kept; otherwise `devops` if that is the login name, else `root` |
| SshBatch.Dedup | ssh.py:492 | the hosts without duplicates, each given host present |
| SshBatch.Pools | ssh.py:498-515 | consecutive pools of at most two jobs, all but the last full, together the whole job list |
| SshBatch.RunCmd | ssh.py:491-515 | the dispatch loop opens exactly those pools, in order |
| SshBatch.FillPool | ssh.py:502-509 | one pool takes the next two jobs, or those that are left |
| SshBatch.EveryHostOnce | ssh.py:491-515 | every given host is dispatched exactly once, with the same user, port and command |
| SnakeGame.FirstFree | snake.py:91-97 | the first candidate not on the snake, every earlier candidate being on it |
| SnakeGame.Snake.GenerateFood | snake.py:91-97 | the food is the first free candidate: in the interior and not on the snake |
| SnakeGame.Scored | snake.py:100-105 | the score rises by one; the high score is at least the score and changes only when the score exceeds it |
| SnakeGame.Snake.UpdateSideWin | snake.py:100-105 | updates score and high score as `Scored` says |
| SnakeGame.Snake.constructor | snake.py:153-163 | three adjacent cells with the head at `(h/2, w/4)` extending left, direction RIGHT, food placed |
| SnakeGame.Snake.Tick | snake.py:165-198 | one step: new direction; game over exactly on border or body collision; otherwise the head advances, and the snake grows and scores on food or drops its tail |
| SnakeGame.LinkedGrow | snake.py:186-195 | adding a head next to the old one keeps the snake connected, whether or not the tail is dropped |
| SnakeGame.AdvanceNear | snake.py:175-186 | the new head is adjacent to the old one, and moves exactly when the direction is an arrow |
| SnakeGame.AdvanceDirections | snake.py:175-186 | RIGHT is col+1, LEFT col-1, DOWN row+1, UP row-1 |
| SnakeGame.DirectionRule | snake.py:125-151 | the reverse arrow, no key, `p` and `q` keep the direction; a non-arrow direction never changes; any other key is adopted |
| SnakeGame.StrayKeyEndsGame | snake.py:165-186 | once the direction is not an arrow, the next step puts the head on the body |
| Webhook.HttpRequests | flask_webhook.py:12-39 | code 0 exactly for an HTTP 200 response, otherwise 1 |
| Webhook.ReliaoNotify | flask_webhook.py:42-49 | `"ok"` exactly when the service answered HTTP 200, else `"not ok"` |
| Webhook.Kept | flask_webhook.py:146-148 | the shown labels are exactly those not named `alertname`, `consul_address` or `consul_dc` |
| Webhook.KeptAppend | flask_webhook.py:146-149 | the label filter keeps the input order |
| Webhook.AppendLabels | flask_webhook.py:146-149 | the label loop appends the lines of the shown labels, in order |
| Webhook.MissingKey | flask_webhook.py:137-142 | an alert is complete exactly when labels, annotations, summary, description, startsAt and endsAt are all present |
| Webhook.AppendBlock | flask_webhook.py:143-152 | the lines one complete alert appends |
| Webhook.PrometheusAlerts | flask_webhook.py:127-166 | the handler's loops compute the messages of the `Prometheus` fold |
| Webhook.ScanFailedStays | flask_webhook.py:133 | an alert without `status` ends the handler with the messages sent so far |
| Webhook.GrafanaAlerts | flask_webhook.py:75-95 | the handler's loop computes `Grafana`: header lines then one line per match, or nothing if a key is missing |
| WebhookProps.Accepted | flask_webhook.py:132-153 | the counted alerts are exactly those whose status is the payload's and which are complete |
| WebhookProps.ScanMeaning | flask_webhook.py:130-157 | the loop fails exactly when some alert lacks `status`; otherwise count is the number of accepted alerts, the content their blocks in order, and the admin gets one notice per malformed alert |
| WebhookProps.StatusMissingSnoc | flask_webhook.py:133 | a list lacks a status exactly when its front does or its last alert does |
| WebhookProps.PrometheusOutcome | flask_webhook.py:159-166 | a notification is sent exactly when count > 0; it starts with `【告警通知】\n`; it ends with the closing remark exactly when count > 3 and the status is `firing` |
| WebhookProps.NoticeText | flask_webhook.py:159-165 | the notice starts with the title and ends in `!` exactly when the closing remark was added |
| WebhookProps.LabelsShown | flask_webhook.py:146-149 | every label not excluded contributes its `k = v` line, in order; excluded ones contribute nothing |
| WebhookProps.MatchLinesAppend | flask_webhook.py:90-91 | match lines keep the input order |
| WebhookProps.GrafanaSent | flask_webhook.py:76-94 | the notification is sent, to the requested user, exactly when `title`, `ruleName`, `state`, `message` and `evalMatches` are present and every match has `metric` and `value` |
| WebhookProps.GrafanaOutcome | flask_webhook.py:76-95 | with the top-level keys present, one more match keeps the notification exactly when it has both keys, and adds its `metric = value` line at the end |
| PortExporter.AddressPort | net_port_exporter.py:62 | the port is the second `:`-separated component and contains no `:`; None (the IndexError) exactly when there is no `:` |
| PortExporter.AddressPortOf | net_port_exporter.py:62 | for any address `head:port` followed by nothing or by `:`…, with no `:` in head or port, the result is that port |
| PortExporter.Ipv4Address | net_port_exporter.py:62 | `0.0.0.0:22` gives `22` |
| PortExporter.Ipv6Address | net_port_exporter.py:62 | `[::]:22` gives the empty text |
| PortExporter.LinePortCases | net_port_exporter.py:60-63 | a line is skipped exactly when it has at most three fields; it raises exactly when its fourth field has no `:`; otherwise it gives that field's `AddressPort` |
| PortExporter.ParseLine | net_port_exporter.py:60-63 | the line's split and lookup compute `LinePort`, whose cases `LinePortCases` states |
| PortExporter.ParseLines | net_port_exporter.py:59-67 | at most one port per line; the only error text is the IndexError's |
| PortExporter.CustomCollector.RunSh | net_port_exporter.py:43-67 | resets ports and info, then computes `RunShResult` |
| PortExporter.CustomCollector.ParseOutput | net_port_exporter.py:56-67 | the loop over the lines after the header collects `ParseLines` of their contributions; an IndexError sets success 0 and info to its text |
| PortExporter.ParseStep | net_port_exporter.py:59-64 | one more line adds nothing after an error, and otherwise nothing, its port, or the error |
| PortExporter.RaiseStep | net_port_exporter.py:62-67 | the line that raises records the error and keeps the ports found before it |
| PortExporter.ParseRaises | net_port_exporter.py:59-67 | parsing fails exactly when some line's fourth field has no `:` |
| PortExporter.PortsBeforeError | net_port_exporter.py:59-67 | on failure the ports of the earlier lines are kept |
| PortExporter.ParseStops | net_port_exporter.py:59-67 | no line after the failing one is looked at |
| PortExporter.ParseAppend | net_port_exporter.py:59-64 | the ports of consecutive lines come in line order |
| PortExporter.RunShCases | net_port_exporter.py:43-67 | a failed launch or non-zero status leaves no ports and `success` unchanged; a zero status sets success 1 with info `none`, or 0 with the error text |
| PortExporter.Report | net_port_exporter.py:33-41 | current ports with value 1 in order, lost ports with value 0, and no port in both |
| PortExporter.CurrentSamples | net_port_exporter.py:33-36 | one sample of value 1 per current port, in order |
| PortExporter.CustomCollector.Collect | net_port_exporter.py:17-41 | scrapes, reports `Report(old ports, new ports)` and the job sample, and remembers the new ports |

## Left out

- `\w` and `\s` are the ASCII classes: letters, digits, `_`, and space, tab through CR, and 0x1C-0x1F. Python's Unicode classes are wider.
- The control-sequence regex of `remove_control_char` (`ssh.py`, 144-153) is an uninterpreted function `controlFilter`. Only the `vim_flag` logic around it is modelled.
- SshReconstruct.ReplaceSpec: a run of several inserted characters is modelled with Python's clamped slice assignment, but its contract states only the consumed length and the failure condition for it; the one-character case is stated in full.
- The proxy works on text. It does not model UTF-8 decoding with `u(...)`.
- It does not model terminal raw mode, the `select` loop, the write-retry loop, window resizing, the channel itself, connecting, `exec_cmd` or the logging setup. These are I/O.
- A chunk is the unit of the event methods.
- An IndexError raised by `deal_replace_char` ends the session (`Crashed`). It is not retried.
- SshBatch.Dedup: Python's `set` has no defined order. The model keeps first occurrences in input order, so the pools are one possible assignment.
- The `multiprocessing.Pool` concurrency is not modelled. Only which hosts go into which pool is.
- The inner check `current_location == len(ip_list)` (`ssh.py`, 508) can never hold at that point, so the model's loop has no such branch.
- The user name from `getpass` is a parameter.
- Snake: curses drawing, `time.sleep` and the score file are left out.
  - The saved high score is a constructor parameter.
  - Random food draws are a parameter: a sequence of candidates, of which the first free one is taken.
  - The locals of `run` (`snake`, `key`) are fields of the `Snake` class.
- SnakeGame.Snake.Tick: requires a free candidate even on a step that does not eat, because the candidate sequence stands for the random draws.
- Webhook: Flask routing and `request.json` are left out. The payload is a record whose absent keys are `None`, and labels are an ordered list of pairs.
  - `datetime.now()` is the `startAt` parameter.
  - The HTTP call's outcome is a parameter.
  - Messages are returned as an outbox instead of being sent.
  - The printed form of the alert list in the admin notice is a parameter.
  - `prometheus_alerts` takes the payload's `status` and `alerts` as given, so a payload lacking either is not modelled.
  - A KeyError on a Grafana key (`title`, `ruleName`, `state`, `message`, `evalMatches`, or a match's `metric` or `value`) is an unanswered request (`None`).
  - An alert lacking `status` ends `prometheus_alerts` with the messages sent so far (`false`).
- Exporter: `subprocess`, `prometheus_client`, the WSGI server, argparse and timing are left out.
  - The command's outcome is a parameter. Its output is modelled as already-decoded text. In the source `communicate()[0]` is bytes, so under Python 3 `out_put.split("\n")` (`net_port_exporter.py`, 58, outside the `try`) would raise TypeError out of `collect` on every zero-status run; the model does not capture that.
  - The duration gauge is not modelled.
  - The lost-port samples are a set, because the source iterates over a set.

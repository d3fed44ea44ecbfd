/**
 * The audit-command reconstructor of the SSH proxy: the remote shell echoes
 * one input line, including the escape sequences its line editor emitted, and
 * the proxy replays the editing to recover the text the user typed.
 *
 * `RemoveObstructChar` is the noise pre-pass, `NextLexeme` and `Lex` the
 * priority-ordered tokenizer, `DealBackspace` and `DealReplaceChar` the two
 * splice operations, and `ReplayLineEdits` the tokenizer/reconstructor loop.
 * `Apply` (the editing state machine over the lexemes) and `Finish` are the
 * specification of that loop, and `Replayed` is the whole replay.
 */
module SshReconstruct {
  import opened Wrappers
  import opened PyText
  import opened SeqFacts

  const BEL: char := '\U{7}'
  const BS: char := '\U{8}'
  const ESC: char := '\U{1B}'
  const CR: char := '\r'

  /** Cursor-left followed by cursor-right: the pair cancels out. */
  const CursorPair: string := [BS, ESC, '[', 'C']
  /** Delete Character (DCH, section 8.3.26 of ECMA-48) with parameter 1. */
  const DeleteChar: string := [ESC, '[', '1', 'P']
  /** Erase in Line (EL, section 8.3.41 of ECMA-48) with the default parameter. */
  const EraseLine: string := [ESC, '[', 'K']
  /** Insert Character (ICH, section 8.3.64 of ECMA-48) with parameter 1, before the inserted character. */
  const InsertPrefix: string := [ESC, '[', '1', '@']

  /** Length of the longest prefix of `s` made of backspaces. */
  function BackspaceRun(s: string): (n: nat)
    ensures n <= |s|
    ensures forall i :: 0 <= i < n ==> s[i] == BS
    ensures n < |s| ==> s[n] != BS
  {
    if s == [] || s[0] != BS then 0 else 1 + BackspaceRun(s[1..])
  }

  // ---------------------------------------------------------------------------
  // Pre-pass: remove_obstruct_char
  // ---------------------------------------------------------------------------

  /** The first substitution of the pre-pass: BEL, `ESC [ 1 P` and CR are removed, scanning left to right. */
  function RemoveNoise(s: string): (r: string)
    ensures |r| <= |s|
    ensures BEL !in r && CR !in r
    ensures forall i :: 0 <= i < |r| ==> r[i] in s
  {
    if s == [] then []
    else if s[0] == BEL || s[0] == CR then RemoveNoise(s[1..])
    else if |s| >= 4 && s[..4] == DeleteChar then RemoveNoise(s[4..])
    else [s[0]] + RemoveNoise(s[1..])
  }

  /** A cursor pair never straddles trailing whitespace, since it ends in `C`. */
  lemma OccursInRStrip(s: string)
    ensures Occurs(s, CursorPair) ==> Occurs(RStrip(s), CursorPair)
  {
    if Occurs(s, CursorPair) {
      var i :| 0 <= i <= |s| && OccursAt(s, CursorPair, i);
      var r := RStrip(s);
      assert s[i + 3] == 'C';
      assert i + 4 <= |r|;
      assert r[i..i + 4] == s[i..i + 4];
      assert OccursAt(r, CursorPair, i);
    }
  }

  /** Every character the literal removal keeps comes from its input. */
  lemma {:induction false} RemoveAllKeeps(s: string, pat: string)
    requires pat != []
    ensures forall i :: 0 <= i < |RemoveAll(s, pat)| ==> RemoveAll(s, pat)[i] in s
    decreases |s|
  {
    if |s| < |pat| {
    } else if s[..|pat|] == pat {
      RemoveAllKeeps(s[|pat|..], pat);
    } else {
      RemoveAllKeeps(s[1..], pat);
    }
  }

  /** The rewrite loop of the pre-pass: strip trailing space and drop cursor pairs until none is left. */
  function DropCursorPairs(s: string): (r: string)
    ensures !Occurs(r, CursorPair)
    ensures |r| <= |s|
    ensures forall i :: 0 <= i < |r| ==> r[i] in s
    decreases |s|
  {
    if Occurs(s, CursorPair) then
      OccursInRStrip(s);
      RemoveAllKeeps(RStrip(s), CursorPair);
      DropCursorPairs(RemoveAll(RStrip(s), CursorPair))
    else s
  }

  /** The whole pre-pass as a function of its input. */
  function RemoveObstruct(s: string): (r: string)
    ensures BEL !in r && CR !in r && !Occurs(r, CursorPair)
  {
    DropCursorPairs(RemoveNoise(Strip(s)))
  }

  /** remove_obstruct_char: the rewrite loop, which ends because each pass removes a cursor pair. */
  method RemoveObstructChar(cmd: string) returns (r: string)
    ensures r == RemoveObstruct(cmd)
    ensures BEL !in r && CR !in r && !Occurs(r, CursorPair)
  {
    r := RemoveNoise(Strip(cmd));
    while Occurs(r, CursorPair)
      invariant DropCursorPairs(r) == RemoveObstruct(cmd)
      decreases |r|
    {
      OccursInRStrip(r);
      r := RemoveAll(RStrip(r), CursorPair);
    }
  }

  // ---------------------------------------------------------------------------
  // Tokenizer: the five patterns deal_command tries, in priority order
  // ---------------------------------------------------------------------------

  /** Length of the match of `\s*\w+\s*` at the front of `s`; 0 when it does not match. */
  function WordRunLength(s: string): (n: nat)
    ensures n <= |s|
    ensures n > 0 ==> SpaceRun(s) < n && IsWordChar(s[SpaceRun(s)])
    ensures forall i :: 0 <= i < n ==> IsSpace(s[i]) || IsWordChar(s[i])
    ensures 0 < n < |s| ==> !IsSpace(s[n])
    ensures n == 0 <==> SpaceRun(s) == |s| || !IsWordChar(s[SpaceRun(s)])
  {
    var a := SpaceRun(s);
    var b := WordRun(s[a..]);
    if b == 0 then 0
    else
      assert IsWordChar(s[a]);
      var c := SpaceRun(s[a + b..]);
      a + b + c
  }

  /** Length of the match of `ESC [ K` followed by any backspaces; 0 when it does not match. */
  function ClearLineLength(s: string): (n: nat)
    ensures n == 0 || (3 <= n <= |s| && s[..3] == EraseLine)
    ensures n > 0 ==> forall i :: 3 <= i < n ==> s[i] == BS
    ensures n == 0 <==> |s| < 3 || s[..3] != EraseLine
  {
    if |s| >= 3 && s[..3] == EraseLine then 3 + BackspaceRun(s[3..]) else 0
  }

  /** Length of the match of `(ESC [ 1 @ \w)+`: whole groups of five characters; 0 when it does not match. */
  function InsertRunLength(s: string): (n: nat)
    ensures n <= |s| && n % 5 == 0
    ensures n > 0 <==> |s| >= 5 && s[..4] == InsertPrefix && IsWordChar(s[4])
  {
    if |s| >= 5 && s[..4] == InsertPrefix && IsWordChar(s[4]) then 5 + InsertRunLength(s[5..]) else 0
  }

  /** Every five-character group of an insert-run match is `ESC [ 1 @` followed by a word character. */
  lemma {:induction false} InsertRunGroups(s: string)
    ensures var n := InsertRunLength(s);
            forall g :: 0 <= g < n / 5 ==> s[5 * g..5 * g + 4] == InsertPrefix && IsWordChar(s[5 * g + 4])
  {
    var n := InsertRunLength(s);
    if n > 0 {
      InsertRunGroups(s[5..]);
      forall g | 0 <= g < n / 5
        ensures s[5 * g..5 * g + 4] == InsertPrefix && IsWordChar(s[5 * g + 4])
      {
        if g > 0 {
          assert s[5 * g..5 * g + 4] == s[5..][5 * (g - 1)..5 * (g - 1) + 4];
          assert s[5 * g + 4] == s[5..][5 * (g - 1) + 4];
        }
      }
    }
  }

  /** The token classes of the reconstructor loop, in the order they are tried. */
  datatype Kind =
    | Word        // `\s*\w+\s*`
    | ClearLine   // `ESC [ K` then backspaces
    | Backspaces  // one or more backspaces
    | InsertRun   // `(ESC [ 1 @ \w)+`
    | Other       // any single other character

  /** A token: its class and the text it matched. */
  datatype Lexeme = Lexeme(kind: Kind, text: string)

  /** The first pattern, in priority order, that matches at the front of `s`, with its match. */
  function NextLexeme(s: string): (x: Lexeme)
    requires s != []
    ensures 0 < |x.text| <= |s| && x.text == s[..|x.text|]
    ensures x.kind == Word <==> WordRunLength(s) > 0
    ensures x.kind == Backspaces ==> s[0] == BS
    ensures x.kind == ClearLine || x.kind == InsertRun ==> s[0] == ESC
  {
    var w := WordRunLength(s);
    if w > 0 then Lexeme(Word, s[..w])
    else
      var c := ClearLineLength(s);
      if c > 0 then Lexeme(ClearLine, s[..c])
      else
        var b := BackspaceRun(s);
        if b > 0 then Lexeme(Backspaces, s[..b])
        else
          var n := InsertRunLength(s);
          if n > 0 then Lexeme(InsertRun, s[..n]) else Lexeme(Other, s[..1])
  }

  /** The tokenizer: every step consumes at least one character, and nothing is lost. */
  function Lex(s: string): (ls: seq<Lexeme>)
    ensures s == [] <==> ls == []
    ensures Texts(ls) == s
    decreases |s|
  {
    if s == [] then []
    else
      var x := NextLexeme(s);
      var rest := Lex(s[|x.text|..]);
      assert Texts([x] + rest) == x.text + Texts(rest) by { assert ([x] + rest)[1..] == rest; }
      TakeDrop(s, |x.text|);
      [x] + rest
  }

  /** The matched texts of a token sequence, concatenated. */
  function Texts(ls: seq<Lexeme>): string {
    if ls == [] then [] else ls[0].text + Texts(ls[1..])
  }

  // ---------------------------------------------------------------------------
  // The two splice operations
  // ---------------------------------------------------------------------------

  /**
   * deal_backspace: `matchStr` is an `ESC [ K` match. The pending text is
   * spliced in at `|result| - backspaces`, then one more character is dropped
   * for every backspace that follows the erase. Returns the spliced text and
   * the number of characters consumed.
   */
  function DealBackspace(matchStr: string, result: string, pattern: string, backspaces: nat): (r: (string, nat))
    ensures r.1 == |matchStr|
    ensures var spliced := if backspaces == 0 then result
                           else if backspaces > |result| then DropTail(result + pattern, backspaces)
                           else result[..|result| - backspaces] + pattern;
            var extra := if |matchStr| > 3 then |matchStr| - 3 else 0;
            && |r.0| == (if extra < |spliced| then |spliced| - extra else 0)
            && r.0 == spliced[..|r.0|]
  {
    var spliced :=
      if backspaces > 0 then
        if backspaces > |result| then DropTail(result + pattern, backspaces)
        else DropTail(result, backspaces) + pattern
      else result;
    var delLen := |matchStr| - 3;
    (if delLen > 0 then DropTail(spliced, delLen as nat) else spliced, |matchStr|)
  }

  /** The characters `re.findall(r'(?<=\x1b\[1@)\w', m)` finds in an insert run: the fifth of every group. */
  function InsertedChars(m: string): (t: string)
    ensures |t| == |m| / 5
    ensures forall j :: 0 <= j < |t| ==> t[j] == m[5 * j + 4]
  {
    if |m| < 5 then []
    else
      var rest := InsertedChars(m[5..]);
      assert forall j :: 1 <= j < 1 + |rest| ==> m[5..][5 * (j - 1) + 4] == m[5 * j + 4];
      [m[4]] + rest
  }

  /**
   * Specification of deal_replace_char over the Python list semantics. Two or
   * more characters are slice-assigned to `list[-n:-(n - t)]`; one character
   * overwrites `list[-n]`, or is inserted before it when that is a space.
   * `None` stands for the IndexError that `list[-n]` raises when the position
   * does not exist.
   */
  function ReplaceSpec(m: string, result: string, backspaces: nat): (r: Option<(string, nat)>)
    ensures r.Some? ==> r.value.1 == |m|
    ensures r.None? <==> |InsertedChars(m)| == 1 && |result| < (if backspaces == 0 then 1 else backspaces)
    ensures r.Some? && |InsertedChars(m)| == 1 ==>
              var i := if backspaces == 0 then 0 else |result| - backspaces;
              && 0 <= i < |result| && i < |r.value.0|
              && r.value.0[..i] == result[..i] && r.value.0[i] == InsertedChars(m)[0]
              && (result[i] == ' ' ==> r.value.0[i + 1..] == result[i..])
              && (result[i] != ' ' ==> r.value.0[i + 1..] == result[i + 1..])
    ensures |InsertedChars(m)| == 0 ==> r == Some((result, |m|))
  {
    var tmp := InsertedChars(m);
    var len := |result|;
    if |tmp| > 1 then
      var a := PyBound(len, -(backspaces as int));
      var b := PyBound(len, |tmp| - backspaces);
      var b' := if b < a then a else b;
      Some((result[..a] + tmp + result[b'..], |m|))
    else if |tmp| == 1 then
      if (backspaces == 0 && len > 0) || (1 <= backspaces <= len) then
        var idx := if backspaces == 0 then 0 else len - backspaces;
        if result[idx] == ' ' then Some((result[..idx] + tmp + result[idx..], |m|))
        else Some((result[..idx] + tmp + result[idx + 1..], |m|))
      else None
    else Some((result, |m|))
  }

  /**
   * deal_replace_char written as the statements it runs: it works on
   * `list(result)` in place, then joins it back. `ReplaceSpec` is the same
   * splice as a value, and carries what it promises.
   */
  method DealReplaceChar(matchStr: string, result: string, backspaces: nat) returns (r: Option<(string, nat)>)
    ensures r == ReplaceSpec(matchStr, result, backspaces)
  {
    var tmp := InsertedChars(matchStr);
    var chars := result;
    if |tmp| > 1 {
      var a := PyBound(|chars|, -(backspaces as int));
      var b := PyBound(|chars|, |tmp| - backspaces);
      if b < a {
        b := a;
      }
      chars := chars[..a] + tmp + chars[b..];
    } else if |tmp| > 0 {
      var idx: int := if backspaces == 0 then 0 else |chars| - backspaces;
      if idx < 0 || idx >= |chars| {
        return None;
      }
      if chars[idx] == ' ' {
        chars := chars[..idx] + tmp + chars[idx..];
      } else {
        chars := chars[..idx] + tmp + chars[idx + 1..];
      }
    }
    return Some((chars, |matchStr|));
  }

  // ---------------------------------------------------------------------------
  // The reconstructor loop and its specification
  // ---------------------------------------------------------------------------

  /**
   * The editing state of deal_command: `result` (result_command), `pattern`
   * (pattern_str, text typed after the cursor moved back), `backspaces`
   * (backspace_num) and `reached` (reach_backspace_flag).
   */
  datatype Edit = Edit(result: string, pattern: string, backspaces: nat, reached: bool)

  const Init: Edit := Edit("", "", 0, false)

  /** Text that is not an editing sequence goes to `pattern` once a backspace run was seen, else to `result`. */
  function Append(e: Edit, text: string): Edit {
    if e.reached then e.(pattern := e.pattern + text) else e.(result := e.result + text)
  }

  /** The state after a backspace run that is not the last token. */
  function AfterBackspaces(e: Edit, n: nat): Edit {
    if e.reached then Edit(DropTail(e.result, e.backspaces) + e.pattern, "", n, true)
    else e.(backspaces := n, reached := true)
  }

  /** The editing loop of deal_command over the tokens; `None` when deal_replace_char raised IndexError. */
  function Apply(ls: seq<Lexeme>, e: Edit): Option<Edit>
  {
    if ls == [] then Some(e)
    else
      var x := ls[0];
      match x.kind
      case Word => Apply(ls[1..], Append(e, x.text))
      case ClearLine =>
        Apply(ls[1..], Edit(DealBackspace(x.text, e.result, e.pattern, e.backspaces).0, "", 0, false))
      case Backspaces =>
        if |ls| == 1 then Some(e) else Apply(ls[1..], AfterBackspaces(e, |x.text|))
      case InsertRun =>
        (match ReplaceSpec(x.text, e.result, e.backspaces)
         case None => None
         case Some(p) => Apply(ls[1..], e.(result := p.0, backspaces := 0)))
      case Other => Apply(ls[1..], Append(e, x.text))
  }

  /** After the loop an open backspace region is spliced in. */
  function Finish(e: Edit): string {
    if e.backspaces > 0 then DropTail(e.result, e.backspaces) + e.pattern else e.result
  }

  /** The reconstructed command before remove_control_char; `None` when the replay raised IndexError. */
  function Replayed(raw: string): Option<string> {
    match Apply(Lex(RemoveObstruct(raw)), Init)
    case None => None
    case Some(e) => Some(Finish(e))
  }

  /** One step of the tokenizer. */
  lemma LexStep(s: string)
    requires s != []
    ensures Lex(s) == [NextLexeme(s)] + Lex(s[|NextLexeme(s).text|..])
  {
  }

  /** The pre-pass and the loop of deal_command (everything before remove_control_char). */
  method ReplayLineEdits(raw: string) returns (r: Option<string>)
    ensures r == Replayed(raw)
  {
    var s := RemoveObstructChar(raw);
    var result, backspaceNum, reached, pattern := "", 0, false, "";
    ghost var target := Apply(Lex(s), Init);
    while s != []
      invariant Apply(Lex(s), Edit(result, pattern, backspaceNum, reached)) == target
      decreases |s|
    {
      ghost var e := Edit(result, pattern, backspaceNum, reached);
      LexStep(s);
      ghost var ls := Lex(s);
      var w := WordRunLength(s);
      if w > 0 {
        assert ls[0] == Lexeme(Word, s[..w]);
        var tok := s[..w];
        s := s[w..];
        if reached {
          pattern := pattern + tok;
          continue;
        } else {
          result := result + tok;
          continue;
        }
      }

      var c := ClearLineLength(s);
      if c > 0 {
        assert ls[0] == Lexeme(ClearLine, s[..c]);
        var spliced := DealBackspace(s[..c], result, pattern, backspaceNum);
        var delLen := spliced.1;
        result := spliced.0;
        reached := false;
        backspaceNum := 0;
        pattern := "";
        s := s[delLen..];
        continue;
      }

      var b := BackspaceRun(s);
      if b > 0 {
        assert ls[0] == Lexeme(Backspaces, s[..b]);
        s := s[b..];
        if |s| != 0 {
          if reached {
            result := DropTail(result, backspaceNum) + pattern;
            pattern := "";
          } else {
            reached := true;
          }
          backspaceNum := b;
          continue;
        } else {
          assert |ls| == 1;
          assert Apply(ls, e) == Some(e);
          break;
        }
      }

      var n := InsertRunLength(s);
      if n > 0 {
        assert ls[0] == Lexeme(InsertRun, s[..n]);
        var replaced := DealReplaceChar(s[..n], result, backspaceNum);
        if replaced.None? {
          return None;
        }
        var delLen;
        result, delLen := replaced.value.0, replaced.value.1;
        s := s[delLen..];
        backspaceNum := 0;
        continue;
      }

      assert ls[0] == Lexeme(Other, [s[0]]);
      if reached {
        pattern := pattern + [s[0]];
      } else {
        result := result + [s[0]];
      }
      s := s[1..];
    }
    assert target == Some(Edit(result, pattern, backspaceNum, reached));

    if backspaceNum > 0 {
      result := DropTail(result, backspaceNum) + pattern;
    }
    return Some(result);
  }
}

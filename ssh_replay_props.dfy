/**
 * What the replay of line edits promises: clean text is kept as typed,
 * a backspace run followed by text replaces the characters it moved over,
 * Erase in Line splices the pending text and truncates, a one-character
 * Insert Character run overwrites or inserts in place, and a backspace run
 * that ends the input changes nothing.
 */
module SshReplayProps {
  import opened Wrappers
  import opened PyText
  import opened SshReconstruct
  import opened SeqFacts
  import opened SshPrePassProps

  /** `n` backspace characters. */
  function BsRun(n: nat): (s: string)
    ensures |s| == n && forall i :: 0 <= i < n ==> s[i] == BS
  {
    seq(n, _ => BS)
  }

  lemma AppendTwice(e: Edit, x: string, y: string)
    ensures Append(Append(e, x), y) == Append(e, x + y)
  {
    if e.reached {
      assert e.pattern + x + y == e.pattern + (x + y);
    } else {
      assert e.result + x + y == e.result + (x + y);
    }
  }

  /** Tokens that only add text: words and single characters. */
  predicate Plain(ls: seq<Lexeme>) {
    forall k :: 0 <= k < |ls| ==> ls[k].kind == Word || ls[k].kind == Other
  }

  // ---------------------------------------------------------------------------
  // The tokenizer on the shapes the properties are about
  // ---------------------------------------------------------------------------

  /** A backspace at the front is neither a word nor an escape sequence. */
  lemma NextOnBackspace(s: string)
    requires s != [] && s[0] == BS
    ensures NextLexeme(s) == Lexeme(Backspaces, s[..BackspaceRun(s)])
  {
    assert !IsSpace(s[0]) && !IsWordChar(s[0]);
    assert SpaceRun(s) == 0;
    assert WordRunLength(s) == 0;
    assert ClearLineLength(s) == 0 by {
      if |s| >= 3 { assert s[..3][0] != EraseLine[0]; }
    }
    assert BackspaceRun(s) > 0;
  }

  /** `ESC [ K` at the front is an erase token, together with the backspaces after it. */
  lemma NextOnEraseLine(s: string)
    requires |s| >= 3 && s[..3] == EraseLine
    ensures NextLexeme(s) == Lexeme(ClearLine, s[..3 + BackspaceRun(s[3..])])
  {
    assert s[0] == s[..3][0] == ESC;
    assert !IsSpace(s[0]) && !IsWordChar(s[0]);
    assert SpaceRun(s) == 0;
    assert WordRunLength(s) == 0;
  }

  /** `ESC [ 1 @` and a word character at the front start an insert run. */
  lemma NextOnInsert(s: string)
    requires |s| >= 5 && s[..4] == InsertPrefix && IsWordChar(s[4])
    ensures NextLexeme(s) == Lexeme(InsertRun, s[..InsertRunLength(s)])
  {
    assert s[0] == s[..4][0] == ESC;
    assert !IsSpace(s[0]) && !IsWordChar(s[0]);
    assert SpaceRun(s) == 0;
    assert WordRunLength(s) == 0;
    assert s[..3] != EraseLine by { assert s[..3][2] == s[..4][2] == '1'; }
    assert ClearLineLength(s) == 0;
    assert BackspaceRun(s) == 0;
  }

  /** The backspaces at the front of `BsRun(n) + rest` are exactly the run, when `rest` does not start with one. */
  lemma BackspaceRunOf(n: nat, rest: string)
    requires rest == [] || rest[0] != BS
    ensures BackspaceRun(BsRun(n) + rest) == n
  {
    var s := BsRun(n) + rest;
    assert forall i :: 0 <= i < n ==> s[i] == BS;
    assert n < |s| ==> s[n] == rest[0];
  }

  /** The first token of clean text followed by an escape or a backspace lies inside the clean text. */
  lemma CleanLexeme(a: string, rest: string)
    requires Clean(a) && a != []
    requires rest == [] || rest[0] == BS || rest[0] == ESC
    ensures var x := NextLexeme(a + rest);
            (x.kind == Word || x.kind == Other) && |x.text| <= |a| && x.text == a[..|x.text|]
  {
    var s := a + rest;
    var x := NextLexeme(s);
    assert s[0] == a[0];
    assert |a| < |s| ==> s[|a|] == rest[0] && !IsSpace(s[|a|]) && !IsWordChar(s[|a|]);
  }

  /** One tokenizer step in front of a known tokenization of the rest. */
  lemma LexCons(s: string, q: seq<Lexeme>, lr: seq<Lexeme>)
    requires s != [] && Lex(s[|NextLexeme(s).text|..]) == q + lr
    ensures Lex(s) == ([NextLexeme(s)] + q) + lr
  {
    LexStep(s);
  }

  /** Clean text is tokenized on its own, into words and single characters. */
  lemma {:induction false} LexCleanPrefix(a: string, rest: string) returns (p: seq<Lexeme>)
    requires Clean(a)
    requires rest == [] || rest[0] == BS || rest[0] == ESC
    ensures Lex(a + rest) == p + Lex(rest)
    ensures Plain(p) && Texts(p) == a
    decreases |a|, 1
  {
    if a == [] {
      assert a + rest == rest;
      p := [];
    } else {
      var x, q := CleanStep(a, rest);
      p := [x] + q;
    }
  }

  /** One step of `LexCleanPrefix`: the first token, and the tokens of the clean text after it. */
  lemma {:induction false} CleanStep(a: string, rest: string) returns (x: Lexeme, q: seq<Lexeme>)
    requires Clean(a) && a != []
    requires rest == [] || rest[0] == BS || rest[0] == ESC
    ensures Lex(a + rest) == ([x] + q) + Lex(rest)
    ensures Plain([x] + q) && Texts([x] + q) == a
    decreases |a|, 0
  {
    CleanLexeme(a, rest);
    x := NextLexeme(a + rest);
    var n := |x.text|;
    DropOfConcat(a, rest, n);
    q := LexCleanPrefix(a[n..], rest);
    LexCons(a + rest, q, Lex(rest));
    PlainCons(x, q);
    TextsCons(x, q);
    TakeDrop(a, n);
  }

  lemma TextsCons(x: Lexeme, q: seq<Lexeme>)
    ensures Texts([x] + q) == x.text + Texts(q)
  {
    assert ([x] + q)[1..] == q;
  }

  lemma PlainCons(x: Lexeme, q: seq<Lexeme>)
    requires x.kind == Word || x.kind == Other
    requires Plain(q)
    ensures Plain([x] + q)
  {
    assert forall k :: 1 <= k < |[x] + q| ==> ([x] + q)[k] == q[k - 1];
  }

  /** A backspace run not followed by another backspace is one token. */
  lemma LexBackspaces(n: nat, rest: string)
    requires n >= 1 && (rest == [] || rest[0] != BS)
    ensures Lex(BsRun(n) + rest) == [Lexeme(Backspaces, BsRun(n))] + Lex(rest)
  {
    var s := BsRun(n) + rest;
    BackspaceRunOf(n, rest);
    NextOnBackspace(s);
    assert s[..n] == BsRun(n) && s[n..] == rest;
    LexStep(s);
  }

  /** Erase in Line with the backspaces that follow it is one token. */
  lemma LexEraseLine(k: nat, rest: string)
    requires rest == [] || rest[0] != BS
    ensures Lex(EraseLine + BsRun(k) + rest) == [Lexeme(ClearLine, EraseLine + BsRun(k))] + Lex(rest)
  {
    var s := EraseLine + BsRun(k) + rest;
    assert s[..3] == EraseLine && s[3..] == BsRun(k) + rest;
    BackspaceRunOf(k, rest);
    NextOnEraseLine(s);
    assert s[..3 + k] == EraseLine + BsRun(k) by {
      assert s == (EraseLine + BsRun(k)) + rest;
    }
    assert s[3 + k..] == rest by {
      assert s == (EraseLine + BsRun(k)) + rest;
    }
    LexStep(s);
  }

  /** A one-character Insert Character run followed by a backspace (or nothing) is one token. */
  lemma LexInsertOne(c: char, rest: string)
    requires IsWordChar(c) && (rest == [] || rest[0] == BS)
    ensures Lex(InsertPrefix + [c] + rest) == [Lexeme(InsertRun, InsertPrefix + [c])] + Lex(rest)
  {
    var s := InsertPrefix + [c] + rest;
    assert s[..4] == InsertPrefix && s[4] == c;
    assert s[5..] == rest;
    assert InsertRunLength(rest) == 0 by {
      if |rest| >= 5 { assert rest[..4][0] != InsertPrefix[0]; }
    }
    assert InsertRunLength(s) == 5;
    NextOnInsert(s);
    assert s[..5] == InsertPrefix + [c];
    LexStep(s);
  }

  // ---------------------------------------------------------------------------
  // The editing loop on those tokens
  // ---------------------------------------------------------------------------

  /** Words and single characters append their text to the active buffer. */
  lemma {:induction false} ApplyPlain(ls: seq<Lexeme>, rest: seq<Lexeme>, e: Edit)
    requires Plain(ls)
    ensures Apply(ls + rest, e) == Apply(rest, Append(e, Texts(ls)))
  {
    if ls == [] {
      assert ls + rest == rest;
      assert Append(e, []) == e by {
        assert e.pattern + [] == e.pattern;
        assert e.result + [] == e.result;
      }
    } else {
      assert (ls + rest)[0] == ls[0];
      DropOfConcat(ls, rest, 1);
      ApplyPlain(ls[1..], rest, Append(e, ls[0].text));
      AppendTwice(e, ls[0].text, Texts(ls[1..]));
    }
  }

  /** A backspace run that is not the last token opens (or re-opens) the backspace region. */
  lemma ApplyBackspaces(n: nat, rest: seq<Lexeme>, e: Edit)
    requires rest != []
    ensures Apply([Lexeme(Backspaces, BsRun(n))] + rest, e) == Apply(rest, AfterBackspaces(e, n))
  {
    assert ([Lexeme(Backspaces, BsRun(n))] + rest)[1..] == rest;
  }

  /** An erase token splices and truncates, and resets the count, the flag and the pending text. */
  lemma ApplyClearLine(m: string, rest: seq<Lexeme>, e: Edit)
    ensures Apply([Lexeme(ClearLine, m)] + rest, e)
            == Apply(rest, Edit(DealBackspace(m, e.result, e.pattern, e.backspaces).0, "", 0, false))
  {
    assert ([Lexeme(ClearLine, m)] + rest)[1..] == rest;
  }

  /** An insert-run token rewrites `result` and sets the count to 0, keeping the flag. */
  lemma ApplyInsertRun(m: string, rest: seq<Lexeme>, e: Edit)
    ensures Apply([Lexeme(InsertRun, m)] + rest, e)
            == match ReplaceSpec(m, e.result, e.backspaces)
               case None => None
               case Some(p) => Apply(rest, e.(result := p.0, backspaces := 0))
  {
    assert ([Lexeme(InsertRun, m)] + rest)[1..] == rest;
  }

  /** Clean text followed by an escape, a backspace or nothing lands, unchanged, in the active buffer. */
  lemma RunCleanPrefix(a: string, rest: string, e: Edit)
    requires Clean(a)
    requires rest == [] || rest[0] == BS || rest[0] == ESC
    ensures Apply(Lex(a + rest), e) == Apply(Lex(rest), Append(e, a))
  {
    var p := LexCleanPrefix(a, rest);
    ApplyPlain(p, Lex(rest), e);
  }

  /** Clean text on its own lands, unchanged, in the active buffer. */
  lemma RunClean(a: string, e: Edit)
    requires Clean(a)
    ensures Apply(Lex(a), e) == Some(Append(e, a))
  {
    RunCleanPrefix(a, [], e);
    assert a + [] == a;
  }

  /** A backspace run that ends the input is ignored: the loop stops without touching the state. */
  lemma TrailingBackspacesIgnored(a: string, n: nat)
    requires Clean(a) && n >= 1
    ensures Apply(Lex(a + BsRun(n)), Init) == Some(Edit(a, "", 0, false))
  {
    RunCleanPrefix(a, BsRun(n), Init);
    LexBackspaces(n, []);
    assert BsRun(n) + [] == BsRun(n);
    assert [Lexeme(Backspaces, BsRun(n))] + [] == [Lexeme(Backspaces, BsRun(n))];
    assert "" + a == a;
  }

  /**
   * The `break` of the backspace rule, in any editing state: a backspace run
   * that is the last token leaves the state exactly as the tokens before it
   * left it, even with a backspace region open, where the splice of the
   * previous region is skipped.
   */
  lemma {:induction false} TrailingRunAnyState(ls: seq<Lexeme>, n: nat, e: Edit)
    requires n >= 1 && (ls == [] || ls[|ls| - 1].kind != Backspaces)
    ensures Apply(ls + [Lexeme(Backspaces, BsRun(n))], e) == Apply(ls, e)
    decreases |ls|
  {
    var last := Lexeme(Backspaces, BsRun(n));
    if ls == [] {
      assert ls + [last] == [last];
    } else {
      var s := ls + [last];
      assert s[0] == ls[0] && s[1..] == ls[1..] + [last];
      var x := ls[0];
      match x.kind
      case Word => TrailingRunAnyState(ls[1..], n, Append(e, x.text));
      case Other => TrailingRunAnyState(ls[1..], n, Append(e, x.text));
      case ClearLine =>
        TrailingRunAnyState(ls[1..], n, Edit(DealBackspace(x.text, e.result, e.pattern, e.backspaces).0, "", 0, false));
      case Backspaces =>
        assert |ls| > 1;
        TrailingRunAnyState(ls[1..], n, AfterBackspaces(e, |x.text|));
      case InsertRun =>
        match ReplaceSpec(x.text, e.result, e.backspaces)
        case None =>
        case Some(p) => TrailingRunAnyState(ls[1..], n, e.(result := p.0, backspaces := 0));
    }
  }

  /**
   * A clean prefix, `n` backspaces, clean text `t`, then `m` backspaces that
   * end the input: the last run is ignored, so the open region is spliced
   * only at the end and the replay gives `a[0:-n] + t`.
   */
  lemma ReplayRegionThenTrailing(a: string, n: nat, t: string, m: nat)
    requires Clean(a) && Clean(t) && BEL !in a + t && CR !in a + t
    requires n >= 1 && m >= 1 && t != [] && (a == [] || !IsSpace(a[0]))
    ensures Replayed(a + BsRun(n) + t + BsRun(m)) == Some(DropTail(a, n) + t)
  {
    var raw := a + BsRun(n) + t + BsRun(m);
    RegionTrailingPrePass(a, n, t, m);
    RegionTrailingApply(a, n, t, m);
    FinishOpen(a, n, t);
    ReplayedOf(raw, Edit(a, t, n, true));
  }

  /** An open region is spliced in at the end. */
  lemma FinishOpen(r: string, n: nat, t: string)
    requires n >= 1
    ensures Finish(Edit(r, t, n, true)) == DropTail(r, n) + t
  {
  }

  /** The replay of input the pre-pass leaves alone, from the state the loop ends in. */
  lemma ReplayedOf(raw: string, e: Edit)
    requires RemoveObstruct(raw) == raw && Apply(Lex(raw), Init) == Some(e)
    ensures Replayed(raw) == Some(Finish(e))
  {
  }

  lemma RegionTrailingPrePass(a: string, n: nat, t: string, m: nat)
    requires Clean(a) && Clean(t) && BEL !in a + t && CR !in a + t
    requires n >= 1 && m >= 1 && (a == [] || !IsSpace(a[0]))
    ensures RemoveObstruct(a + BsRun(n) + t + BsRun(m)) == a + BsRun(n) + t + BsRun(m)
  {
    var raw := a + BsRun(n) + t + BsRun(m);
    assert raw[0] == if a == [] then BS else a[0];
    assert raw[|raw| - 1] == BS;
    StripTrimmed(raw);
    assert ESC !in raw && BEL !in raw && CR !in raw by {
      assert forall i :: 0 <= i < |raw| ==> raw[i] in a || raw[i] == BS || raw[i] in t;
    }
    NoEscNoDelete(raw);
    RemoveNoiseKeeps(raw);
  }

  lemma RegionTrailingApply(a: string, n: nat, t: string, m: nat)
    requires Clean(a) && Clean(t) && n >= 1 && m >= 1 && t != []
    ensures Apply(Lex(a + BsRun(n) + t + BsRun(m)), Init) == Some(Edit(a, t, n, true))
  {
    var rest := BsRun(n) + (t + BsRun(m));
    Assoc3(a, BsRun(n), t, BsRun(m));
    assert rest[0] == BS;
    RunCleanPrefix(a, rest, Init);
    EmptyConcat(a);
    BackspacesTextTrailing(a, n, t, m);
  }

  /** `n` backspaces, text, then a final backspace run, from a closed region. */
  lemma BackspacesTextTrailing(r: string, n: nat, t: string, m: nat)
    requires Clean(t) && n >= 1 && m >= 1 && t != []
    ensures Apply(Lex(BsRun(n) + (t + BsRun(m))), Edit(r, "", 0, false)) == Some(Edit(r, t, n, true))
  {
    var tail := t + BsRun(m);
    assert tail[0] == t[0] != BS;
    LexBackspaces(n, tail);
    assert Lex(tail) != [];
    ApplyBackspaces(n, Lex(tail), Edit(r, "", 0, false));
    TextTrailing(t, m, Edit(r, "", n, true));
    assert Append(Edit(r, "", n, true), t) == Edit(r, t, n, true) by { assert "" + t == t; }
  }

  /** Clean text and then a final backspace run: the text lands in the active buffer, the run is ignored. */
  lemma TextTrailing(t: string, m: nat, e: Edit)
    requires Clean(t) && m >= 1
    ensures Apply(Lex(t + BsRun(m)), e) == Some(Append(e, t))
  {
    var q := LexCleanPrefix(t, BsRun(m));
    LexBackspaces(m, []);
    var b := Lexeme(Backspaces, BsRun(m));
    assert Lex(BsRun(m)) == [b] by {
      assert BsRun(m) + [] == BsRun(m);
      assert [b] + Lex([]) == [b];
    }
    assert q == [] || q[|q| - 1].kind != Backspaces;
    TrailingRunAnyState(q, m, e);
    ApplyPlain(q, [], e);
    assert q + [] == q;
  }

  /**
   * `"abc"`, a backspace, `"x"`, a backspace: the final backspace is ignored
   * and the open region gives `"abx"`.
   */
  lemma RegionTrailingExample(raw: string)
    requires raw == "abc" + [BS] + "x" + [BS]
    ensures Replayed(raw) == Some("abx")
  {
    var a, t := "abc", "x";
    RegionExampleFacts(raw, a, t);
    ReplayRegionThenTrailing(a, 1, t, 1);
  }

  /** The literal facts the example needs, kept apart from the replay. */
  lemma RegionExampleFacts(raw: string, a: string, t: string)
    requires raw == "abc" + [BS] + "x" + [BS] && a == "abc" && t == "x"
    ensures raw == a + BsRun(1) + t + BsRun(1)
    ensures Clean(a) && Clean(t) && BEL !in a + t && CR !in a + t && !IsSpace(a[0])
    ensures DropTail(a, 1) + t == "abx"
  {
    assert BsRun(1) == [BS];
    assert DropTail(a, 1) == "ab";
  }

  /**
   * Without the `break`, the same input would splice the region at the last
   * backspace run (`"abx"`, count 1) and the end of the loop would cut one
   * more character: `"ab"` instead of `"abx"`.
   */
  lemma RegionSplicedAgain()
    ensures AfterBackspaces(Edit("abc", "x", 1, true), 1) == Edit("abx", "", 1, true)
    ensures Finish(Edit("abx", "", 1, true)) == "ab"
  {
    assert DropTail("abc", 1) == "ab";
    assert DropTail("abx", 1) == "ab";
  }

  /** Text typed after `n` backspaces replaces the last `n` characters of the result. */
  lemma BackspaceThenText(r: string, n: nat, t: string)
    requires n >= 1 && t != [] && Clean(t)
    ensures Apply(Lex(BsRun(n) + t), Edit(r, "", 0, false)) == Some(Edit(r, t, n, true))
    ensures Finish(Edit(r, t, n, true)) == DropTail(r, n) + t
  {
    assert t[0] != BS;
    LexBackspaces(n, t);
    var e := Edit(r, "", 0, false);
    assert Lex(t) != [];
    ApplyBackspaces(n, Lex(t), e);
    assert AfterBackspaces(e, n) == Edit(r, "", n, true);
    RunClean(t, Edit(r, "", n, true));
    assert Append(Edit(r, "", n, true), t) == Edit(r, t, n, true) by {
      assert "" + t == t;
    }
  }

  /**
   * Erase in Line after `n` backspaces and pending text `t`: the pending text
   * is spliced in at `|r| - n`, and the `k` backspaces that follow the erase
   * drop as many further characters. Count, flag and pending text are reset.
   */
  lemma EraseAfterBackspaces(r: string, n: nat, t: string, k: nat)
    requires 1 <= n <= |r| && Clean(t)
    ensures var spliced := r[..|r| - n] + t;
            var kept := if k < |spliced| then |spliced| - k else 0;
            Apply(Lex(BsRun(n) + t + EraseLine + BsRun(k)), Edit(r, "", 0, false))
              == Some(Edit(spliced[..kept], "", 0, false))
  {
    var x := EraseLine + BsRun(k);
    var rest := t + x;
    Assoc3(BsRun(n), t, EraseLine, BsRun(k));
    assert rest[0] != BS && rest != [] by {
      if t == [] { assert rest[0] == x[0] == ESC; } else { assert rest[0] == t[0]; }
    }
    LexBackspaces(n, rest);
    ApplyBackspaces(n, Lex(rest), Edit(r, "", 0, false));
    assert x[0] == ESC;
    RunCleanPrefix(t, x, Edit(r, "", n, true));
    assert "" + t == t;
    LexEraseLine(k, []);
    assert x + [] == x;
    ApplyClearLine(x, [], Edit(r, t, n, true));
    assert [Lexeme(ClearLine, x)] + [] == [Lexeme(ClearLine, x)];
    ErasedSplice(r, n, t, k);
  }

  /** deal_backspace on an erase followed by `k` backspaces, with the region open. */
  lemma ErasedSplice(r: string, n: nat, t: string, k: nat)
    requires 1 <= n <= |r|
    ensures var spliced := r[..|r| - n] + t;
            var kept := if k < |spliced| then |spliced| - k else 0;
            DealBackspace(EraseLine + BsRun(k), r, t, n).0 == spliced[..kept]
  {
  }

  /**
   * A one-character Insert Character run after `n` backspaces works at
   * position `|r| - n`: a space there makes it an insertion, any other
   * character is overwritten so that the length is unchanged. The count is
   * reset to 0 while the backspace flag stays set.
   */
  lemma InsertAfterBackspaces(r: string, n: nat, c: char, more: string)
    requires 1 <= n <= |r| && IsWordChar(c)
    requires more == [] || more[0] == BS
    ensures var i := |r| - n;
            var r' := if r[i] == ' ' then r[..i] + [c] + r[i..] else r[..i] + [c] + r[i + 1..];
            Apply(Lex(BsRun(n) + InsertPrefix + [c] + more), Edit(r, "", 0, false))
              == Apply(Lex(more), Edit(r', "", 0, true))
  {
    var m := InsertPrefix + [c];
    var x := m + more;
    assert BsRun(n) + InsertPrefix + [c] + more == BsRun(n) + x;
    assert x[0] == ESC;
    LexBackspaces(n, x);
    ApplyBackspaces(n, Lex(x), Edit(r, "", 0, false));
    LexInsertOne(c, more);
    ApplyInsertRun(m, Lex(more), Edit(r, "", n, true));
    ReplaceOne(r, n, c);
  }

  /** deal_replace_char with one inserted character and `n` backspaces of room. */
  lemma ReplaceOne(r: string, n: nat, c: char)
    requires 1 <= n <= |r|
    ensures var i := |r| - n;
            var r' := if r[i] == ' ' then r[..i] + [c] + r[i..] else r[..i] + [c] + r[i + 1..];
            ReplaceSpec(InsertPrefix + [c], r, n) == Some((r', 5))
  {
    var m := InsertPrefix + [c];
    assert InsertedChars(m) == [c] by {
      assert |InsertedChars(m)| == 1;
      assert InsertedChars(m)[0] == m[4] == c;
    }
  }

  /**
   * The effect of line 198 of ssh.py: after an Insert Character run has
   * set the count to 0 with the flag still set, the next backspace run cuts
   * `result[0:-0]`, which is empty, so everything reconstructed so far is lost.
   */
  lemma BackspaceAfterInsertRunWipes(r: string, p: string, m: nat, t: string)
    requires m >= 1 && t != [] && Clean(t)
    ensures Apply(Lex(BsRun(m) + t), Edit(r, p, 0, true)) == Some(Edit(p, t, m, true))
    ensures Finish(Edit(p, t, m, true)) == DropTail(p, m) + t
  {
    assert t[0] != BS;
    LexBackspaces(m, t);
    var e := Edit(r, p, 0, true);
    assert Lex(t) != [];
    ApplyBackspaces(m, Lex(t), e);
    assert AfterBackspaces(e, m) == Edit(p, "", m, true) by {
      assert DropTail(r, 0) == [];
      assert [] + p == p;
    }
    RunClean(t, Edit(p, "", m, true));
    assert Append(Edit(p, "", m, true), t) == Edit(p, t, m, true) by {
      assert "" + t == t;
    }
  }

  /** On input without backspaces, escapes, BEL or CR the reconstruction is the stripped input. */
  lemma ReplayCleanInput(raw: string)
    requires Clean(raw) && BEL !in raw && CR !in raw
    ensures Replayed(raw) == Some(Strip(raw))
  {
    RemoveObstructClean(raw);
    RunClean(Strip(raw), Init);
    assert "" + Strip(raw) == Strip(raw);
  }

  /** With a clean prefix `a`, backspaces and clean text `t`, the replay gives `a[0:-n] + t`. */
  lemma ReplayRetype(a: string, n: nat, t: string)
    requires Clean(a) && Clean(t) && BEL !in a + t && CR !in a + t
    requires n >= 1 && t != [] && !IsSpace(t[|t| - 1]) && (a == [] || !IsSpace(a[0]))
    ensures Replayed(a + BsRun(n) + t) == Some(DropTail(a, n) + t)
  {
    RetypeUnchangedByPrePass(a, n, t);
    RetypeApply(a, n, t);
    BackspaceThenText(a, n, t);
  }

  lemma RetypeUnchangedByPrePass(a: string, n: nat, t: string)
    requires Clean(a) && Clean(t) && BEL !in a + t && CR !in a + t
    requires n >= 1 && t != [] && !IsSpace(t[|t| - 1]) && (a == [] || !IsSpace(a[0]))
    ensures RemoveObstruct(a + BsRun(n) + t) == a + BsRun(n) + t
  {
    var raw := a + BsRun(n) + t;
    assert raw[0] == if a == [] then BS else a[0];
    assert raw[|raw| - 1] == t[|t| - 1];
    StripTrimmed(raw);
    assert ESC !in raw && BEL !in raw && CR !in raw by {
      assert forall i :: 0 <= i < |raw| ==> raw[i] in a || raw[i] == BS || raw[i] in t;
    }
    NoEscNoDelete(raw);
    RemoveNoiseKeeps(raw);
  }

  lemma RetypeApply(a: string, n: nat, t: string)
    requires Clean(a) && Clean(t) && n >= 1 && t != []
    ensures Apply(Lex(a + BsRun(n) + t), Init) == Some(Edit(a, t, n, true))
  {
    var rest := BsRun(n) + t;
    Assoc(a, BsRun(n), t);
    assert rest[0] == BS;
    RunCleanPrefix(a, rest, Init);
    EmptyConcat(a);
    BackspaceThenText(a, n, t);
  }

  /** `"abc"`, three backspaces, then `"xyz"` reconstructs to `"xyz"`. */
  lemma ReplayRetypeExample(raw: string)
    requires raw == "abc" + [BS, BS, BS] + "xyz"
    ensures Replayed(raw) == Some("xyz")
  {
    var a, t := "abc", "xyz";
    assert BsRun(3) == [BS, BS, BS];
    assert raw == a + BsRun(3) + t;
    ReplayRetype(a, 3, t);
    assert DropTail(a, 3) == [];
    EmptyConcat(t);
  }

  /** `"hello"`, two backspaces, then Erase in Line reconstructs to `"hel"`. */
  lemma EraseExample(s: string)
    requires s == "hello" + [BS, BS] + EraseLine
    ensures Replayed(s) == Some("hel")
  {
    var p := "hello" + [BS, BS];
    assert s == p + EraseLine + [];
    assert forall i :: 0 <= i < |p| ==> Quiet(p[i]);
    EraseLineKept();
    PrePassOneEscape(p, EraseLine, []);
    EraseExampleApply(s);
    ReplayedOf(s, Edit("hel", "", 0, false));
  }

  lemma EraseExampleApply(s: string)
    requires s == "hello" + [BS, BS] + EraseLine
    ensures Apply(Lex(s), Init) == Some(Edit("hel", "", 0, false))
  {
    var r := "hello";
    var rest := [BS, BS] + EraseLine;
    assert s == r + rest;
    EmptyConcat(r);
    RunCleanPrefix(r, rest, Init);
    EraseTail(rest);
  }

  lemma EraseTail(rest: string)
    requires rest == [BS, BS] + EraseLine
    ensures Apply(Lex(rest), Edit("hello", "", 0, false)) == Some(Edit("hel", "", 0, false))
  {
    var r := "hello";
    var spliced := r[..|r| - 2] + "";
    assert spliced[..3] == "hel";
    assert rest == BsRun(2) + "" + EraseLine + BsRun(0);
    EraseAfterBackspaces(r, 2, "", 0);
  }

  /** `"cat"`, one backspace, then an inserted `r` overwrites the `t`: `"car"`. */
  lemma OverwriteExample(s: string)
    requires s == "cat" + [BS] + InsertPrefix + ['r']
    ensures Replayed(s) == Some("car")
  {
    var p := "cat" + [BS];
    assert s == p + (InsertPrefix + ['r']) + [];
    assert forall i :: 0 <= i < |p| ==> Quiet(p[i]);
    InsertKept('r');
    PrePassOneEscape(p, InsertPrefix + ['r'], []);
    OverwriteExampleApply(s);
    ReplayedOf(s, Edit("car", "", 0, true));
  }

  lemma OverwriteExampleApply(s: string)
    requires s == "cat" + [BS] + InsertPrefix + ['r']
    ensures Apply(Lex(s), Init) == Some(Edit("car", "", 0, true))
  {
    var r := "cat";
    assert r[..2] + ['r'] + r[3..] == "car";
    var rest := BsRun(1) + InsertPrefix + ['r'] + [];
    assert rest == [BS] + InsertPrefix + ['r'];
    assert s == r + rest;
    EmptyConcat(r);
    RunCleanPrefix(r, rest, Init);
    InsertAfterBackspaces(r, 1, 'r', []);
  }

  /**
   * `"abc"`, a backspace, an inserted `x`, another backspace, then `d`:
   * the second backspace run cuts `result[0:-0]` and the replay gives `"d"`.
   */
  lemma WipeExample(s: string)
    requires s == "abc" + [BS] + InsertPrefix + ['x'] + [BS] + "d"
    ensures Replayed(s) == Some("d")
  {
    WipeFinish();
    WipePrePass(s);
    WipeExampleApply(s);
    ReplayedOf(s, Edit("", "d", 1, true));
  }

  /** At the end of the example the open region holds only `"d"`. */
  lemma WipeFinish()
    ensures Finish(Edit("", "d", 1, true)) == "d"
  {
    assert DropTail("", 1) == "";
  }

  /** The example has one escape, an Insert Character, which the pre-pass keeps. */
  lemma WipePrePass(s: string)
    requires s == "abc" + [BS] + InsertPrefix + ['x'] + [BS] + "d"
    ensures RemoveObstruct(s) == s
  {
    var p, q := "abc" + [BS], [BS] + "d";
    assert s == p + (InsertPrefix + ['x']) + q;
    assert forall i :: 0 <= i < |p| ==> Quiet(p[i]);
    assert forall i :: 0 <= i < |q| ==> Quiet(q[i]);
    InsertKept('x');
    PrePassOneEscape(p, InsertPrefix + ['x'], q);
  }

  lemma WipeExampleApply(s: string)
    requires s == "abc" + [BS] + InsertPrefix + ['x'] + [BS] + "d"
    ensures Apply(Lex(s), Init) == Some(Edit("", "d", 1, true))
  {
    var more := BsRun(1) + "d";
    var rest := BsRun(1) + InsertPrefix + ['x'] + more;
    assert s == "abc" + rest by {
      assert more == [BS] + "d";
    }
    calc {
      Apply(Lex(s), Init);
      { WipeTyped(rest); }
      Apply(Lex(rest), Edit("abc", "", 0, false));
      { WipeInsert(more); }
      Apply(Lex(more), Edit("abx", "", 0, true));
      { BackspaceAfterInsertRunWipes("abx", "", 1, "d"); }
      Some(Edit("", "d", 1, true));
    }
  }

  /** In the example, the clean prefix "abc" is typed into the result. */
  lemma WipeTyped(rest: string)
    requires rest != [] && rest[0] == BS
    ensures Apply(Lex("abc" + rest), Init) == Apply(Lex(rest), Edit("abc", "", 0, false))
  {
    RunCleanPrefix("abc", rest, Init);
    EmptyConcat("abc");
  }

  /** In the example, the insertion replaces the 'c' under the cursor. */
  lemma WipeInsert(more: string)
    requires more != [] && more[0] == BS
    ensures Apply(Lex(BsRun(1) + InsertPrefix + ['x'] + more), Edit("abc", "", 0, false))
              == Apply(Lex(more), Edit("abx", "", 0, true))
  {
    var r := "abc";
    InsertAfterBackspaces(r, 1, 'x', more);
    var i := |r| - 1;
    assert r[i] == 'c';
    assert r[..i] + ['x'] + r[i + 1..] == "abx" by {
      assert r[..i] == "ab" && r[i + 1..] == [];
    }
  }
}

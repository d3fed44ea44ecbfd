/**
 * What the noise pre-pass of the reconstructor keeps and what it removes.
 * The substitution drops BEL, CR and `ESC [ 1 P` and keeps every other
 * character in order; the rewrite loop drops each backspace/cursor-right
 * pair, and the strips drop the surrounding whitespace.
 */
module SshPrePassProps {
  import opened PyText
  import opened SshReconstruct
  import opened SeqFacts

  /** Text without backspaces or escapes: the tokenizer sees only words and single characters in it. */
  predicate Clean(s: string) {
    forall i :: 0 <= i < |s| ==> s[i] != BS && s[i] != ESC
  }

  /** A character the substitution never starts a match on. */
  predicate Quiet(c: char) {
    c != BEL && c != CR && c != ESC
  }

  /** Cursor Forward (CUF, section 8.3.20 of ECMA-48): the second half of a cursor pair. */
  const CursorRight: string := [ESC, '[', 'C']

  // ---------------------------------------------------------------------------
  // The substitution: BEL, CR and Delete Character go, the rest stays in order
  // ---------------------------------------------------------------------------

  /**
   * The substitution works piecewise: text is cut before a BEL, a CR or an
   * escape, and the two pieces are cleaned apart. No match of
   * `ESC [ 1 P` can run across such a cut.
   */
  lemma {:induction false} RemoveNoiseConcat(a: string, b: string)
    requires b == [] || b[0] == BEL || b[0] == CR || b[0] == ESC
    ensures RemoveNoise(a + b) == RemoveNoise(a) + RemoveNoise(b)
    decreases |a|
  {
    var s := a + b;
    if a == [] {
      assert s == b;
    } else if a[0] == BEL || a[0] == CR {
      DropOfConcat(a, b, 1);
      RemoveNoiseConcat(a[1..], b);
    } else if |a| >= 4 && a[..4] == DeleteChar {
      assert s[..4] == a[..4];
      DropOfConcat(a, b, 4);
      RemoveNoiseConcat(a[4..], b);
    } else {
      assert !(|s| >= 4 && s[..4] == DeleteChar) by {
        if |s| >= 4 && |a| < 4 {
          assert s[..4][|a|] == b[0];
        } else if |s| >= 4 {
          assert s[..4] == a[..4];
        }
      }
      DropOfConcat(a, b, 1);
      RemoveNoiseConcat(a[1..], b);
      Assoc([a[0]], RemoveNoise(a[1..]), RemoveNoise(b));
    }
  }

  /** BEL, CR and `ESC [ 1 P` are removed wherever they stand, and the text around them is kept. */
  lemma RemoveNoiseDrops(a: string, b: string)
    ensures RemoveNoise(a + [BEL] + b) == RemoveNoise(a) + RemoveNoise(b)
    ensures RemoveNoise(a + [CR] + b) == RemoveNoise(a) + RemoveNoise(b)
    ensures RemoveNoise(a + DeleteChar + b) == RemoveNoise(a) + RemoveNoise(b)
  {
    Assoc(a, [BEL], b);
    RemoveNoiseConcat(a, [BEL] + b);
    assert ([BEL] + b)[1..] == b;
    Assoc(a, [CR], b);
    RemoveNoiseConcat(a, [CR] + b);
    assert ([CR] + b)[1..] == b;
    Assoc(a, DeleteChar, b);
    RemoveNoiseConcat(a, DeleteChar + b);
    assert (DeleteChar + b)[..4] == DeleteChar && (DeleteChar + b)[4..] == b;
  }

  /** Characters that are not BEL, CR or an escape are kept, in order. */
  lemma {:induction false} RemoveNoisePlain(p: string, b: string)
    requires forall i :: 0 <= i < |p| ==> Quiet(p[i])
    ensures RemoveNoise(p + b) == p + RemoveNoise(b)
    decreases |p|
  {
    if p == [] {
      assert p + b == b;
    } else {
      var s := p + b;
      assert s[0] == p[0];
      DropOfConcat(p, b, 1);
      RemoveNoisePlain(p[1..], b);
      Assoc([p[0]], p[1..], RemoveNoise(b));
      assert [p[0]] + p[1..] == p;
    }
  }

  /**
   * An escape sequence other than `ESC [ 1 P`, with no BEL, CR or further
   * escape inside it, is kept whole.
   */
  lemma RemoveNoiseEscape(x: string, b: string)
    requires x != [] && x[0] == ESC && forall i :: 1 <= i < |x| ==> Quiet(x[i])
    requires !StartsWith(x, DeleteChar) && !StartsWith(DeleteChar, x)
    ensures RemoveNoise(x + b) == x + RemoveNoise(b)
  {
    var s := x + b;
    assert s[0] == ESC;
    assert !(|s| >= 4 && s[..4] == DeleteChar) by {
      if |s| >= 4 && |x| < 4 {
        assert s[..4][..|x|] == x;
        assert DeleteChar[..|x|] == x ==> StartsWith(DeleteChar, x);
      } else if |s| >= 4 {
        assert s[..4] == x[..4];
      }
    }
    DropOfConcat(x, b, 1);
    RemoveNoisePlain(x[1..], b);
    Assoc([x[0]], x[1..], RemoveNoise(b));
    assert [x[0]] + x[1..] == x;
  }

  /** Text without BEL, CR or a Delete Character sequence is left as it is. */
  lemma {:induction false} RemoveNoiseKeeps(s: string)
    requires BEL !in s && CR !in s && !Occurs(s, DeleteChar)
    ensures RemoveNoise(s) == s
  {
    if s != [] {
      if |s| >= 4 && s[..4] == DeleteChar {
        assert OccursAt(s, DeleteChar, 0);
      }
      if Occurs(s[1..], DeleteChar) {
        var i :| 0 <= i <= |s[1..]| && OccursAt(s[1..], DeleteChar, i);
        assert s[i + 1..i + 5] == s[1..][i..i + 4];
        assert OccursAt(s, DeleteChar, i + 1);
      }
      RemoveNoiseKeeps(s[1..]);
      assert [s[0]] + s[1..] == s;
    }
  }

  // ---------------------------------------------------------------------------
  // The strips
  // ---------------------------------------------------------------------------

  lemma StripKeeps(s: string)
    requires Clean(s) && BEL !in s && CR !in s
    ensures Clean(Strip(s)) && BEL !in Strip(s) && CR !in Strip(s)
  {
    var l := LStrip(s);
    assert forall i :: 0 <= i < |l| ==> l[i] == s[|s| - |l| + i];
    var r := RStrip(l);
    assert forall i :: 0 <= i < |r| ==> r[i] == l[i];
  }

  lemma StripTrimmed(s: string)
    requires s != [] && !IsSpace(s[0]) && !IsSpace(s[|s| - 1])
    ensures Strip(s) == s
  {
    assert SpaceRun(s) == 0;
    assert LStrip(s) == s;
  }

  /** Leading whitespace ends at the first non-space character. */
  lemma {:induction false} LStripConcat(a: string, c: string)
    requires c != [] && !IsSpace(c[0])
    ensures LStrip(a + c) == LStrip(a) + c
  {
    if a == [] {
      assert a + c == c;
      assert SpaceRun(c) == 0;
    } else if IsSpace(a[0]) {
      LStripConcat(a[1..], c);
      assert (a + c)[1..] == a[1..] + c;
    } else {
      assert SpaceRun(a + c) == 0 && SpaceRun(a) == 0;
    }
  }

  /** Trailing whitespace starts after the last non-space character. */
  lemma {:induction false} RStripConcat(d: string, b: string)
    requires d != [] && !IsSpace(d[|d| - 1])
    ensures RStrip(d + b) == d + RStrip(b)
    decreases |b|
  {
    if b == [] {
      assert d + b == d;
    } else if IsSpace(b[|b| - 1]) {
      assert (d + b)[..|d + b| - 1] == d + b[..|b| - 1];
      RStripConcat(d, b[..|b| - 1]);
    } else {
      assert (d + b)[|d + b| - 1] == b[|b| - 1];
    }
  }

  // ---------------------------------------------------------------------------
  // The rewrite loop
  // ---------------------------------------------------------------------------

  lemma NoEscNoDelete(s: string)
    requires ESC !in s
    ensures !Occurs(s, DeleteChar) && !Occurs(s, CursorPair)
  {
    forall i | 0 <= i <= |s|
      ensures !OccursAt(s, DeleteChar, i) && !OccursAt(s, CursorPair, i)
    {
      if i + 4 <= |s| {
        assert s[i..i + 4][0] == s[i] != ESC;
        assert s[i..i + 4][1] == s[i + 1] != ESC;
      }
    }
  }

  /** Text without backspaces has no cursor pair. */
  lemma NoBsNoPair(s: string)
    requires BS !in s
    ensures !Occurs(s, CursorPair)
  {
    forall i | 0 <= i <= |s|
      ensures !OccursAt(s, CursorPair, i)
    {
      if i + 4 <= |s| {
        assert s[i..i + 4][0] == s[i] != BS;
      }
    }
  }

  /** The literal removal keeps text in which its pattern cannot start, in order. */
  lemma {:induction false} RemoveAllPlainPrefix(p: string, y: string, pat: string)
    requires pat != [] && pat[0] !in p
    ensures RemoveAll(p + y, pat) == p + RemoveAll(y, pat)
    decreases |p|
  {
    if p == [] {
      assert p + y == y;
    } else {
      var s := p + y;
      assert s[0] == p[0] != pat[0];
      assert |s| >= |pat| ==> s[..|pat|][0] != pat[0];
      DropOfConcat(p, y, 1);
      RemoveAllPlainPrefix(p[1..], y, pat);
      Assoc([p[0]], p[1..], RemoveAll(y, pat));
      assert [p[0]] + p[1..] == p;
    }
  }

  /**
   * A cursor pair between two pieces of text without backspaces: the loop
   * removes the pair and stops, keeping both pieces in order.
   */
  lemma DropOnePair(p: string, q: string)
    requires forall i :: 0 <= i < |p| ==> p[i] != BS
    requires forall i :: 0 <= i < |q| ==> q[i] != BS
    requires q == [] || !IsSpace(q[|q| - 1])
    ensures DropCursorPairs(p + CursorPair + q) == p + q
  {
    var x := p + CursorPair + q;
    Assoc(p, CursorPair, q);
    assert OccursAt(x, CursorPair, |p|) by {
      assert x[|p|..|p| + 4] == CursorPair;
    }
    assert RStrip(x) == x by {
      assert x[|x| - 1] == if q == [] then 'C' else q[|q| - 1];
    }
    RemoveAllPlainPrefix(p, CursorPair + q, CursorPair);
    assert (CursorPair + q)[..4] == CursorPair && (CursorPair + q)[4..] == q;
    RemoveAllPlainPrefix(q, [], CursorPair);
    assert q + [] == q;
    assert RemoveAll([], CursorPair) == [];
    assert BS !in p + q;
    NoBsNoPair(p + q);
  }

  // ---------------------------------------------------------------------------
  // The whole pre-pass
  // ---------------------------------------------------------------------------

  /** On text without escapes, BEL or CR the whole pre-pass is the strip. */
  lemma RemoveObstructClean(raw: string)
    requires Clean(raw) && BEL !in raw && CR !in raw
    ensures RemoveObstruct(raw) == Strip(raw) && Clean(Strip(raw))
  {
    var x := Strip(raw);
    StripKeeps(raw);
    assert ESC !in x;
    NoEscNoDelete(x);
    RemoveNoiseKeeps(x);
  }

  /**
   * A cursor pair inside otherwise clean text cancels out: the pre-pass
   * gives the text before it without leading whitespace, followed by the
   * text after it without trailing whitespace.
   */
  lemma RemoveObstructPair(a: string, b: string)
    requires Clean(a) && Clean(b) && BEL !in a + b && CR !in a + b
    ensures RemoveObstruct(a + CursorPair + b) == LStrip(a) + RStrip(b)
  {
    var p, q := LStrip(a), RStrip(b);
    StripAroundPair(a, b);
    SidesQuiet(a, b);
    NoiseAroundPair(p, q);
    DropOnePair(p, q);
  }

  /** The stripped sides of clean text hold neither noise, escapes nor backspaces. */
  lemma SidesQuiet(a: string, b: string)
    requires Clean(a) && Clean(b) && BEL !in a + b && CR !in a + b
    ensures forall i :: 0 <= i < |LStrip(a)| ==> Quiet(LStrip(a)[i]) && LStrip(a)[i] != BS
    ensures forall i :: 0 <= i < |RStrip(b)| ==> Quiet(RStrip(b)[i]) && RStrip(b)[i] != BS
    ensures RStrip(b) == [] || !IsSpace(RStrip(b)[|RStrip(b)| - 1])
  {
    var p, q := LStrip(a), RStrip(b);
    assert forall i :: 0 <= i < |a| ==> a[i] in a + b;
    assert forall i :: 0 <= i < |b| ==> b[i] == (a + b)[|a| + i];
    assert forall i :: 0 <= i < |p| ==> p[i] == a[|a| - |p| + i];
    assert forall i :: 0 <= i < |q| ==> q[i] == b[i];
  }

  /** The strip of text around a cursor pair strips the text on each side. */
  lemma StripAroundPair(a: string, b: string)
    ensures Strip(a + CursorPair + b) == LStrip(a) + CursorPair + RStrip(b)
  {
    Assoc(a, CursorPair, b);
    LStripConcat(a, CursorPair + b);
    Assoc(LStrip(a), CursorPair, b);
    var d := LStrip(a) + CursorPair;
    assert d[|d| - 1] == 'C';
    RStripConcat(d, b);
  }

  /** The substitution leaves a cursor pair between quiet text alone. */
  lemma NoiseAroundPair(p: string, q: string)
    requires forall i :: 0 <= i < |p| ==> Quiet(p[i]) && p[i] != BS
    requires forall i :: 0 <= i < |q| ==> Quiet(q[i])
    ensures RemoveNoise(p + CursorPair + q) == p + CursorPair + q
  {
    var left := p + [BS];
    var right := CursorRight + q;
    PairSplit(p, q);
    assert forall i :: 0 <= i < |left| ==> Quiet(left[i]);
    CursorRightKept(q);
    calc {
      RemoveNoise(left + right);
      { RemoveNoiseConcat(left, right); }
      RemoveNoise(left) + RemoveNoise(right);
      { RemoveNoiseQuiet(left); }
      left + RemoveNoise(right);
    }
  }

  lemma PairSplit(p: string, q: string)
    ensures p + CursorPair + q == (p + [BS]) + (CursorRight + q)
    ensures (CursorRight + q)[0] == ESC
  {
    assert CursorPair == [BS] + CursorRight;
  }

  /** The cursor-right half of a pair, and quiet text after it, pass the substitution. */
  lemma CursorRightKept(q: string)
    requires forall i :: 0 <= i < |q| ==> Quiet(q[i])
    ensures RemoveNoise(CursorRight + q) == CursorRight + q
  {
    assert !StartsWith(CursorRight, DeleteChar) && !StartsWith(DeleteChar, CursorRight) by {
      assert DeleteChar[..3] != CursorRight by { assert DeleteChar[2] != CursorRight[2]; }
    }
    RemoveNoiseEscape(CursorRight, q);
    RemoveNoiseQuiet(q);
  }

  /** Quiet text passes the substitution unchanged. */
  lemma RemoveNoiseQuiet(p: string)
    requires forall i :: 0 <= i < |p| ==> Quiet(p[i])
    ensures RemoveNoise(p) == p
  {
    RemoveNoisePlain(p, []);
    assert p + [] == p;
  }

  /**
   * Clean text around one escape sequence that is neither Delete Character
   * nor cursor-right, with no whitespace at either end, passes the whole
   * pre-pass unchanged.
   */
  lemma PrePassOneEscape(p: string, x: string, q: string)
    requires forall i :: 0 <= i < |p| ==> Quiet(p[i])
    requires forall i :: 0 <= i < |q| ==> Quiet(q[i])
    requires |x| >= 3 && x[0] == ESC && x[2] != 'C' && forall i :: 1 <= i < |x| ==> Quiet(x[i])
    requires !StartsWith(x, DeleteChar) && !StartsWith(DeleteChar, x)
    requires p != [] && !IsSpace(p[0]) && !IsSpace((x + q)[|x + q| - 1])
    ensures RemoveObstruct(p + x + q) == p + x + q
  {
    var s := p + x + q;
    Assoc(p, x, q);
    assert s[0] == p[0] && s[|s| - 1] == (x + q)[|x + q| - 1];
    StripTrimmed(s);
    RemoveNoisePlain(p, x + q);
    RemoveNoiseEscape(x, q);
    RemoveNoisePlain(q, []);
    assert q + [] == q;
    NoPairAroundEscape(p, x, q);
  }

  /** A cursor pair needs its `ESC` to be followed by `[ C`, which the one escape is not. */
  lemma NoPairAroundEscape(p: string, x: string, q: string)
    requires forall i :: 0 <= i < |p| ==> Quiet(p[i])
    requires forall i :: 0 <= i < |q| ==> Quiet(q[i])
    requires |x| >= 3 && x[0] == ESC && x[2] != 'C' && forall i :: 1 <= i < |x| ==> Quiet(x[i])
    ensures !Occurs(p + x + q, CursorPair)
  {
    var s := p + x + q;
    forall k | 0 <= k < |s| && k != |p|
      ensures s[k] != ESC
    {
      if k < |p| {
        assert s[k] == p[k];
      } else if k < |p| + |x| {
        assert s[k] == x[k - |p|];
      } else {
        assert s[k] == q[k - |p| - |x|];
      }
    }
    forall i | 0 <= i <= |s|
      ensures !OccursAt(s, CursorPair, i)
    {
      if i + 4 <= |s| {
        if i + 1 == |p| {
          assert s[i..i + 4][3] == s[i + 3] == x[2];
        } else {
          assert s[i..i + 4][1] == s[i + 1];
        }
      }
    }
  }

  /** Erase in Line is an escape sequence the pre-pass keeps. */
  lemma EraseLineKept()
    ensures |EraseLine| >= 3 && EraseLine[0] == ESC && EraseLine[2] != 'C'
    ensures forall i :: 1 <= i < |EraseLine| ==> Quiet(EraseLine[i])
    ensures !StartsWith(EraseLine, DeleteChar) && !StartsWith(DeleteChar, EraseLine)
  {
    assert DeleteChar[..3] != EraseLine by { assert DeleteChar[2] != EraseLine[2]; }
  }

  /** Insert Character with a quiet character is an escape sequence the pre-pass keeps. */
  lemma InsertKept(c: char)
    requires Quiet(c)
    ensures var x := InsertPrefix + [c];
            && |x| >= 3 && x[0] == ESC && x[2] != 'C'
            && (forall i :: 1 <= i < |x| ==> Quiet(x[i]))
            && !StartsWith(x, DeleteChar) && !StartsWith(DeleteChar, x)
  {
    var x := InsertPrefix + [c];
    assert x[..4] == InsertPrefix;
    assert InsertPrefix != DeleteChar by { assert InsertPrefix[3] != DeleteChar[3]; }
  }
}

/**
 * Reply formatting of `submit_prompt`: `re.sub(r"\n+", "\n\n", text)`, which
 * turns every maximal run of ONE or more newlines into exactly two.
 */
module Newlines {
  import opened Text

  predicate IsNewline(c: char)
  {
    c == '\n'
  }

  /** `re.sub(r"\n+", "\n\n", s)`: each maximal newline run becomes `"\n\n"`. */
  function NormalizeNewlines(s: string): (r: string)
    ensures (r != [] && r[0] == '\n') <==> (s != [] && s[0] == '\n')
    decreases |s|
  {
    if s == [] then []
    else if s[0] == '\n' then "\n\n" + NormalizeNewlines(TrimStart(s, IsNewline))
    else [s[0]] + NormalizeNewlines(s[1..])
  }

  /**
   * Every newline has a newline neighbour and no three newlines are
   * adjacent: every maximal newline run has length exactly two.
   */
  predicate WellSpaced(s: string)
  {
    && (forall i {:trigger s[i]} :: 0 <= i < |s| && s[i] == '\n' ==>
          (0 < i && s[i - 1] == '\n') || (i + 1 < |s| && s[i + 1] == '\n'))
    && (forall i {:trigger s[i]} :: 0 <= i < |s| - 2 ==> !(s[i] == '\n' && s[i + 1] == '\n' && s[i + 2] == '\n'))
  }

  /** `s[i..j]` is a maximal run of newlines in `s`. */
  ghost predicate MaximalRun(s: string, i: int, j: int)
  {
    && 0 <= i < j <= |s|
    && (forall k :: i <= k < j ==> s[k] == '\n')
    && (i == 0 || s[i - 1] != '\n')
    && (j == |s| || s[j] != '\n')
  }

  ghost predicate RunsOfTwo(s: string)
  {
    forall i, j :: MaximalRun(s, i, j) ==> j - i == 2
  }

  /** The well-spaced texts are exactly those whose maximal newline runs all have length two. */
  lemma WellSpacedIffRunsOfTwo(s: string)
    ensures WellSpaced(s) <==> RunsOfTwo(s)
  {
    if WellSpaced(s) {
      WellSpacedRuns(s);
    }
    if RunsOfTwo(s) {
      RunsAreWellSpaced(s);
    }
  }

  lemma WellSpacedRuns(s: string)
    requires WellSpaced(s)
    ensures RunsOfTwo(s)
  {
    forall i, j | MaximalRun(s, i, j) ensures j - i == 2 {
      assert s[i] == '\n';
      assert i + 1 < |s| && s[i + 1] == '\n';
      assert j != i + 1;
      assert i + 2 < |s| ==> (s[i + 2] == '\n' <==> j > i + 2);
    }
  }

  lemma RunsAreWellSpaced(s: string)
    requires RunsOfTwo(s)
    ensures WellSpaced(s)
  {
    forall i {:trigger s[i]} | 0 <= i < |s|
      ensures s[i] == '\n' ==> (0 < i && s[i - 1] == '\n') || (i + 1 < |s| && s[i + 1] == '\n')
    {
      if s[i] == '\n' {
        var a, b := RunAround(s, i);
        assert b - a == 2;
        if a == i {
          assert i + 1 < b;
        }
      }
    }
    forall i {:trigger s[i]} | 0 <= i < |s| - 2
      ensures !(s[i] == '\n' && s[i + 1] == '\n' && s[i + 2] == '\n')
    {
      if s[i] == '\n' && s[i + 1] == '\n' && s[i + 2] == '\n' {
        var a, b := RunAround(s, i);
        assert false;
      }
    }
  }

  /** The maximal run of newlines that contains position `i`. */
  lemma RunAround(s: string, i: int) returns (a: int, b: int)
    requires 0 <= i < |s| && s[i] == '\n'
    ensures MaximalRun(s, a, b) && a <= i < b
    ensures (a < i ==> s[i - 1] == '\n') && (i + 1 < b ==> s[i + 1] == '\n')
    ensures i + 2 < b ==> s[i + 2] == '\n'
  {
    a := i;
    while a > 0 && s[a - 1] == '\n'
      invariant 0 <= a <= i
      invariant forall k :: a <= k <= i ==> s[k] == '\n'
    {
      a := a - 1;
    }
    b := i + 1;
    while b < |s| && s[b] == '\n'
      invariant i < b <= |s|
      invariant forall k :: a <= k < b ==> s[k] == '\n'
    {
      b := b + 1;
    }
  }

  lemma WellSpacedCons(c: char, t: string)
    requires c != '\n' && WellSpaced(t)
    ensures WellSpaced([c] + t)
  {
    var s := [c] + t;
    assert forall i :: 1 <= i < |s| ==> s[i] == t[i - 1];
  }

  lemma WellSpacedPair(t: string)
    requires WellSpaced(t) && (t == [] || t[0] != '\n')
    ensures WellSpaced("\n\n" + t)
  {
    var s := "\n\n" + t;
    assert forall i :: 2 <= i < |s| ==> s[i] == t[i - 2];
    forall i | 2 <= i < |s| && s[i] == '\n'
      ensures (0 < i && s[i - 1] == '\n') || (i + 1 < |s| && s[i + 1] == '\n')
    {
      assert t[i - 2] == '\n';
      assert i - 2 > 0;
      assert (t[i - 3] == '\n') || (i - 1 < |t| && t[i - 1] == '\n');
    }
  }

  /** Every maximal newline run of a normalised text has length exactly two. */
  lemma {:induction false} NormalizedIsWellSpaced(s: string)
    ensures WellSpaced(NormalizeNewlines(s))
    ensures RunsOfTwo(NormalizeNewlines(s))
    decreases |s|
  {
    if s != [] {
      if s[0] == '\n' {
        var t := TrimStart(s, IsNewline);
        TrimStartShape(s, IsNewline);
        NormalizedIsWellSpaced(t);
        WellSpacedPair(NormalizeNewlines(t));
      } else {
        NormalizedIsWellSpaced(s[1..]);
        WellSpacedCons(s[0], NormalizeNewlines(s[1..]));
      }
    }
    WellSpacedIffRunsOfTwo(NormalizeNewlines(s));
  }

  /** A well-spaced text that starts with a newline starts with exactly two. */
  lemma WellSpacedPairHead(s: string)
    requires WellSpaced(s) && s != [] && s[0] == '\n'
    ensures |s| >= 2 && s[1] == '\n' && s == "\n\n" + s[2..]
    ensures s[2..] == [] || s[2..][0] != '\n'
    ensures WellSpaced(s[2..])
    ensures TrimStart(s, IsNewline) == s[2..]
  {
    var rest := s[2..];
    assert 1 < |s| && s[1] == '\n';
    assert s == "\n\n" + rest;
    assert forall i :: 0 <= i < |rest| ==> rest[i] == s[i + 2];
    assert s[1..][1..] == rest;
    assert TrimStart(rest, IsNewline) == rest;
    assert TrimStart(s[1..], IsNewline) == TrimStart(rest, IsNewline);
  }

  lemma WellSpacedTail(s: string)
    requires WellSpaced(s) && s != [] && s[0] != '\n'
    ensures WellSpaced(s[1..]) && s == [s[0]] + s[1..]
  {
    var rest := s[1..];
    assert forall i :: 0 <= i < |rest| ==> rest[i] == s[i + 1];
    forall i | 0 <= i < |rest| && rest[i] == '\n'
      ensures (0 < i && rest[i - 1] == '\n') || (i + 1 < |rest| && rest[i + 1] == '\n')
    {
      assert s[i + 1] == '\n';
      assert s[i] == '\n' || (i + 2 < |s| && s[i + 2] == '\n');
    }
  }

  lemma {:induction false} WellSpacedIsFixed(s: string)
    requires WellSpaced(s)
    ensures NormalizeNewlines(s) == s
    decreases |s|
  {
    if s != [] {
      if s[0] == '\n' {
        WellSpacedPairHead(s);
        WellSpacedIsFixed(s[2..]);
      } else {
        WellSpacedTail(s);
        WellSpacedIsFixed(s[1..]);
      }
    }
  }

  /** The fixed points of normalisation are exactly the well-spaced texts. */
  lemma NormalizeFixedPoints(s: string)
    ensures NormalizeNewlines(s) == s <==> WellSpaced(s)
  {
    NormalizedIsWellSpaced(s);
    if WellSpaced(s) {
      WellSpacedIsFixed(s);
    }
  }

  /** Normalising twice is the same as normalising once. */
  lemma NormalizeIdempotent(s: string)
    ensures NormalizeNewlines(NormalizeNewlines(s)) == NormalizeNewlines(s)
  {
    NormalizedIsWellSpaced(s);
    NormalizeFixedPoints(NormalizeNewlines(s));
  }

  /** Text without newlines is left unchanged. */
  lemma NewlineFreeUnchanged(s: string)
    requires '\n' !in s
    ensures NormalizeNewlines(s) == s
  {
    NormalizeFixedPoints(s);
  }

  /** `run` is a non-empty run of newlines. */
  predicate NewlineRun(run: string)
  {
    run != [] && forall i :: 0 <= i < |run| ==> run[i] == '\n'
  }

  /**
   * Normalisation works in place: a maximal run of newlines between `x` and
   * `y`, however long, becomes exactly `"\n\n"` at the same position, and the
   * text on either side is normalised on its own.
   */
  lemma {:induction false} NormalizeSplice(x: string, run: string, y: string)
    requires NewlineRun(run)
    requires x == [] || x[|x| - 1] != '\n'
    requires y == [] || y[0] != '\n'
    ensures NormalizeNewlines(x + run + y) == NormalizeNewlines(x) + "\n\n" + NormalizeNewlines(y)
    decreases |x|
  {
    if x == [] {
      RunThenText(run, y);
      assert x + run + y == run + y;
    } else if x[0] != '\n' {
      assert x + run + y == x + (run + y) && x[1..] + run + y == x[1..] + (run + y);
      NormalizeSplice(x[1..], run, y);
      ConcatAssoc(NormalizeNewlines(x[1..]), "\n\n", NormalizeNewlines(y));
      SpliceAfterVisible(x, run + y, "\n\n" + NormalizeNewlines(y));
      ConcatAssoc(NormalizeNewlines(x), "\n\n", NormalizeNewlines(y));
    } else {
      var t := TrimStart(x, IsNewline);
      assert x + run + y == x + (run + y);
      SpliceAfterNewlines(x, run + y);
      assert t + run + y == t + (run + y);
      NormalizeSplice(t, run, y);
      ConcatAssoc(NormalizeNewlines(t), "\n\n", NormalizeNewlines(y));
      ConcatAssoc("\n\n", NormalizeNewlines(t), "\n\n" + NormalizeNewlines(y));
      ConcatAssoc(NormalizeNewlines(x), "\n\n", NormalizeNewlines(y));
    }
  }

  /** A leading non-newline is copied, before and after a splice alike. */
  lemma SpliceAfterVisible(x: string, z: string, w: string)
    requires x != [] && x[0] != '\n'
    requires NormalizeNewlines(x[1..] + z) == NormalizeNewlines(x[1..]) + w
    ensures NormalizeNewlines(x + z) == NormalizeNewlines(x) + w
  {
    assert (x + z)[0] == x[0] && (x + z)[1..] == x[1..] + z;
  }

  /**
   * A leading newline run of a text that ends in a non-newline becomes
   * `"\n\n"`, before and after a splice alike.
   */
  lemma SpliceAfterNewlines(x: string, z: string)
    requires x != [] && x[0] == '\n' && x[|x| - 1] != '\n'
    ensures var t := TrimStart(x, IsNewline);
      && t != [] && t[|t| - 1] != '\n' && |t| < |x|
      && NormalizeNewlines(x + z) == "\n\n" + NormalizeNewlines(t + z)
      && NormalizeNewlines(x) == "\n\n" + NormalizeNewlines(t)
  {
    var t := TrimStart(x, IsNewline);
    TrimStartAppend(x, z, IsNewline);
    TrimStartShape(x, IsNewline);
    assert (x + z)[0] == '\n';
    assert t != [] && t[|t| - 1] == x[|x| - 1];
  }

  /** A run of newlines before text that does not start with one becomes `"\n\n"`. */
  lemma RunThenText(run: string, y: string)
    requires NewlineRun(run)
    requires y == [] || y[0] != '\n'
    ensures NormalizeNewlines(run + y) == NormalizeNewlines([]) + "\n\n" + NormalizeNewlines(y)
  {
    assert (run + y)[0] == '\n';
    TrimStartBlankPrefix(run, y, IsNewline);
    assert TrimStart(y, IsNewline) == y;
  }

  /** The characters of `s` other than newlines, in order. */
  function Visible(s: string): (r: string)
    ensures '\n' !in r
  {
    if s == [] then [] else (if s[0] == '\n' then [] else [s[0]]) + Visible(s[1..])
  }

  lemma {:induction false} VisibleSkipsNewlines(s: string)
    ensures Visible(TrimStart(s, IsNewline)) == Visible(s)
  {
    if s != [] && s[0] == '\n' {
      VisibleSkipsNewlines(s[1..]);
    }
  }

  /**
   * Normalisation only rewrites newline runs: the other characters survive
   * in order, and the result has a newline exactly when the input has one.
   */
  lemma {:induction false} NormalizeKeepsText(s: string)
    ensures Visible(NormalizeNewlines(s)) == Visible(s)
    ensures '\n' in NormalizeNewlines(s) <==> '\n' in s
    decreases |s|
  {
    if s != [] {
      if s[0] == '\n' {
        var t := TrimStart(s, IsNewline);
        NormalizeKeepsText(t);
        VisibleSkipsNewlines(s);
        var r := NormalizeNewlines(s);
        assert r == "\n\n" + NormalizeNewlines(t);
        assert r[1..] == "\n" + NormalizeNewlines(t);
        assert r[2..] == NormalizeNewlines(t);
      } else {
        NormalizeKeepsText(s[1..]);
        assert NormalizeNewlines(s)[1..] == NormalizeNewlines(s[1..]);
      }
    }
  }
}

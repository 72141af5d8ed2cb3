/**
 * Sequence and string operations with the semantics of Python's `str` and
 * `bytes` methods that the model relies on: `split` on a one-element
 * separator, `join`, `strip` for a class of blank elements, `find` and
 * `replace(old, new, 1)`.
 */
module Text {
  import opened Wrappers

  /** Number of occurrences of `x` in `s`. */
  function Count<T(==)>(s: seq<T>, x: T): nat
  {
    if s == [] then 0 else (if s[0] == x then 1 else 0) + Count(s[1..], x)
  }

  lemma {:induction false} CountConcat<T>(a: seq<T>, b: seq<T>, x: T)
    ensures Count(a + b, x) == Count(a, x) + Count(b, x)
  {
    if a == [] {
      assert a + b == b;
    } else {
      assert (a + b)[1..] == a[1..] + b;
      CountConcat(a[1..], b, x);
    }
  }

  // ---------------------------------------------------------------------------
  // split and join
  // ---------------------------------------------------------------------------

  /**
   * `s.split(sep)`: the separator-free pieces between consecutive separators.
   * There is always one piece more than there are separators, so the result
   * is never empty (`"".split("\n") == [""]`).
   */
  function Split<T(==)>(s: seq<T>, sep: T): (parts: seq<seq<T>>)
    ensures |parts| == Count(s, sep) + 1
    ensures forall k :: 0 <= k < |parts| ==> sep !in parts[k]
  {
    if s == [] then [[]]
    else
      var rest := Split(s[1..], sep);
      if s[0] == sep then [[]] + rest
      else [[s[0]] + rest[0]] + rest[1..]
  }

  /** `sep.join(parts)`. */
  function Join<T>(sep: seq<T>, parts: seq<seq<T>>): seq<T>
  {
    if |parts| == 0 then []
    else if |parts| == 1 then parts[0]
    else parts[0] + sep + Join(sep, parts[1..])
  }

  /** `s` with every element equal to `sep` replaced by the sequence `with`. */
  function ReplaceEach<T(==)>(s: seq<T>, sep: T, with: seq<T>): seq<T>
  {
    if s == [] then [] else (if s[0] == sep then with else [s[0]]) + ReplaceEach(s[1..], sep, with)
  }

  /** Joining the pieces of a split with `with` replaces each separator by `with`. */
  lemma {:induction false} JoinSplitIsReplace<T>(s: seq<T>, sep: T, with: seq<T>)
    ensures Join(with, Split(s, sep)) == ReplaceEach(s, sep, with)
  {
    if s != [] {
      JoinSplitIsReplace(s[1..], sep, with);
      var rest := Split(s[1..], sep);
      if s[0] == sep {
        assert ([[]] + rest)[1..] == rest;
      } else if |rest| > 1 {
        assert ([[s[0]] + rest[0]] + rest[1..])[1..] == rest[1..];
      }
    }
  }

  lemma {:induction false} ReplaceEachBySelf<T>(s: seq<T>, sep: T)
    ensures ReplaceEach(s, sep, [sep]) == s
  {
    if s != [] {
      ReplaceEachBySelf(s[1..], sep);
      assert [s[0]] + s[1..] == s;
    }
  }

  /** Round trip: `sep.join(s.split(sep)) == s`. */
  lemma JoinSplit<T>(s: seq<T>, sep: T)
    ensures Join([sep], Split(s, sep)) == s
  {
    JoinSplitIsReplace(s, sep, [sep]);
    ReplaceEachBySelf(s, sep);
  }

  /** A separator-free sequence splits into itself alone. */
  lemma {:induction false} SplitSeparatorFree<T>(x: seq<T>, sep: T)
    requires sep !in x
    ensures Split(x, sep) == [x]
  {
    if x != [] {
      SplitSeparatorFree(x[1..], sep);
      assert [x[0]] + x[1..] == x;
    }
  }

  /** A separator-free sequence splits into itself alone, stated without a precondition. */
  lemma SplitOneLine<T>(x: seq<T>, sep: T)
    ensures sep !in x ==> Split(x, sep) == [x]
  {
    if sep !in x {
      SplitSeparatorFree(x, sep);
    }
  }

  /** Associativity of `+`, stated over plain variables. */
  lemma ConcatAssoc<T>(a: seq<T>, b: seq<T>, c: seq<T>)
    ensures a + (b + c) == a + b + c
  {
  }

  /** Splitting distributes over a separator: the pieces of both sides, in order. */
  lemma {:induction false} SplitAtSeparator<T>(x: seq<T>, sep: T, y: seq<T>)
    ensures Split(x + [sep] + y, sep) == Split(x, sep) + Split(y, sep)
  {
    if x == [] {
      assert x + [sep] + y == [sep] + y;
      assert ([sep] + y)[1..] == y;
    } else {
      assert (x + [sep] + y)[1..] == x[1..] + [sep] + y;
      SplitAtSeparator(x[1..], sep, y);
    }
  }

  /**
   * The last piece of a split (`s.split(sep)[-1]`) is the separator-free
   * suffix of `s` that is either all of `s` or preceded by a separator.
   */
  lemma {:induction false} LastPieceShape<T>(s: seq<T>, sep: T)
    ensures var parts := Split(s, sep); var last := parts[|parts| - 1];
      && |last| <= |s| && last == s[|s| - |last|..]
      && sep !in last
      && (|last| == |s| || s[|s| - |last| - 1] == sep)
  {
    if s != [] {
      LastPieceShape(s[1..], sep);
      var rest := Split(s[1..], sep);
      if s[0] == sep {
        assert Split(s, sep)[|Split(s, sep)| - 1] == rest[|rest| - 1];
      } else if |rest| == 1 {
        JoinSplit(s[1..], sep);
        assert [s[0]] + s[1..] == s;
      } else {
        var last := rest[|rest| - 1];
        assert Split(s, sep)[|Split(s, sep)| - 1] == last;
        if |last| == |s[1..]| {
          assert last == s[1..];
          SplitSeparatorFree(s[1..], sep);
        }
        assert last == s[|s| - |last|..];
      }
    }
  }

  /** Conversely, a separator-free suffix that is all of `s` or follows a separator is the last piece. */
  lemma LastPieceIs<T>(s: seq<T>, sep: T, t: seq<T>)
    requires |t| <= |s| && t == s[|s| - |t|..] && sep !in t
    requires |t| == |s| || s[|s| - |t| - 1] == sep
    ensures var parts := Split(s, sep); parts[|parts| - 1] == t
  {
    if |t| == |s| {
      assert s == t;
      SplitSeparatorFree(s, sep);
    } else {
      var x := s[..|s| - |t| - 1];
      assert s == x + [sep] + t;
      SplitAtSeparator(x, sep, t);
      SplitSeparatorFree(t, sep);
    }
  }

  /**
   * The last piece of a split is a given separator-free word `w` exactly when
   * `s` is `w` itself or ends in a separator followed by `w`.
   */
  lemma LastPieceIsWord<T>(s: seq<T>, sep: T, w: seq<T>)
    requires sep !in w
    ensures var parts := Split(s, sep);
      parts[|parts| - 1] == w <==> (s == w || (|s| > |w| && s[|s| - |w| - 1..] == [sep] + w))
  {
    LastPieceShape(s, sep);
    var parts := Split(s, sep);
    var last := parts[|parts| - 1];
    if last == w && s != w {
      assert s[|s| - |w| - 1..] == [s[|s| - |w| - 1]] + s[|s| - |w|..];
    }
    if s == w {
      LastPieceIs(s, sep, w);
    } else if |s| > |w| && s[|s| - |w| - 1..] == [sep] + w {
      var tail := s[|s| - |w| - 1..];
      assert s[|s| - |w|..] == tail[1..];
      assert s[|s| - |w| - 1] == tail[0];
      LastPieceIs(s, sep, w);
    }
  }

  /** Every piece but the last followed by `pad`. */
  function Padded<T>(parts: seq<seq<T>>, pad: seq<T>): (r: seq<seq<T>>)
    ensures |r| == |parts|
  {
    seq(|parts|, k requires 0 <= k < |parts| => if k < |parts| - 1 then parts[k] + pad else parts[k])
  }

  /**
   * Joining separator-free pieces with `pad + [sep]` and splitting the result
   * at `sep` gives back the pieces, all but the last now ending in `pad`.
   */
  lemma {:induction false} SplitJoinPadded<T>(parts: seq<seq<T>>, pad: seq<T>, sep: T)
    requires |parts| >= 1
    requires sep !in pad
    requires forall k :: 0 <= k < |parts| ==> sep !in parts[k]
    ensures Split(Join(pad + [sep], parts), sep) == Padded(parts, pad)
  {
    if |parts| == 1 {
      SplitSeparatorFree(parts[0], sep);
    } else {
      var tail := Join(pad + [sep], parts[1..]);
      SplitJoinPadded(parts[1..], pad, sep);
      var x := parts[0] + pad;
      assert Join(pad + [sep], parts) == x + [sep] + tail;
      SplitAtSeparator(x, sep, tail);
      SplitSeparatorFree(x, sep);
      assert Padded(parts, pad) == [x] + Padded(parts[1..], pad);
    }
  }

  /** Round trip: `sep.join(parts).split(sep) == parts` for separator-free pieces. */
  lemma {:induction false} SplitJoin<T>(parts: seq<seq<T>>, sep: T)
    requires |parts| >= 1
    requires forall k :: 0 <= k < |parts| ==> sep !in parts[k]
    ensures Split(Join([sep], parts), sep) == parts
  {
    if |parts| == 1 {
      SplitSeparatorFree(parts[0], sep);
    } else {
      SplitJoin(parts[1..], sep);
      SplitAtSeparator(parts[0], sep, Join([sep], parts[1..]));
      SplitSeparatorFree(parts[0], sep);
      assert parts == [parts[0]] + parts[1..];
    }
  }

  /** Every piece followed by `sep`: `"".join(p + sep for p in parts)`. */
  function Unlines<T>(parts: seq<seq<T>>, sep: T): seq<T>
  {
    if parts == [] then [] else parts[0] + [sep] + Unlines(parts[1..], sep)
  }

  lemma {:induction false} UnlinesAppend<T>(a: seq<seq<T>>, b: seq<seq<T>>, sep: T)
    ensures Unlines(a + b, sep) == Unlines(a, sep) + Unlines(b, sep)
  {
    if a == [] {
      assert a + b == b;
    } else {
      assert (a + b)[1..] == a[1..] + b;
      UnlinesAppend(a[1..], b, sep);
    }
  }

  /** Separator-terminated pieces split back into the pieces plus one empty piece. */
  lemma {:induction false} SplitUnlines<T>(parts: seq<seq<T>>, sep: T)
    requires forall k :: 0 <= k < |parts| ==> sep !in parts[k]
    ensures Split(Unlines(parts, sep), sep) == parts + [[]]
  {
    if parts != [] {
      SplitUnlines(parts[1..], sep);
      SplitAtSeparator(parts[0], sep, Unlines(parts[1..], sep));
      SplitSeparatorFree(parts[0], sep);
      assert parts == [parts[0]] + parts[1..];
    }
  }

  // ---------------------------------------------------------------------------
  // strip
  // ---------------------------------------------------------------------------

  /** `s` without its leading blank elements (`lstrip`). */
  function TrimStart<T>(s: seq<T>, blank: T -> bool): (r: seq<T>)
    ensures |r| <= |s|
  {
    if s != [] && blank(s[0]) then TrimStart(s[1..], blank) else s
  }

  /** `s` without its trailing blank elements (`rstrip`). */
  function TrimEnd<T>(s: seq<T>, blank: T -> bool): (r: seq<T>)
    ensures |r| <= |s|
  {
    if s != [] && blank(s[|s| - 1]) then TrimEnd(s[..|s| - 1], blank) else s
  }

  /** `s` without its leading and trailing blank elements (`strip`). */
  function Trim<T>(s: seq<T>, blank: T -> bool): seq<T>
  {
    TrimEnd(TrimStart(s, blank), blank)
  }

  /** `lstrip` removes a prefix of blank elements and leaves a non-blank one first. */
  lemma {:induction false} TrimStartShape<T>(s: seq<T>, blank: T -> bool)
    ensures var r := TrimStart(s, blank);
      && r == s[|s| - |r|..]
      && (forall i :: 0 <= i < |s| - |r| ==> blank(s[i]))
      && (r == [] || !blank(r[0]))
  {
    if s != [] && blank(s[0]) {
      TrimStartShape(s[1..], blank);
    }
  }

  /** `rstrip` removes a suffix of blank elements and leaves a non-blank one last. */
  lemma {:induction false} TrimEndShape<T>(s: seq<T>, blank: T -> bool)
    ensures var r := TrimEnd(s, blank);
      && r == s[..|r|]
      && (forall i :: |r| <= i < |s| ==> blank(s[i]))
      && (r == [] || !blank(r[|r| - 1]))
  {
    if s != [] && blank(s[|s| - 1]) {
      TrimEndShape(s[..|s| - 1], blank);
    }
  }

  /**
   * `strip` keeps a contiguous slice of `s`, with only blank elements outside
   * it and none at either of its ends.
   */
  lemma TrimShape<T>(s: seq<T>, blank: T -> bool)
    ensures var r := Trim(s, blank); var a := |s| - |TrimStart(s, blank)|;
      && a + |r| <= |s| && r == s[a..a + |r|]
      && (forall i :: 0 <= i < a ==> blank(s[i]))
      && (forall i :: a + |r| <= i < |s| ==> blank(s[i]))
      && (r == [] || (!blank(r[0]) && !blank(r[|r| - 1])))
  {
    var t := TrimStart(s, blank);
    var r := TrimEnd(t, blank);
    var a := |s| - |t|;
    TrimStartShape(s, blank);
    TrimEndShape(t, blank);
    assert r == s[a..a + |r|];
    forall i | a + |r| <= i < |s| ensures blank(s[i]) {
      assert s[i] == t[i - a];
    }
  }

  /** A sequence with no blank element at either end is its own strip. */
  lemma TrimFixed<T>(s: seq<T>, blank: T -> bool)
    requires s == [] || (!blank(s[0]) && !blank(s[|s| - 1]))
    ensures Trim(s, blank) == s
  {
  }

  /** Stripping twice is stripping once. */
  lemma TrimIdempotent<T>(s: seq<T>, blank: T -> bool)
    ensures Trim(Trim(s, blank), blank) == Trim(s, blank)
  {
    TrimShape(s, blank);
    TrimFixed(Trim(s, blank), blank);
  }

  lemma {:induction false} TrimStartBlankPrefix<T>(a: seq<T>, s: seq<T>, blank: T -> bool)
    requires forall i :: 0 <= i < |a| ==> blank(a[i])
    ensures TrimStart(a + s, blank) == TrimStart(s, blank)
  {
    if a == [] {
      assert a + s == s;
    } else {
      assert (a + s)[1..] == a[1..] + s;
      TrimStartBlankPrefix(a[1..], s, blank);
    }
  }

  /** `lstrip` of a sequence that ends in a non-blank element is unaffected by what follows it. */
  lemma {:induction false} TrimStartAppend<T>(x: seq<T>, z: seq<T>, blank: T -> bool)
    requires x != [] && !blank(x[|x| - 1])
    ensures TrimStart(x + z, blank) == TrimStart(x, blank) + z
  {
    assert (x + z)[0] == x[0];
    if blank(x[0]) {
      assert (x + z)[1..] == x[1..] + z;
      TrimStartAppend(x[1..], z, blank);
    }
  }

  lemma {:induction false} TrimEndBlankSuffix<T>(s: seq<T>, b: seq<T>, blank: T -> bool)
    requires forall i :: 0 <= i < |b| ==> blank(b[i])
    ensures TrimEnd(s + b, blank) == TrimEnd(s, blank)
  {
    if b == [] {
      assert s + b == s;
    } else {
      assert (s + b)[..|s + b| - 1] == s + b[..|b| - 1];
      TrimEndBlankSuffix(s, b[..|b| - 1], blank);
    }
  }

  /** Stripping a sequence surrounded by blank elements only removes them. */
  lemma TrimSurrounded<T>(a: seq<T>, s: seq<T>, b: seq<T>, blank: T -> bool)
    requires forall i :: 0 <= i < |a| ==> blank(a[i])
    requires forall i :: 0 <= i < |b| ==> blank(b[i])
    requires s != [] && !blank(s[0]) && !blank(s[|s| - 1])
    ensures Trim(a + s + b, blank) == s
  {
    assert a + s + b == a + (s + b);
    TrimStartBlankPrefix(a, s + b, blank);
    assert TrimStart(s + b, blank) == s + b;
    TrimEndBlankSuffix(s, b, blank);
  }

  // ---------------------------------------------------------------------------
  // find and replace-first
  // ---------------------------------------------------------------------------

  /** `p` occurs in `s` starting at index `i`. */
  predicate OccursAt<T(==)>(s: seq<T>, p: seq<T>, i: nat)
  {
    i + |p| <= |s| && s[i..i + |p|] == p
  }

  lemma OccursShift<T>(s: seq<T>, p: seq<T>)
    requires s != []
    ensures forall i: nat :: i >= 1 ==> (OccursAt(s, p, i) <==> OccursAt(s[1..], p, i - 1))
  {
    forall i: nat | i >= 1 ensures OccursAt(s, p, i) <==> OccursAt(s[1..], p, i - 1) {
      if i + |p| <= |s| {
        assert s[1..][i - 1..i - 1 + |p|] == s[i..i + |p|];
      }
    }
  }

  /** `s.find(p)`: the index of the first occurrence of `p` in `s`, if any. */
  function FindFirst<T(==)>(s: seq<T>, p: seq<T>): (r: Option<nat>)
    ensures r.Some? ==> OccursAt(s, p, r.value)
    ensures r.Some? ==> forall i: nat :: i < r.value ==> !OccursAt(s, p, i)
    ensures r.None? ==> forall i: nat :: !OccursAt(s, p, i)
  {
    if |s| < |p| then None
    else if s[..|p|] == p then Some(0)
    else
      assert !OccursAt(s, p, 0);
      OccursShift(s, p);
      match FindFirst(s[1..], p)
      case None => None
      case Some(j) => Some(j + 1)
  }

  /**
   * `s.replace(p, "", 1)`: `s` with its first occurrence of `p` deleted, or
   * `s` itself when `p` does not occur.
   */
  function RemoveFirst<T(==)>(s: seq<T>, p: seq<T>): (r: seq<T>)
    ensures (forall i: nat :: !OccursAt(s, p, i)) ==> r == s
    ensures (exists i: nat :: OccursAt(s, p, i)) ==> |r| == |s| - |p|
  {
    match FindFirst(s, p)
    case None => s
    case Some(i) => s[..i] + s[i + |p|..]
  }
}

/** The display-label derivation `camelPad` (index.js:11-20): three global regex
    replacements that insert spaces, an upper-casing of the first character and a trim.

    Each global replacement is modelled as the scan a regex engine performs: try a
    match at the current position; on success emit the replacement and continue after
    the matched text, otherwise copy one character and try again one position later. */
module Labels {
  import opened Chars

  // ---------------------------------------------------------------------------
  // Removing spaces: the inverse of the three passes

  /** The string with every U+0020 space deleted. */
  function RemoveSpaces(s: string): (r: string)
    ensures |r| <= |s|
  {
    if s == [] then [] else (if s[0] == ' ' then [] else [s[0]]) + RemoveSpaces(s[1..])
  }

  lemma {:induction false} RemoveSpacesConcat(a: string, b: string)
    ensures RemoveSpaces(a + b) == RemoveSpaces(a) + RemoveSpaces(b)
  {
    if a == [] {
      assert a + b == b;
    } else {
      assert (a + b)[1..] == a[1..] + b;
      RemoveSpacesConcat(a[1..], b);
    }
  }

  /** A string without spaces is its own space-free form. */
  lemma {:induction false} RemoveSpacesOfSpaceFree(s: string)
    requires ' ' !in s
    ensures RemoveSpaces(s) == s
  {
    if s != [] {
      assert ' ' !in s[1..];
      RemoveSpacesOfSpaceFree(s[1..]);
    }
  }

  /** A string made only of spaces vanishes. */
  lemma {:induction false} RemoveSpacesOfSpaces(s: string)
    requires forall i :: 0 <= i < |s| ==> s[i] == ' '
    ensures RemoveSpaces(s) == []
  {
    if s != [] {
      RemoveSpacesOfSpaces(s[1..]);
    }
  }

  /** Deleting spaces keeps every other character. */
  lemma {:induction false} RemoveSpacesKeeps(s: string, c: char)
    requires c != ' '
    ensures c in RemoveSpaces(s) <==> c in s
  {
    if s != [] {
      RemoveSpacesKeeps(s[1..], c);
      assert s == [s[0]] + s[1..];
    }
  }

  // ---------------------------------------------------------------------------
  // Pass 1: `.replace(/([A-Z]+)([A-Z][a-z])/g, " $1 $2")` (index.js:13)

  /** Length of the longest run of upper-case letters at the start of `s`. */
  function UpperRun(s: string): (n: nat)
    ensures n <= |s|
    ensures forall i :: 0 <= i < n ==> IsUpper(s[i])
    ensures n < |s| ==> !IsUpper(s[n])
  {
    if s == [] || !IsUpper(s[0]) then 0 else 1 + UpperRun(s[1..])
  }

  /** Whether `([A-Z]+)([A-Z][a-z])` matches at the start of `s`. The greedy
      `[A-Z]+` takes the whole upper-case run and gives back its last letter, so a
      match exists exactly when the run has at least two letters and a lower-case
      letter follows it. */
  predicate AcronymAt(s: string) {
    var n := UpperRun(s);
    2 <= n < |s| && IsLower(s[n])
  }

  /** The replacement `" $1 $2"` for a match at the start of `s` whose upper-case run
      has length `n`: `$1` is the run without its last letter, `$2` that letter and
      the lower-case letter after it. */
  function AcronymReplacement(s: string, n: nat): (r: string)
    requires 2 <= n < |s|
    ensures |r| == n + 3
    ensures r[0] == ' ' && r[n] == ' '
    ensures forall k :: 1 <= k < n ==> r[k] == s[k - 1]
    ensures r[n + 1] == s[n - 1] && r[n + 2] == s[n]
  {
    [' '] + s[..n - 1] + [' '] + s[n - 1..n + 1]
  }

  /** Pass 1: a run of capitals that ends where a capitalised word starts becomes
      `" " + run-without-last + " " + last + lower`. */
  function SplitAcronyms(s: string): (r: string)
    ensures |r| >= |s|
    ensures s != [] ==> r[0] == s[0] || (r[0] == ' ' && AcronymAt(s) && IsUpper(s[0]))
    decreases |s|
  {
    if s == [] then []
    else if AcronymAt(s) then
      var n := UpperRun(s);
      AcronymReplacement(s, n) + SplitAcronyms(s[n + 1..])
    else
      [s[0]] + SplitAcronyms(s[1..])
  }

  // ---------------------------------------------------------------------------
  // Passes 2 and 3: `.replace(/([X])([Y])/g, "$1 $2")` (index.js:14-15)

  /** A global replacement of `([left])([right])` by `"$1 $2"`: a space goes between
      every non-overlapping `left`-then-`right` pair found scanning left to right. */
  function SplitBoundaries(s: string, left: char -> bool, right: char -> bool): (r: string)
    ensures |r| >= |s|
    ensures s != [] ==> r[0] == s[0]
    ensures |s| >= 2 ==> r[1] == s[1] || r[1] == ' '
    decreases |s|
  {
    if |s| < 2 then s
    else if left(s[0]) && right(s[1]) then [s[0], ' ', s[1]] + SplitBoundaries(s[2..], left, right)
    else [s[0]] + SplitBoundaries(s[1..], left, right)
  }

  /** The three regex passes of index.js:13-15, in order. */
  function InsertSpaces(s: string): (r: string)
    ensures s == [] ==> r == []
    ensures s != [] ==> |r| > 0 && (r[0] == s[0] || (r[0] == ' ' && IsUpper(s[0])))
  {
    SplitBoundaries(SplitBoundaries(SplitAcronyms(s), IsLowerOrDigit, IsUpper), IsLetter, IsDigit)
  }

  // ---------------------------------------------------------------------------
  // Steps 4 and 5: `.replace(/^./, toUpperCase)` and `.trim()` (index.js:16-19)

  /** `.replace(/^./, c => c.toUpperCase())`: `.` matches any first character that is
      not a line terminator. */
  function UpperFirst(s: string): (r: string)
    ensures |r| == |s|
    ensures forall i :: 1 <= i < |s| ==> r[i] == s[i]
    ensures s != [] ==> r[0] == if IsLineTerminator(s[0]) then s[0] else ToUpper(s[0])
  {
    if s != [] && !IsLineTerminator(s[0]) then [ToUpper(s[0])] + s[1..] else s
  }

  /** Index of the first character that is not whitespace (`|s|` if there is none). */
  function ContentStart(s: string): (lo: nat)
    ensures lo <= |s|
    ensures forall i :: 0 <= i < lo ==> IsWhitespace(s[i])
    ensures lo < |s| ==> !IsWhitespace(s[lo])
  {
    if s == [] || !IsWhitespace(s[0]) then 0 else 1 + ContentStart(s[1..])
  }

  /** Index just past the last character that is not whitespace (0 if there is none). */
  function ContentEnd(s: string): (hi: nat)
    ensures hi <= |s|
    ensures forall i :: hi <= i < |s| ==> IsWhitespace(s[i])
    ensures hi > 0 ==> !IsWhitespace(s[hi - 1])
  {
    if s == [] || !IsWhitespace(s[|s| - 1]) then |s| else ContentEnd(s[..|s| - 1])
  }

  /** `trim`: the slice between the leading and the trailing whitespace. No
      whitespace is left at either end, and the result is empty exactly when the
      input is all whitespace. */
  function Trim(s: string): (r: string)
    ensures |r| <= |s|
    ensures r != [] ==> !IsWhitespace(r[0]) && !IsWhitespace(r[|r| - 1])
    ensures r == [] <==> forall i :: 0 <= i < |s| ==> IsWhitespace(s[i])
  {
    var lo, hi := ContentStart(s), ContentEnd(s);
    if lo < hi then s[lo..hi] else []
  }

  /** `trim` leaves a string alone that neither starts nor ends with whitespace. */
  lemma TrimOfClean(w: string)
    requires w != [] && !IsWhitespace(w[0]) && !IsWhitespace(w[|w| - 1])
    ensures Trim(w) == w
  {
    assert ContentStart(w) == 0 && ContentEnd(w) == |w|;
  }

  /** `trim` removes one leading space. */
  lemma TrimOfPadded(w: string)
    requires w != [] && !IsWhitespace(w[0]) && !IsWhitespace(w[|w| - 1])
    ensures Trim([' '] + w) == w
  {
    var s := [' '] + w;
    assert s[1..] == w;
    assert ContentStart(s) == 1;
    assert ContentEnd(s) == |s|;
  }

  /** `camelPad` (index.js:11-20). The output never starts or ends with whitespace. */
  function CamelPad(str: string): (r: string)
    ensures r != [] ==> !IsWhitespace(r[0]) && !IsWhitespace(r[|r| - 1])
  {
    Trim(UpperFirst(InsertSpaces(str)))
  }

  // ---------------------------------------------------------------------------
  // Adjacency properties

  /** No `left` character is immediately followed by a `right` character. */
  predicate NoAdjacent(s: string, left: char -> bool, right: char -> bool) {
    forall i :: 0 <= i < |s| - 1 ==> !(left(s[i]) && right(s[i + 1]))
  }

  /** No upper-case letter is followed by an upper-case letter and then a lower-case
      one: every acronym run is separated from the capitalised word after it. */
  predicate NoAcronymBoundary(s: string) {
    forall i :: 0 <= i < |s| - 2 ==> !(IsUpper(s[i]) && IsUpper(s[i + 1]) && IsLower(s[i + 2]))
  }

  lemma NoAdjacentSlice(s: string, lo: nat, hi: nat, left: char -> bool, right: char -> bool)
    requires lo <= hi <= |s|
    requires NoAdjacent(s, left, right)
    ensures NoAdjacent(s[lo..hi], left, right)
  {
    var t := s[lo..hi];
    forall i | 0 <= i < |t| - 1 ensures !(left(t[i]) && right(t[i + 1])) {
      assert t[i] == s[lo + i] && t[i + 1] == s[lo + i + 1];
    }
  }

  lemma NoAcronymBoundarySlice(s: string, lo: nat, hi: nat)
    requires lo <= hi <= |s|
    requires NoAcronymBoundary(s)
    ensures NoAcronymBoundary(s[lo..hi])
  {
    var t := s[lo..hi];
    forall i | 0 <= i < |t| - 2
      ensures !(IsUpper(t[i]) && IsUpper(t[i + 1]) && IsLower(t[i + 2]))
    {
      assert t[i] == s[lo + i] && t[i + 1] == s[lo + i + 1] && t[i + 2] == s[lo + i + 2];
    }
  }

  /** A scan for `left`-`right` pairs leaves none behind, provided no character is
      of both classes and the inserted space is of neither. */
  lemma {:induction false} SplitBoundariesSeparates(s: string, left: char -> bool, right: char -> bool)
    requires !left(' ') && !right(' ')
    requires forall c :: right(c) ==> !left(c)
    ensures NoAdjacent(SplitBoundaries(s, left, right), left, right)
    decreases |s|
  {
    var r := SplitBoundaries(s, left, right);
    if |s| < 2 {
    } else if left(s[0]) && right(s[1]) {
      var rest := SplitBoundaries(s[2..], left, right);
      SplitBoundariesSeparates(s[2..], left, right);
      assert r == [s[0], ' ', s[1]] + rest;
      forall i | 0 <= i < |r| - 1 ensures !(left(r[i]) && right(r[i + 1])) {
        if i >= 3 {
          assert r[i] == rest[i - 3] && r[i + 1] == rest[i - 2];
        }
      }
    } else {
      var rest := SplitBoundaries(s[1..], left, right);
      SplitBoundariesSeparates(s[1..], left, right);
      assert r == [s[0]] + rest;
      forall i | 0 <= i < |r| - 1 ensures !(left(r[i]) && right(r[i + 1])) {
        if i >= 1 {
          assert r[i] == rest[i - 1] && r[i + 1] == rest[i];
        }
      }
    }
  }

  /** A string without a `left`-`right` pair is left as it is. */
  lemma {:induction false} SplitBoundariesUnchanged(s: string, left: char -> bool, right: char -> bool)
    requires NoAdjacent(s, left, right)
    ensures SplitBoundaries(s, left, right) == s
    decreases |s|
  {
    if |s| >= 2 {
      assert !(left(s[0]) && right(s[1]));
      NoAdjacentSlice(s, 1, |s|, left, right);
      SplitBoundariesUnchanged(s[1..], left, right);
      assert [s[0]] + s[1..] == s;
    }
  }

  /** Running a scan twice gives what running it once gives. */
  lemma SplitBoundariesIdempotent(s: string, left: char -> bool, right: char -> bool)
    requires !left(' ') && !right(' ')
    requires forall c :: right(c) ==> !left(c)
    ensures SplitBoundaries(SplitBoundaries(s, left, right), left, right) == SplitBoundaries(s, left, right)
  {
    SplitBoundariesSeparates(s, left, right);
    SplitBoundariesUnchanged(SplitBoundaries(s, left, right), left, right);
  }

  /** The scan keeps any adjacency property that the inserted space cannot break. */
  lemma {:induction false} SplitBoundariesKeepsNoAdjacent(s: string, left: char -> bool, right: char -> bool,
                                                         l: char -> bool, r: char -> bool)
    requires !l(' ') && !r(' ')
    requires NoAdjacent(s, l, r)
    ensures NoAdjacent(SplitBoundaries(s, left, right), l, r)
    decreases |s|
  {
    var out := SplitBoundaries(s, left, right);
    if |s| < 2 {
    } else if left(s[0]) && right(s[1]) {
      var rest := SplitBoundaries(s[2..], left, right);
      NoAdjacentSlice(s, 2, |s|, l, r);
      SplitBoundariesKeepsNoAdjacent(s[2..], left, right, l, r);
      assert out == [s[0], ' ', s[1]] + rest;
      forall i | 0 <= i < |out| - 1 ensures !(l(out[i]) && r(out[i + 1])) {
        if i >= 3 {
          assert out[i] == rest[i - 3] && out[i + 1] == rest[i - 2];
        }
      }
    } else {
      var rest := SplitBoundaries(s[1..], left, right);
      NoAdjacentSlice(s, 1, |s|, l, r);
      SplitBoundariesKeepsNoAdjacent(s[1..], left, right, l, r);
      assert out == [s[0]] + rest;
      forall i | 0 <= i < |out| - 1 ensures !(l(out[i]) && r(out[i + 1])) {
        if i >= 1 {
          assert out[i] == rest[i - 1] && out[i + 1] == rest[i];
        }
      }
    }
  }

  /** Two strings free of acronym boundaries stay free when joined, if the two
      triples that straddle the join are not boundaries. */
  lemma ConcatNoAcronymBoundary(a: string, b: string)
    requires NoAcronymBoundary(a) && NoAcronymBoundary(b)
    requires |a| >= 2 && |b| >= 1 ==> !(IsUpper(a[|a| - 2]) && IsUpper(a[|a| - 1]) && IsLower(b[0]))
    requires |a| >= 1 && |b| >= 2 ==> !(IsUpper(a[|a| - 1]) && IsUpper(b[0]) && IsLower(b[1]))
    ensures NoAcronymBoundary(a + b)
  {
    var out := a + b;
    forall i | 0 <= i < |out| - 2
      ensures !(IsUpper(out[i]) && IsUpper(out[i + 1]) && IsLower(out[i + 2]))
    {
      if i >= |a| {
        assert out[i] == b[i - |a|] && out[i + 1] == b[i - |a| + 1] && out[i + 2] == b[i - |a| + 2];
      } else if i + 2 < |a| {
        assert out[i] == a[i] && out[i + 1] == a[i + 1] && out[i + 2] == a[i + 2];
      }
    }
  }

  /** The pair scans never create an acronym boundary. */
  lemma {:induction false} SplitBoundariesKeepsNoAcronymBoundary(s: string, left: char -> bool, right: char -> bool)
    requires NoAcronymBoundary(s)
    ensures NoAcronymBoundary(SplitBoundaries(s, left, right))
    decreases |s|
  {
    if |s| < 2 {
    } else if left(s[0]) && right(s[1]) {
      var rest := SplitBoundaries(s[2..], left, right);
      NoAcronymBoundarySlice(s, 2, |s|);
      SplitBoundariesKeepsNoAcronymBoundary(s[2..], left, right);
      assert |s| >= 4 ==> rest[1] == s[3] || rest[1] == ' ';
      ConcatNoAcronymBoundary([s[0], ' ', s[1]], rest);
    } else {
      var rest := SplitBoundaries(s[1..], left, right);
      NoAcronymBoundarySlice(s, 1, |s|);
      SplitBoundariesKeepsNoAcronymBoundary(s[1..], left, right);
      assert |s| >= 3 ==> rest[1] == s[2] || rest[1] == ' ';
      ConcatNoAcronymBoundary([s[0]], rest);
    }
  }

  /** The replacement text of pass 1 holds no acronym boundary and ends in a
      lower-case letter. */
  lemma AcronymReplacementNoBoundary(s: string, n: nat)
    requires 2 <= n < |s| && IsLower(s[n])
    requires forall i :: 0 <= i < n ==> IsUpper(s[i])
    ensures NoAcronymBoundary(AcronymReplacement(s, n))
    ensures !IsUpper(AcronymReplacement(s, n)[n + 2])
  {
    var h := AcronymReplacement(s, n);
    forall i | 0 <= i < |h| - 2
      ensures !(IsUpper(h[i]) && IsUpper(h[i + 1]) && IsLower(h[i + 2]))
    {
      if i == n || i == n - 1 {
        assert h[n] == ' ';
      } else if i == n - 2 {
        assert h[i + 2] == ' ';
      } else if i < n - 2 {
        assert h[i + 2] == s[i + 1];
      }
    }
  }

  /** A match of pass 1 keeps the rest free of acronym boundaries. */
  lemma SplitAcronymsMatchSeparates(s: string)
    requires AcronymAt(s)
    requires NoAcronymBoundary(SplitAcronyms(s[UpperRun(s) + 1..]))
    ensures NoAcronymBoundary(SplitAcronyms(s))
  {
    var n := UpperRun(s);
    AcronymReplacementNoBoundary(s, n);
    ConcatNoAcronymBoundary(AcronymReplacement(s, n), SplitAcronyms(s[n + 1..]));
  }

  /** A position where pass 1 does not match cannot start an acronym boundary. */
  lemma SplitAcronymsCopySeparates(s: string)
    requires s != [] && !AcronymAt(s)
    requires NoAcronymBoundary(SplitAcronyms(s[1..]))
    ensures NoAcronymBoundary(SplitAcronyms(s))
  {
    var rest := SplitAcronyms(s[1..]);
    SplitAcronymsOfCopy(s);
    if |s| >= 3 && IsUpper(s[0]) && IsUpper(rest[0]) {
      CopyAfterTwoCapitals(s);
    }
    ConcatNoAcronymBoundary([s[0]], rest);
  }

  /** Where pass 1 does not match at two capitals, the third character is not a
      lower-case letter, so copying the first capital leaves no boundary behind. */
  lemma CopyAfterTwoCapitals(s: string)
    requires |s| >= 3 && IsUpper(s[0]) && !AcronymAt(s)
    requires IsUpper(SplitAcronyms(s[1..])[0])
    ensures !IsLower(SplitAcronyms(s[1..])[1])
  {
    var t := s[1..];
    assert !AcronymAt(t);
    SplitAcronymsOfCopy(t);
    assert t[1..] == s[2..];
    assert IsUpper(s[1]);
    assert IsLower(s[2]) ==> UpperRun(s) == 2;
  }

  lemma SplitAcronymsOfCopy(s: string)
    requires s != [] && !AcronymAt(s)
    ensures SplitAcronyms(s) == [s[0]] + SplitAcronyms(s[1..])
  {
  }

  /** Pass 1 leaves no acronym boundary behind. */
  lemma {:induction false} SplitAcronymsSeparates(s: string)
    ensures NoAcronymBoundary(SplitAcronyms(s))
    decreases |s|
  {
    if s == [] {
    } else if AcronymAt(s) {
      SplitAcronymsSeparates(s[UpperRun(s) + 1..]);
      SplitAcronymsMatchSeparates(s);
    } else {
      SplitAcronymsSeparates(s[1..]);
      SplitAcronymsCopySeparates(s);
    }
  }

  /** Upper-casing the first character keeps an adjacency property whose left class
      is not entered by upper-casing. */
  lemma UpperFirstKeepsNoAdjacent(s: string, left: char -> bool, right: char -> bool)
    requires forall c :: left(ToUpper(c)) ==> left(c)
    requires NoAdjacent(s, left, right)
    ensures NoAdjacent(UpperFirst(s), left, right)
  {
    var r := UpperFirst(s);
    forall i | 0 <= i < |r| - 1 ensures !(left(r[i]) && right(r[i + 1])) {
      assert r[i + 1] == s[i + 1];
      if i > 0 {
        assert r[i] == s[i];
      }
    }
  }

  /** Upper-casing the first character cannot create an acronym boundary when no
      lower-case letter is followed by an upper-case one. */
  lemma UpperFirstKeepsNoAcronymBoundary(s: string)
    requires NoAcronymBoundary(s)
    requires NoAdjacent(s, IsLowerOrDigit, IsUpper)
    ensures NoAcronymBoundary(UpperFirst(s))
  {
    var r := UpperFirst(s);
    if |s| >= 3 {
      assert r[1] == s[1] && r[2] == s[2];
      assert IsUpper(r[0]) ==> IsUpper(s[0]) || IsLower(s[0]);
      assert !(IsLowerOrDigit(s[0]) && IsUpper(s[1]));
      assert !(IsUpper(s[0]) && IsUpper(s[1]) && IsLower(s[2]));
      ConcatNoAcronymBoundary([r[0]], s[1..]);
      assert r == [r[0]] + s[1..];
    }
  }

  /** The three passes followed by the upper-casing step. */
  lemma StepsSeparate(s: string)
    ensures NoAdjacent(UpperFirst(InsertSpaces(s)), IsLetter, IsDigit)
    ensures NoAdjacent(UpperFirst(InsertSpaces(s)), IsLowerOrDigit, IsUpper)
    ensures NoAcronymBoundary(UpperFirst(InsertSpaces(s)))
  {
    var p1 := SplitAcronyms(s);
    var p2 := SplitBoundaries(p1, IsLowerOrDigit, IsUpper);
    var p3 := SplitBoundaries(p2, IsLetter, IsDigit);
    SplitAcronymsSeparates(s);
    SplitBoundariesKeepsNoAcronymBoundary(p1, IsLowerOrDigit, IsUpper);
    SplitBoundariesSeparates(p1, IsLowerOrDigit, IsUpper);
    SplitBoundariesKeepsNoAcronymBoundary(p2, IsLetter, IsDigit);
    SplitBoundariesKeepsNoAdjacent(p2, IsLetter, IsDigit, IsLowerOrDigit, IsUpper);
    SplitBoundariesSeparates(p2, IsLetter, IsDigit);
    UpperFirstKeepsNoAdjacent(p3, IsLetter, IsDigit);
    UpperFirstKeepsNoAdjacent(p3, IsLowerOrDigit, IsUpper);
    UpperFirstKeepsNoAcronymBoundary(p3);
  }

  /** `Trim(s)` is the slice `s[lo..hi]`, with only whitespace outside it. */
  lemma TrimIsSlice(s: string) returns (lo: nat, hi: nat)
    ensures lo <= hi <= |s| && Trim(s) == s[lo..hi]
    ensures forall i :: 0 <= i < lo ==> IsWhitespace(s[i])
    ensures forall i :: hi <= i < |s| ==> IsWhitespace(s[i])
  {
    lo, hi := ContentStart(s), ContentEnd(s);
    if hi <= lo {
      lo, hi := 0, 0;
    }
  }

  /** In the `camelPad` output no ASCII letter is immediately followed by a digit. */
  lemma CamelPadNoLetterDigit(str: string)
    ensures NoAdjacent(CamelPad(str), IsLetter, IsDigit)
  {
    StepsSeparate(str);
    var lo, hi := TrimIsSlice(UpperFirst(InsertSpaces(str)));
    NoAdjacentSlice(UpperFirst(InsertSpaces(str)), lo, hi, IsLetter, IsDigit);
  }

  /** In the `camelPad` output no lower-case letter or digit is immediately followed
      by an upper-case letter. */
  lemma CamelPadNoLowerUpper(str: string)
    ensures NoAdjacent(CamelPad(str), IsLowerOrDigit, IsUpper)
  {
    StepsSeparate(str);
    var lo, hi := TrimIsSlice(UpperFirst(InsertSpaces(str)));
    NoAdjacentSlice(UpperFirst(InsertSpaces(str)), lo, hi, IsLowerOrDigit, IsUpper);
  }

  /** In the `camelPad` output no two capitals are followed by a lower-case letter. */
  lemma CamelPadNoAcronymBoundary(str: string)
    ensures NoAcronymBoundary(CamelPad(str))
  {
    StepsSeparate(str);
    var lo, hi := TrimIsSlice(UpperFirst(InsertSpaces(str)));
    NoAcronymBoundarySlice(UpperFirst(InsertSpaces(str)), lo, hi);
  }

  // ---------------------------------------------------------------------------
  // Only spaces are inserted

  /** The replacement text of pass 1 holds the matched text and two spaces. */
  lemma AcronymReplacementSpaces(s: string, n: nat)
    requires 2 <= n < |s|
    ensures RemoveSpaces(AcronymReplacement(s, n)) == RemoveSpaces(s[..n + 1])
  {
    var a, b := s[..n - 1], s[n - 1..n + 1];
    assert s[..n + 1] == a + b;
    assert AcronymReplacement(s, n) == [' '] + a + [' '] + b;
    RemoveSpacesConcat([' '] + a + [' '], b);
    RemoveSpacesConcat([' '] + a, [' ']);
    RemoveSpacesConcat([' '], a);
    RemoveSpacesConcat(a, b);
  }

  lemma SplitAcronymsMatchOnlyInsertsSpaces(s: string)
    requires AcronymAt(s)
    requires RemoveSpaces(SplitAcronyms(s[UpperRun(s) + 1..])) == RemoveSpaces(s[UpperRun(s) + 1..])
    ensures RemoveSpaces(SplitAcronyms(s)) == RemoveSpaces(s)
  {
    var n := UpperRun(s);
    SplitAcronymsOfMatch(s);
    AcronymReplacementSpaces(s, n);
    RemoveSpacesConcat(AcronymReplacement(s, n), SplitAcronyms(s[n + 1..]));
    RemoveSpacesSplit(s, n + 1);
  }

  lemma SplitAcronymsCopyOnlyInsertsSpaces(s: string)
    requires s != [] && !AcronymAt(s)
    requires RemoveSpaces(SplitAcronyms(s[1..])) == RemoveSpaces(s[1..])
    ensures RemoveSpaces(SplitAcronyms(s)) == RemoveSpaces(s)
  {
    RemoveSpacesConcat([s[0]], SplitAcronyms(s[1..]));
  }

  lemma {:induction false} SplitAcronymsOnlyInsertsSpaces(s: string)
    ensures RemoveSpaces(SplitAcronyms(s)) == RemoveSpaces(s)
    decreases |s|
  {
    if s == [] {
    } else if AcronymAt(s) {
      SplitAcronymsOnlyInsertsSpaces(s[UpperRun(s) + 1..]);
      SplitAcronymsMatchOnlyInsertsSpaces(s);
    } else {
      SplitAcronymsOnlyInsertsSpaces(s[1..]);
      SplitAcronymsCopyOnlyInsertsSpaces(s);
    }
  }

  lemma {:induction false} SplitBoundariesOnlyInsertsSpaces(s: string, left: char -> bool, right: char -> bool)
    ensures RemoveSpaces(SplitBoundaries(s, left, right)) == RemoveSpaces(s)
    decreases |s|
  {
    if |s| < 2 {
    } else if left(s[0]) && right(s[1]) {
      var rest := SplitBoundaries(s[2..], left, right);
      SplitBoundariesOnlyInsertsSpaces(s[2..], left, right);
      assert SplitBoundaries(s, left, right) == [s[0], ' ', s[1]] + rest;
      RemoveSpacesConcat([s[0], ' ', s[1]], rest);
      assert s == s[..2] + s[2..];
      RemoveSpacesConcat(s[..2], s[2..]);
      assert RemoveSpaces([s[0], ' ', s[1]]) == RemoveSpaces(s[..2]) by {
        assert [s[0], ' ', s[1]][1..] == [' ', s[1]];
        assert [' ', s[1]][1..] == [s[1]];
        assert s[..2][1..] == [s[1]];
      }
    } else {
      SplitBoundariesOnlyInsertsSpaces(s[1..], left, right);
      assert SplitBoundaries(s, left, right) == [s[0]] + SplitBoundaries(s[1..], left, right);
      RemoveSpacesConcat([s[0]], SplitBoundaries(s[1..], left, right));
    }
  }

  /** The three regex passes only insert spaces. */
  lemma InsertSpacesOnlyInsertsSpaces(s: string)
    ensures RemoveSpaces(InsertSpaces(s)) == RemoveSpaces(s)
  {
    var p1 := SplitAcronyms(s);
    var p2 := SplitBoundaries(p1, IsLowerOrDigit, IsUpper);
    SplitAcronymsOnlyInsertsSpaces(s);
    SplitBoundariesOnlyInsertsSpaces(p1, IsLowerOrDigit, IsUpper);
    SplitBoundariesOnlyInsertsSpaces(p2, IsLetter, IsDigit);
  }

  lemma InSlice(s: string, lo: nat, hi: nat, c: char)
    requires lo <= hi <= |s|
    requires c in s[lo..hi]
    ensures c in s
  {
    var k :| 0 <= k < hi - lo && s[lo..hi][k] == c;
    assert s[lo + k] == c;
  }

  /** Every character of the `camelPad` output is an inserted space, a character of
      the input, or the upper-cased first character of the input. */
  lemma CamelPadChars(str: string)
    ensures forall c :: c in CamelPad(str) ==> c == ' ' || c in str || (str != [] && c == ToUpper(str[0]))
  {
    var t := InsertSpaces(str);
    var u := UpperFirst(t);
    InsertSpacesOnlyInsertsSpaces(str);
    var lo, hi := TrimIsSlice(u);
    forall c | c in CamelPad(str) ensures c == ' ' || c in str || (str != [] && c == ToUpper(str[0])) {
      InSlice(u, lo, hi, c);
      var k :| 0 <= k < |u| && u[k] == c;
      if c != ' ' {
        if k > 0 {
          assert c in t by { assert t[k] == c; }
          RemoveSpacesKeeps(t, c);
          RemoveSpacesKeeps(str, c);
        } else {
          assert c == t[0] || c == ToUpper(t[0]);
          if t[0] != ' ' {
            assert t[0] == str[0];
          }
        }
      }
    }
  }

  /** Upper-casing the first character commutes with deleting the spaces the three
      passes inserted. */
  lemma UpperFirstAfterInsertSpaces(str: string)
    requires ' ' !in str
    requires forall i :: 0 <= i < |str| ==> !IsLineTerminator(str[i])
    ensures RemoveSpaces(UpperFirst(InsertSpaces(str))) == UpperFirst(str)
  {
    var t := InsertSpaces(str);
    InsertSpacesOnlyInsertsSpaces(str);
    RemoveSpacesOfSpaceFree(str);
    if str != [] {
      if t[0] == ' ' {
        UpperFirstFixed(t);
        UpperFirstFixed(str);
      } else {
        RemoveSpacesUpperFirst(t, str);
      }
    }
  }

  /** `UpperFirst` changes nothing when the first character is its own upper case. */
  lemma UpperFirstFixed(s: string)
    requires s != [] && ToUpper(s[0]) == s[0]
    ensures UpperFirst(s) == s
  {
  }

  /** Upper-casing a first character that is not a space commutes with deleting spaces. */
  lemma RemoveSpacesUpperFirst(t: string, str: string)
    requires t != [] && t[0] != ' ' && !IsLineTerminator(t[0]) && RemoveSpaces(t) == str
    ensures RemoveSpaces(UpperFirst(t)) == UpperFirst(str)
  {
    var c := ToUpper(t[0]);
    assert UpperFirst(t) == [c] + t[1..];
    RemoveSpacesConcat([c], t[1..]);
    assert RemoveSpaces([c]) == [c];
    assert str == [t[0]] + RemoveSpaces(t[1..]);
    assert str[1..] == RemoveSpaces(t[1..]);
  }

  /** Deleting spaces commutes with cutting a string in two. */
  lemma RemoveSpacesSplit(u: string, k: nat)
    requires k <= |u|
    ensures RemoveSpaces(u) == RemoveSpaces(u[..k]) + RemoveSpaces(u[k..])
  {
    assert u == u[..k] + u[k..];
    RemoveSpacesConcat(u[..k], u[k..]);
  }

  /** Deleting spaces from a slice loses nothing when the parts outside it vanish. */
  lemma RemoveSpacesOfMiddle(u: string, lo: nat, hi: nat)
    requires lo <= hi <= |u|
    requires RemoveSpaces(u[..lo]) == [] && RemoveSpaces(u[hi..]) == []
    ensures RemoveSpaces(u[lo..hi]) == RemoveSpaces(u)
  {
    var v := u[..hi];
    RemoveSpacesSplit(u, hi);
    RemoveSpacesSplit(v, lo);
    assert v[..lo] == u[..lo] && v[lo..] == u[lo..hi];
  }

  /** Leading whitespace that consists of spaces disappears when spaces are deleted. */
  lemma BlankPrefixVanishes(u: string, lo: nat)
    requires lo <= |u|
    requires forall i :: 0 <= i < lo ==> u[i] == ' ' || !IsWhitespace(u[i])
    requires forall i :: 0 <= i < lo ==> IsWhitespace(u[i])
    ensures RemoveSpaces(u[..lo]) == []
  {
    var a := u[..lo];
    assert forall i :: 0 <= i < |a| ==> a[i] == u[i];
    RemoveSpacesOfSpaces(a);
  }

  /** Trailing whitespace that consists of spaces disappears when spaces are deleted. */
  lemma BlankSuffixVanishes(u: string, hi: nat)
    requires hi <= |u|
    requires forall i :: hi <= i < |u| ==> u[i] == ' ' || !IsWhitespace(u[i])
    requires forall i :: hi <= i < |u| ==> IsWhitespace(u[i])
    ensures RemoveSpaces(u[hi..]) == []
  {
    var b := u[hi..];
    assert forall i :: 0 <= i < |b| ==> b[i] == u[hi + i];
    RemoveSpacesOfSpaces(b);
  }

  /** Trimming a string whose only whitespace is spaces deletes nothing else. */
  lemma TrimOnlyDropsSpaces(u: string)
    requires forall i :: 0 <= i < |u| && u[i] != ' ' ==> !IsWhitespace(u[i])
    ensures RemoveSpaces(Trim(u)) == RemoveSpaces(u)
  {
    var lo, hi := TrimIsSlice(u);
    BlankPrefixVanishes(u, lo);
    BlankSuffixVanishes(u, hi);
    RemoveSpacesOfMiddle(u, lo, hi);
  }

  /** The characters the steps before trim produce from a whitespace-free input:
      only the inserted spaces are whitespace. */
  lemma BlanksAreInsertedSpaces(str: string)
    requires forall i :: 0 <= i < |str| ==> !IsWhitespace(str[i])
    ensures forall i :: 0 <= i < |UpperFirst(InsertSpaces(str))| && UpperFirst(InsertSpaces(str))[i] != ' ' ==>
              !IsWhitespace(UpperFirst(InsertSpaces(str))[i])
  {
    var t := InsertSpaces(str);
    var u := UpperFirst(t);
    InsertSpacesOnlyInsertsSpaces(str);
    forall i | 0 <= i < |u| && u[i] != ' ' ensures !IsWhitespace(u[i]) {
      var c := u[i];
      if i > 0 {
        assert t[i] == c;
        RemoveSpacesKeeps(t, c);
        RemoveSpacesKeeps(str, c);
        var k :| 0 <= k < |str| && str[k] == c;
      } else {
        assert t[0] != ' ';
        assert t[0] == str[0];
      }
    }
  }

  /** When the input holds no whitespace, deleting the spaces of the `camelPad`
      output gives back the input with only its first character upper-cased: the
      three passes insert spaces and nothing else, and trim removes only those. */
  lemma CamelPadOnlyInsertsSpaces(str: string)
    requires forall i :: 0 <= i < |str| ==> !IsWhitespace(str[i])
    ensures RemoveSpaces(CamelPad(str)) == UpperFirst(str)
  {
    assert forall k :: 0 <= k < |str| ==> str[k] != ' ' by {
      forall k | 0 <= k < |str| ensures str[k] != ' ' {
        assert !IsWhitespace(str[k]);
      }
    }
    UpperFirstAfterInsertSpaces(str);
    BlanksAreInsertedSpaces(str);
    TrimOnlyDropsSpaces(UpperFirst(InsertSpaces(str)));
  }

  // ---------------------------------------------------------------------------
  // The scans work piece by piece

  lemma SliceOfConcat(a: string, b: string, k: nat)
    requires k <= |a|
    ensures (a + b)[k..] == a[k..] + b
  {
  }

  /** A `left`-`right` scan over `a + b` is the scan over `a` followed by the scan
      over `b` when no pair straddles the join. */
  lemma {:induction false} SplitBoundariesConcat(a: string, b: string, left: char -> bool, right: char -> bool)
    requires a == [] || b == [] || !(left(a[|a| - 1]) && right(b[0]))
    ensures SplitBoundaries(a + b, left, right) == SplitBoundaries(a, left, right) + SplitBoundaries(b, left, right)
    decreases |a|
  {
    if a == [] {
      assert a + b == b;
    } else if |a| == 1 {
      assert a + b == [a[0]] + b;
      if b != [] {
        assert (a + b)[1..] == b;
      }
    } else if left(a[0]) && right(a[1]) {
      SplitBoundariesConcat(a[2..], b, left, right);
      SplitBoundariesConcatPair(a, b, left, right);
    } else {
      SplitBoundariesConcat(a[1..], b, left, right);
      SplitBoundariesConcatSingle(a, b, left, right);
    }
  }

  /** The step of `SplitBoundariesConcat` where a pair is split at the front of `a`. */
  lemma SplitBoundariesConcatPair(a: string, b: string, left: char -> bool, right: char -> bool)
    requires |a| >= 2 && left(a[0]) && right(a[1])
    requires SplitBoundaries(a[2..] + b, left, right) == SplitBoundaries(a[2..], left, right) + SplitBoundaries(b, left, right)
    ensures SplitBoundaries(a + b, left, right) == SplitBoundaries(a, left, right) + SplitBoundaries(b, left, right)
  {
    SliceOfConcat(a, b, 2);
    assert (a + b)[0] == a[0] && (a + b)[1] == a[1];
    SplitBoundariesOfPair(a + b, left, right);
    SplitBoundariesOfPair(a, left, right);
    AppendAssoc([a[0], ' ', a[1]], SplitBoundaries(a[2..], left, right), SplitBoundaries(b, left, right));
  }

  /** The step of `SplitBoundariesConcat` where the front character of `a` is copied. */
  lemma SplitBoundariesConcatSingle(a: string, b: string, left: char -> bool, right: char -> bool)
    requires |a| >= 2 && !(left(a[0]) && right(a[1]))
    requires SplitBoundaries(a[1..] + b, left, right) == SplitBoundaries(a[1..], left, right) + SplitBoundaries(b, left, right)
    ensures SplitBoundaries(a + b, left, right) == SplitBoundaries(a, left, right) + SplitBoundaries(b, left, right)
  {
    SliceOfConcat(a, b, 1);
    assert (a + b)[0] == a[0] && (a + b)[1] == a[1];
    SplitBoundariesOfSingle(a + b, left, right);
    SplitBoundariesOfSingle(a, left, right);
    AppendAssoc([a[0]], SplitBoundaries(a[1..], left, right), SplitBoundaries(b, left, right));
  }

  lemma SplitBoundariesOfPair(s: string, left: char -> bool, right: char -> bool)
    requires |s| >= 2 && left(s[0]) && right(s[1])
    ensures SplitBoundaries(s, left, right) == [s[0], ' ', s[1]] + SplitBoundaries(s[2..], left, right)
  {
  }

  lemma SplitBoundariesOfSingle(s: string, left: char -> bool, right: char -> bool)
    requires |s| >= 2 && !(left(s[0]) && right(s[1]))
    ensures SplitBoundaries(s, left, right) == [s[0]] + SplitBoundaries(s[1..], left, right)
  {
  }

  /** An upper-case run that stops inside `a` is not lengthened by appending `b`. */
  lemma {:induction false} UpperRunConcat(a: string, b: string)
    requires a != [] && !IsUpper(a[|a| - 1])
    ensures UpperRun(a + b) == UpperRun(a)
    decreases |a|
  {
    if IsUpper(a[0]) {
      assert (a + b)[1..] == a[1..] + b;
      UpperRunConcat(a[1..], b);
    }
  }

  /** Pass 1 over `a + b` is pass 1 over `a` followed by pass 1 over `b` when `a`
      does not end in an upper-case letter: every match starting in `a` then ends
      in `a`. */
  lemma {:induction false} SplitAcronymsConcat(a: string, b: string)
    requires a == [] || !IsUpper(a[|a| - 1])
    ensures SplitAcronyms(a + b) == SplitAcronyms(a) + SplitAcronyms(b)
    decreases |a|, 1
  {
    if a == [] {
      assert a + b == b;
    } else if AcronymAt(a) {
      SplitAcronymsConcatAfterMatch(a, b);
    } else {
      SplitAcronymsConcatAfterCopy(a, b);
    }
  }

  /** `SplitAcronymsConcat` when pass 1 matches at the front of `a`: the rest of
      `a` after the match is handled by induction. */
  lemma {:induction false} SplitAcronymsConcatAfterMatch(a: string, b: string)
    requires a != [] && !IsUpper(a[|a| - 1]) && AcronymAt(a)
    ensures SplitAcronyms(a + b) == SplitAcronyms(a) + SplitAcronyms(b)
    decreases |a|, 0
  {
    UpperRunConcat(a, b);
    KeepsLastLetter(a, UpperRun(a) + 1);
    SplitAcronymsConcat(a[UpperRun(a) + 1..], b);
    SplitAcronymsConcatMatch(a, b);
  }

  /** `SplitAcronymsConcat` when pass 1 copies the first character of `a`. */
  lemma {:induction false} SplitAcronymsConcatAfterCopy(a: string, b: string)
    requires a != [] && !IsUpper(a[|a| - 1]) && !AcronymAt(a)
    ensures SplitAcronyms(a + b) == SplitAcronyms(a) + SplitAcronyms(b)
    decreases |a|, 0
  {
    UpperRunConcat(a, b);
    KeepsLastLetter(a, 1);
    SplitAcronymsConcat(a[1..], b);
    SplitAcronymsConcatCopy(a, b);
  }

  /** Dropping a prefix keeps the last letter, if any is left. */
  lemma KeepsLastLetter(a: string, k: nat)
    requires 0 < k <= |a| && !IsUpper(a[|a| - 1])
    ensures a[k..] == [] || !IsUpper(a[k..][|a[k..]| - 1])
  {
    if k < |a| {
      assert a[k..][|a[k..]| - 1] == a[|a| - 1];
    }
  }

  /** The step of `SplitAcronymsConcat` where pass 1 matches at the front of `a`. */
  lemma SplitAcronymsConcatMatch(a: string, b: string)
    requires AcronymAt(a) && UpperRun(a + b) == UpperRun(a)
    requires SplitAcronyms(a[UpperRun(a) + 1..] + b) == SplitAcronyms(a[UpperRun(a) + 1..]) + SplitAcronyms(b)
    ensures SplitAcronyms(a + b) == SplitAcronyms(a) + SplitAcronyms(b)
  {
    var n := UpperRun(a);
    assert (a + b)[n] == a[n];
    SplitAcronymsOfMatch(a + b);
    SplitAcronymsOfMatch(a);
    AcronymReplacementConcat(a, b, n);
    SliceOfConcat(a, b, n + 1);
    AppendAssoc(AcronymReplacement(a, n), SplitAcronyms(a[n + 1..]), SplitAcronyms(b));
  }

  lemma SplitAcronymsOfMatch(s: string)
    requires AcronymAt(s)
    ensures SplitAcronyms(s) == AcronymReplacement(s, UpperRun(s)) + SplitAcronyms(s[UpperRun(s) + 1..])
  {
  }

  lemma AppendAssoc(x: string, y: string, z: string)
    ensures x + (y + z) == (x + y) + z
  {
  }

  lemma AcronymReplacementConcat(a: string, b: string, n: nat)
    requires 2 <= n < |a|
    ensures AcronymReplacement(a + b, n) == AcronymReplacement(a, n)
  {
    assert (a + b)[..n - 1] == a[..n - 1];
    assert (a + b)[n - 1..n + 1] == a[n - 1..n + 1];
  }

  /** The step of `SplitAcronymsConcat` where pass 1 copies the front character of `a`. */
  lemma SplitAcronymsConcatCopy(a: string, b: string)
    requires a != [] && !AcronymAt(a) && UpperRun(a) < |a| && UpperRun(a + b) == UpperRun(a)
    requires SplitAcronyms(a[1..] + b) == SplitAcronyms(a[1..]) + SplitAcronyms(b)
    ensures SplitAcronyms(a + b) == SplitAcronyms(a) + SplitAcronyms(b)
  {
    var n := UpperRun(a);
    assert (a + b)[n] == a[n];
    assert !AcronymAt(a + b);
    SliceOfConcat(a, b, 1);
    assert (a + b)[0] == a[0];
  }
}

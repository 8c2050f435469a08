/**
  Date arithmetic and the exception-name scrubber of `src/civcalnyc/util.py`.

  The scrubber is `re.sub(r"( *\(Observed\) *)|( *\d{4} *)", "", name)`. It is
  modelled as a left-to-right scanner: at each position it takes the match of
  the pattern anchored there, if any, drops it and goes on after it; otherwise
  it keeps one character. `\d` is read as the ASCII digits.
 */
module Util {
  import opened Wrappers

  // ---------------------------------------------------------------------------
  // date_mod

  /**
   * `date_mod(num_days, p_date)`: `p_date` moved by `num_days` days, on
   * unbounded day numbers (the range check of `date` is not modelled).
   */
  function DateMod(numDays: int, pDate: Date): Date
  {
    pDate + numDays
  }

  /** Moving by zero days is the identity. */
  lemma DateModZero(d: Date)
    ensures DateMod(0, d) == d
  {
  }

  /** Two moves compose into one move by the sum. */
  lemma DateModCompose(a: int, b: int, d: Date)
    ensures DateMod(a, DateMod(b, d)) == DateMod(a + b, d)
  {
  }

  /** Moving back undoes moving forward, and moves preserve the order of dates. */
  lemma DateModInverse(n: int, d: Date, e: Date)
    ensures DateMod(-n, DateMod(n, d)) == d
    ensures d < e <==> DateMod(n, d) < DateMod(n, e)
  {
  }

  // ---------------------------------------------------------------------------
  // scrubber: the scanner

  const Observed: string := "(Observed)"

  predicate IsDigit(c: char)
  {
    '0' <= c <= '9'
  }

  /** `s[i..j]` is all blanks. */
  ghost predicate Blank(s: string, i: nat, j: nat)
  {
    i <= j <= |s| && forall m :: i <= m < j ==> s[m] == ' '
  }

  /** Where the greedy ` *` stops when it starts at `i`. */
  function SpacesFrom(s: string, i: nat): (j: nat)
    requires i <= |s|
    ensures Blank(s, i, j)
    ensures j < |s| ==> s[j] != ' '
    decreases |s| - i
  {
    if i < |s| && s[i] == ' ' then SpacesFrom(s, i + 1) else i
  }

  /** "(Observed)" occurs at position `k`. */
  predicate ObservedAt(s: string, k: nat)
  {
    k + 10 <= |s| && s[k..k + 10] == Observed
  }

  /** Four digits occur at position `k`. */
  predicate YearAt(s: string, k: nat)
  {
    k + 4 <= |s| && IsDigit(s[k]) && IsDigit(s[k + 1]) && IsDigit(s[k + 2]) && IsDigit(s[k + 3])
  }

  /**
    End of the match of the pattern that starts at `i`, or `i` itself when
    none starts there (neither alternative matches the empty string). The
    leading ` *` has to stop where the blanks stop, since the next character
    of either alternative is not a blank; the trailing ` *` is greedy.
   */
  function MatchEnd(s: string, i: nat): (e: nat)
    requires i <= |s|
    ensures i <= e <= |s|
  {
    var k := SpacesFrom(s, i);
    if ObservedAt(s, k) then SpacesFrom(s, k + 10)
    else if YearAt(s, k) then SpacesFrom(s, k + 4)
    else i
  }

  /** The scrubbed rest of `s` from position `i` on. */
  function ScrubFrom(s: string, i: nat): (r: string)
    requires i <= |s|
    ensures |r| <= |s| - i
    decreases |s| - i
  {
    if i == |s| then []
    else
      var e := MatchEnd(s, i);
      if e > i then ScrubFrom(s, e) else [s[i]] + ScrubFrom(s, i + 1)
  }

  /** `scrubber` on a string: every match removed, leftmost first, without overlap. */
  function Scrub(s: string): (r: string)
    ensures |r| <= |s|
  {
    ScrubFrom(s, 0)
  }

  /** `scrubber(exp_name)`: `None` stays `None`, a string is scrubbed. */
  function Scrubber(expName: Option<string>): (r: Option<string>)
    ensures r.None? <==> expName.None?
    ensures expName.Some? ==> |r.value| <= |expName.value|
  {
    match expName
    case None => None
    case Some(x) => Some(Scrub(x))
  }

  // ---------------------------------------------------------------------------
  // scrubber: the regular expression, as a reference for MatchEnd

  /** `s[i..e]` is matched by ` *\(Observed\) *` or by ` *\d{4} *`, with the blanks up to `k`. */
  ghost predicate MatchesVia(s: string, i: nat, k: nat, e: nat)
  {
    Blank(s, i, k) && ((ObservedAt(s, k) && Blank(s, k + 10, e)) || (YearAt(s, k) && Blank(s, k + 4, e)))
  }

  /** The pattern matches `s[i..e]`. */
  ghost predicate PatternMatches(s: string, i: nat, e: nat)
  {
    exists k: nat :: MatchesVia(s, i, k, e)
  }

  /** The greedy ` *` from `i` stops at `k` when `s[i..k]` is blank and `s[k]` is not. */
  lemma {:induction false} SpacesFromExactly(s: string, i: nat, k: nat)
    requires Blank(s, i, k) && k < |s| && s[k] != ' '
    ensures SpacesFrom(s, i) == k
    decreases k - i
  {
    if i < k {
      SpacesFromExactly(s, i + 1, k);
    }
  }

  /** The greedy ` *` from `i` reaches past any blank run that starts at `i`. */
  lemma {:induction false} SpacesFromAtLeast(s: string, i: nat, e: nat)
    requires Blank(s, i, e)
    ensures e <= SpacesFrom(s, i)
    decreases e - i
  {
    if i < e {
      SpacesFromAtLeast(s, i + 1, e);
    }
  }

  /** A match found by MatchEnd is a match of the pattern, with maximal trailing blanks. */
  lemma MatchEndSound(s: string, i: nat)
    requires i <= |s| && MatchEnd(s, i) > i
    ensures PatternMatches(s, i, MatchEnd(s, i))
    ensures MatchEnd(s, i) < |s| ==> s[MatchEnd(s, i)] != ' '
  {
    var k := SpacesFrom(s, i);
    assert MatchesVia(s, i, k, MatchEnd(s, i));
  }

  /** No match of the pattern at `i` is longer than the one MatchEnd finds. */
  lemma MatchEndLongest(s: string, i: nat, e: nat)
    requires i <= |s| && PatternMatches(s, i, e)
    ensures e <= MatchEnd(s, i)
  {
    var k: nat :| MatchesVia(s, i, k, e);
    if ObservedAt(s, k) {
      assert s[k] == s[k..k + 10][0];
      SpacesFromExactly(s, i, k);
      SpacesFromAtLeast(s, k + 10, e);
    } else {
      SpacesFromExactly(s, i, k);
      SpacesFromAtLeast(s, k + 4, e);
    }
  }

  /**
    MatchEnd is the regular expression's match at `i`: a match when it moves,
    none when it does not, and no match is longer. As the two alternatives
    cannot both match (after the blanks one needs `(`, the other a digit), the
    longest match is the one Python's backtracking engine picks.
   */
  lemma MatchEndIsLongestMatch(s: string, i: nat, e: nat)
    requires i <= |s|
    ensures MatchEnd(s, i) > i ==> PatternMatches(s, i, MatchEnd(s, i))
    ensures PatternMatches(s, i, e) ==> e <= MatchEnd(s, i)
    ensures MatchEnd(s, i) == i <==> forall e' :: !PatternMatches(s, i, e')
  {
    if MatchEnd(s, i) > i {
      MatchEndSound(s, i);
    }
    if PatternMatches(s, i, e) {
      MatchEndLongest(s, i, e);
    }
    forall e' | PatternMatches(s, i, e')
      ensures MatchEnd(s, i) > i
    {
      MatchEndLongest(s, i, e');
      var k: nat :| MatchesVia(s, i, k, e');
    }
  }

  // ---------------------------------------------------------------------------
  // scrubber: properties

  /** `a` can be obtained from `b` by deleting characters. */
  ghost predicate IsSubsequence(a: string, b: string)
    decreases |b|
  {
    a == [] || (b != [] && ((a[0] == b[0] && IsSubsequence(a[1..], b[1..])) || IsSubsequence(a, b[1..])))
  }

  lemma {:induction false} SubsequenceOfSuffix(a: string, b: string, n: nat)
    requires n <= |b| && IsSubsequence(a, b[n..])
    ensures IsSubsequence(a, b)
    decreases n
  {
    if n > 0 {
      assert b[1..][n - 1..] == b[n..];
      SubsequenceOfSuffix(a, b[1..], n - 1);
    }
  }

  lemma {:induction false} ScrubFromIsSubsequence(s: string, i: nat)
    requires i <= |s|
    ensures IsSubsequence(ScrubFrom(s, i), s[i..])
    decreases |s| - i
  {
    if i < |s| {
      var e := MatchEnd(s, i);
      if e > i {
        ScrubFromIsSubsequence(s, e);
        assert s[i..][e - i..] == s[e..];
        SubsequenceOfSuffix(ScrubFrom(s, e), s[i..], e - i);
      } else {
        ScrubFromIsSubsequence(s, i + 1);
        var r := ScrubFrom(s, i);
        assert r[0] == s[i..][0] && r[1..] == ScrubFrom(s, i + 1);
        assert s[i..][1..] == s[i + 1..];
      }
    }
  }

  /** The scrubber only deletes characters. */
  lemma ScrubIsSubsequence(s: string)
    ensures IsSubsequence(Scrub(s), s)
  {
    ScrubFromIsSubsequence(s, 0);
    assert s[0..] == s;
  }

  /** `s` holds no digit and no "(Observed)". */
  ghost predicate HasNoMarker(s: string)
  {
    (forall m :: 0 <= m < |s| ==> !IsDigit(s[m])) && (forall k :: !ObservedAt(s, k))
  }

  /** Where nothing can be matched, the text is copied. */
  lemma {:induction false} ScrubFromNoMarker(s: string, i: nat)
    requires i <= |s| && HasNoMarker(s)
    ensures ScrubFrom(s, i) == s[i..]
    decreases |s| - i
  {
    if i < |s| {
      var k := SpacesFrom(s, i);
      assert !ObservedAt(s, k);
      assert k < |s| ==> !IsDigit(s[k]);
      assert MatchEnd(s, i) == i;
      ScrubFromNoMarker(s, i + 1);
      assert s[i..] == [s[i]] + s[i + 1..];
    }
  }

  /** A string without digits and without "(Observed)" is left as it is. */
  lemma ScrubNoMarker(s: string)
    requires HasNoMarker(s)
    ensures Scrub(s) == s
  {
    ScrubFromNoMarker(s, 0);
    assert s[0..] == s;
  }

  /** A character that neither alternative can begin with, after its blanks. */
  predicate Plain(c: char)
  {
    c != ' ' && c != '(' && !IsDigit(c)
  }

  /** Every character of `s[i..j]` is plain, or a blank that a plain character follows. */
  ghost predicate PlainRun(s: string, i: nat, j: nat)
    requires i <= j <= |s|
    decreases j - i
  {
    i == j || ((Plain(s[i]) || (i + 1 < j && s[i] == ' ' && Plain(s[i + 1]))) && PlainRun(s, i + 1, j))
  }

  /** No match starts at a plain character, or at a blank that one follows. */
  lemma NoMatchAtPlain(s: string, i: nat)
    requires i < |s| && (Plain(s[i]) || (i + 1 < |s| && s[i] == ' ' && Plain(s[i + 1])))
    ensures MatchEnd(s, i) == i
  {
    var k := SpacesFrom(s, i);
    if Plain(s[i]) {
      assert k == i;
    } else {
      assert SpacesFrom(s, i + 1) == i + 1;
    }
    if k + 10 <= |s| {
      assert s[k..k + 10][0] == s[k];
    }
  }

  /** Where no match starts, the character is kept. */
  lemma ScrubFromKeeps(s: string, i: nat)
    requires i < |s| && MatchEnd(s, i) == i
    ensures ScrubFrom(s, i) == [s[i]] + ScrubFrom(s, i + 1)
  {
  }

  /** Splitting off the first character of a slice. */
  lemma SliceCons(s: string, i: nat, j: nat, x: string)
    requires i < j <= |s|
    ensures s[i..j] + x == [s[i]] + (s[i + 1..j] + x)
  {
    assert s[i..j] == [s[i]] + s[i + 1..j];
  }

  /** A plain run is copied as it is. */
  lemma {:induction false} ScrubFromPlainRun(s: string, i: nat, j: nat)
    requires i <= j <= |s| && PlainRun(s, i, j)
    ensures ScrubFrom(s, i) == s[i..j] + ScrubFrom(s, j)
    decreases j - i
  {
    if i < j {
      NoMatchAtPlain(s, i);
      ScrubFromKeeps(s, i);
      ScrubFromPlainRun(s, i + 1, j);
      SliceCons(s, i, j, ScrubFrom(s, j));
    }
  }

  /** "(Observed)" spelled out character by character. */
  lemma ObservedAtChars(s: string, k: nat)
    requires k + 10 <= |s|
    requires s[k] == '(' && s[k + 1] == 'O' && s[k + 2] == 'b' && s[k + 3] == 's' && s[k + 4] == 'e'
    requires s[k + 5] == 'r' && s[k + 6] == 'v' && s[k + 7] == 'e' && s[k + 8] == 'd' && s[k + 9] == ')'
    ensures ObservedAt(s, k)
  {
  }

  /** One blank, then the marker, one blank, then the year: all of it is dropped. */
  lemma ScrubFromObservedYear(s: string, i: nat)
    requires i + 16 == |s| && s[i] == ' ' && ObservedAt(s, i + 1) && s[i + 11] == ' ' && YearAt(s, i + 12)
    ensures ScrubFrom(s, i) == []
  {
    assert s[i + 1] == s[i + 1..i + 11][0];
    assert SpacesFrom(s, i + 1) == i + 1;
    assert SpacesFrom(s, i) == i + 1;
    assert SpacesFrom(s, i + 12) == i + 12;
    assert SpacesFrom(s, i + 11) == i + 12;
    assert MatchEnd(s, i) == i + 12;
    assert MatchEnd(s, i + 12) == i + 16;
  }

  /** Where the marker and the year sit in the docstring's example. */
  lemma ChristmasTail(s: string)
    requires s == "Christmas Day (Observed) 2021"
    ensures |s| == 29 && s[13] == ' ' && ObservedAt(s, 14) && s[24] == ' ' && YearAt(s, 25)
  {
    ObservedAtChars(s, 14);
  }

  /**
   * A name of plain words followed by " (Observed) YYYY" scrubs to the name:
   * the marker and the year go, with the blanks before them.
   */
  lemma ScrubObservedYearSuffix(s: string, n: nat)
    requires n + 16 == |s| && PlainRun(s, 0, n)
    requires s[n] == ' ' && ObservedAt(s, n + 1) && s[n + 11] == ' ' && YearAt(s, n + 12)
    ensures Scrub(s) == s[..n]
  {
    ScrubFromPlainRun(s, 0, n);
    ScrubFromObservedYear(s, n);
    assert s[0..n] + [] == s[..n];
  }

  /** The docstring's example: the marker and the year go, with their spaces. */
  lemma ScrubChristmas(s: string)
    requires s == "Christmas Day (Observed) 2021"
    ensures Scrub(s) == "Christmas Day"
  {
    assert PlainRun(s, 0, 13) by {
      assert PlainRun(s, 12, 13);
      assert PlainRun(s, 11, 13);
      assert PlainRun(s, 10, 13);
      assert PlainRun(s, 9, 13);
      assert PlainRun(s, 8, 13);
      assert PlainRun(s, 7, 13);
      assert PlainRun(s, 6, 13);
      assert PlainRun(s, 5, 13);
      assert PlainRun(s, 4, 13);
      assert PlainRun(s, 3, 13);
      assert PlainRun(s, 2, 13);
      assert PlainRun(s, 1, 13);
    }
    ChristmasTail(s);
    ScrubObservedYearSuffix(s, 13);
    assert s[..13] == "Christmas Day";
  }

  /** The characters of "Memorial Day (Observed) 2022" that the scrub looks at. */
  lemma MemorialDayTail(s: string)
    requires s == "Memorial Day (Observed) 2022"
    ensures |s| == 28 && s[12] == ' ' && ObservedAt(s, 13) && s[23] == ' ' && YearAt(s, 24)
  {
    ObservedAtChars(s, 13);
  }

  /** A holiday name as the calendar sends it: "Memorial Day (Observed) 2022" becomes "Memorial Day". */
  lemma ScrubMemorialDay(s: string)
    requires s == "Memorial Day (Observed) 2022"
    ensures Scrub(s) == "Memorial Day"
  {
    assert PlainRun(s, 0, 12) by {
      assert PlainRun(s, 11, 12);
      assert PlainRun(s, 10, 12);
      assert PlainRun(s, 9, 12);
      assert PlainRun(s, 8, 12);
      assert PlainRun(s, 7, 12);
      assert PlainRun(s, 6, 12);
      assert PlainRun(s, 5, 12);
      assert PlainRun(s, 4, 12);
      assert PlainRun(s, 3, 12);
      assert PlainRun(s, 2, 12);
      assert PlainRun(s, 1, 12);
    }
    MemorialDayTail(s);
    ScrubObservedYearSuffix(s, 12);
    assert s[..12] == "Memorial Day";
  }

  /** Matches are taken leftmost first and never overlap: "1234" goes, "5" stays. */
  lemma ScrubDigitRun()
    ensures Scrub("12345") == "5"
  {
    var s := "12345";
    assert MatchEnd(s, 0) == 4;
    assert MatchEnd(s, 4) == 4;
  }

  /**
    The scrubber is not idempotent: deleting "(Observed)" can join digits
    into a new year token that a second pass removes.
   */
  lemma ScrubNotIdempotent()
    ensures Scrub("1(Observed)234") == "1234"
    ensures Scrub("1234") == ""
  {
    var s := "1(Observed)234";
    assert s[0..10][0] == '1';
    assert MatchEnd(s, 0) == 0;
    assert ObservedAt(s, 1);
    assert MatchEnd(s, 1) == 11;
    assert MatchEnd(s, 11) == 11;
    assert MatchEnd(s, 12) == 12;
    assert MatchEnd(s, 13) == 13;
    assert MatchEnd("1234", 0) == 4;
  }

  /** A nonempty set has an element. */
  lemma NonEmptyHas<T>(s: set<T>)
    requires s != {}
    ensures exists y :: y in s
  {
    if forall y :: y !in s {
      assert false;
    }
  }
}

/**
 * Two scanners for the first `N.N.N` in a text. One restarts at every position,
 * one skips past what it has read; both find the leftmost greedy match.
 */
module Versions {
  import opened CharClasses

  predicate AllDigits(s: string, i: int, j: int)
    requires 0 <= i && j <= |s|
  {
    forall k :: i <= k < j ==> IsDigit(s[k])
  }

  /** `s[i..j]` is three runs of digits, with dots at `a` and `b`. */
  predicate Triple(s: string, i: int, a: int, b: int, j: int) {
    && 0 <= i < a && a + 1 < b && b + 1 < j <= |s|
    && AllDigits(s, i, a) && s[a] == '.' && AllDigits(s, a + 1, b) && s[b] == '.' && AllDigits(s, b + 1, j)
  }

  ghost predicate Matches(s: string, i: int, j: int) {
    exists a, b :: Triple(s, i, a, b, j)
  }

  ghost predicate NoneBefore(s: string, i: int) {
    forall k, j :: k < i ==> !Matches(s, k, j)
  }

  ghost predicate LeftmostAt(s: string, i: int, j: int) {
    Matches(s, i, j) && NoneBefore(s, i) && (j == |s| || !IsDigit(s[j]))
  }

  /** What the regular expression `\d+\.\d+\.\d+` finds first: the leftmost match, as long as it gets. */
  ghost predicate IsFirstTriple(s: string, found: Option<string>) {
    match found
    case None => forall i, j :: !Matches(s, i, j)
    case Some(v) => exists i, j :: LeftmostAt(s, i, j) && v == s[i..j]
  }

  /** The answer is determined, so any two scanners that give it agree on every text. */
  lemma FirstTripleIsUnique(s: string, x: Option<string>, y: Option<string>)
    requires IsFirstTriple(s, x) && IsFirstTriple(s, y)
    ensures x == y
  {
    if x.Some? && y.Some? {
      var i, j :| LeftmostAt(s, i, j) && x.value == s[i..j];
      var i', j' :| LeftmostAt(s, i', j') && y.value == s[i'..j'];
      assert !(i < i') && !(i' < i);
      SameEnd(s, i, j, j');
    }
  }

  lemma SameEnd(s: string, i: int, j: int, j': int)
    requires LeftmostAt(s, i, j) && LeftmostAt(s, i, j')
    ensures j == j'
  {
    var a, b :| Triple(s, i, a, b, j);
    var a', b' :| Triple(s, i, a', b', j');
  }

  /** No match that starts there is longer. */
  lemma NoLongerMatch(s: string, i: int, j: int, j': int)
    requires LeftmostAt(s, i, j) && Matches(s, i, j')
    ensures j' <= j
  {
    var a, b :| Triple(s, i, a, b, j);
    var a', b' :| Triple(s, i, a', b', j');
  }

  method ScanDigits(s: string, from: nat) returns (j: nat)
    requires from <= |s|
    ensures from <= j <= |s| && AllDigits(s, from, j) && (j == |s| || !IsDigit(s[j]))
  {
    j := from;
    while j < |s| && IsDigit(s[j])
      invariant from <= j <= |s| && AllDigits(s, from, j)
    {
      j := j + 1;
    }
  }

  /** A run of digits that no dot follows, or whose dot no digit follows, starts no match. */
  lemma NoMatchHere(s: string, i: int, a: int)
    requires 0 <= i <= a <= |s| && AllDigits(s, i, a) && (a == |s| || !IsDigit(s[a]))
    requires a == i || a == |s| || s[a] != '.' || a + 1 == |s| || !IsDigit(s[a + 1])
    ensures forall j :: !Matches(s, i, j)
  {
    forall j ensures !Matches(s, i, j) {
      forall a', b' ensures !Triple(s, i, a', b', j) {
      }
    }
  }

  lemma NoSecondDot(s: string, i: int, a: int, b: int)
    requires 0 <= i < a && a + 1 <= b <= |s| && AllDigits(s, i, a) && s[a] == '.' && AllDigits(s, a + 1, b)
    requires b == |s| || !IsDigit(s[b])
    requires b == |s| || s[b] != '.' || b + 1 == |s| || !IsDigit(s[b + 1])
    ensures forall j :: !Matches(s, i, j)
  {
    forall j ensures !Matches(s, i, j) {
      forall a', b' ensures !Triple(s, i, a', b', j) {
      }
    }
  }

  lemma OneMore(s: string, i: int)
    requires NoneBefore(s, i) && forall j :: !Matches(s, i, j)
    ensures NoneBefore(s, i + 1)
  {
    hide Matches;
  }

  lemma NothingStarts(s: string, i: int)
    requires i < 0 || i >= |s| || !IsDigit(s[i])
    ensures forall j :: !Matches(s, i, j)
  {
  }

  lemma FoundNone(s: string)
    requires NoneBefore(s, |s|)
    ensures IsFirstTriple(s, None)
  {
    forall i, j ensures !Matches(s, i, j) {
      if i >= |s| {
        NothingStarts(s, i);
      }
    }
  }

  lemma Found(s: string, i: nat, a: nat, b: nat, j: nat)
    requires NoneBefore(s, i) && Triple(s, i, a, b, j) && (j == |s| || !IsDigit(s[j]))
    ensures IsFirstTriple(s, Some(s[i..j]))
  {
    assert Matches(s, i, j);
    assert LeftmostAt(s, i, j);
  }

  /** Tries a match at every position in turn. */
  method ParseVersion(stdout: string) returns (found: Option<string>)
    ensures IsFirstTriple(stdout, found)
  {
    hide Matches, NoneBefore, IsFirstTriple;
    var n := |stdout|;
    var i := 0;
    NoneBeforeStart(stdout);
    while i < n
      invariant i <= n && NoneBefore(stdout, i)
    {
      if IsDigit(stdout[i]) {
        var j := ScanDigits(stdout, i);
        if j < n && stdout[j] == '.' {
          var a := j;
          j := j + 1;
          var g2 := j;
          j := ScanDigits(stdout, j);
          if j > g2 && j < n && stdout[j] == '.' {
            var b := j;
            j := j + 1;
            var g3 := j;
            j := ScanDigits(stdout, j);
            if j > g3 {
              Found(stdout, i, a, b, j);
              return Some(stdout[i..j]);
            }
            NoSecondDot(stdout, i, a, b);
          } else if j > g2 {
            NoSecondDot(stdout, i, a, j);
          } else {
            NoMatchHere(stdout, i, a);
          }
        } else {
          NoMatchHere(stdout, i, j);
        }
      } else {
        NothingStarts(stdout, i);
      }
      OneMore(stdout, i);
      i := i + 1;
    }
    FoundNone(stdout);
    found := None;
  }

  lemma NoneBeforeStart(s: string)
    ensures NoneBefore(s, 0)
  {
  }

  /** From `i` to `j` digits and dots, each dot between digits: `dots` of them, the first two at `a` and `b`. */
  predicate Scanned(s: string, i: int, j: int, dots: int, a: int, b: int) {
    && 0 <= i <= j <= |s| && 0 <= dots <= 2 && i < |s| && IsDigit(s[i])
    && (dots == 0 ==> AllDigits(s, i, j))
    && (dots >= 1 ==> i < a < j && AllDigits(s, i, a) && s[a] == '.' && a + 1 < |s| && IsDigit(s[a + 1]))
    && (dots == 1 ==> AllDigits(s, a + 1, j))
    && (dots == 2 ==>
          && a + 1 < b < j && AllDigits(s, a + 1, b) && s[b] == '.' && b + 1 < |s| && IsDigit(s[b + 1])
          && AllDigits(s, b + 1, j))
  }

  /** Where a scan with fewer than two dots stopped, nothing matches at any place it passed. */
  lemma NothingPassed(s: string, i: int, j: int, dots: int, a: int, b: int, k: int)
    requires Scanned(s, i, j, dots, a, b) && dots < 2 && i <= k < j
    requires j == |s| || !IsDigit(s[j])
    requires j == |s| || s[j] != '.' || j + 1 == |s| || !IsDigit(s[j + 1])
    ensures forall l :: !Matches(s, k, l)
  {
    hide Matches;
    if dots == 0 {
      NoMatchHere(s, k, j);
    } else if k < a {
      NoSecondDot(s, k, a, j);
    } else if k == a {
      NothingStarts(s, k);
    } else {
      NoMatchHere(s, k, j);
    }
  }

  lemma {:induction false} SkipAhead(s: string, i: int, j: int, dots: int, a: int, b: int, k: int)
    requires Scanned(s, i, j, dots, a, b) && dots < 2 && i <= k <= j && NoneBefore(s, i)
    requires j == |s| || !IsDigit(s[j])
    requires j == |s| || s[j] != '.' || j + 1 == |s| || !IsDigit(s[j + 1])
    ensures NoneBefore(s, k)
    decreases k - i
  {
    hide Matches, NoneBefore, Scanned;
    if k > i {
      SkipAhead(s, i, j, dots, a, b, k - 1);
      NothingPassed(s, i, j, dots, a, b, k - 1);
      OneMore(s, k - 1);
    }
  }

  /** Skips past everything a failed scan has read. */
  method FirstVersionTriple(stdout: string) returns (found: Option<string>)
    ensures IsFirstTriple(stdout, found)
  {
    hide Matches, NoneBefore, IsFirstTriple;
    var n := |stdout|;
    var i := 0;
    NoneBeforeStart(stdout);
    while i < n
      invariant i <= n && NoneBefore(stdout, i)
    {
      if IsDigit(stdout[i]) {
        var start, dots, j := i, 0, i;
        ghost var a, b := 0, 0;
        while j < n && (IsDigit(stdout[j]) || (stdout[j] == '.' && dots < 2))
          invariant Scanned(stdout, start, j, dots, a, b)
          decreases n - j
        {
          if stdout[j] == '.' {
            if j + 1 >= n || !IsDigit(stdout[j + 1]) {
              break;
            }
            a, b := if dots == 0 then j else a, if dots == 1 then j else b;
            dots := dots + 1;
          }
          j := j + 1;
        }
        if dots == 2 {
          Found(stdout, start, a, b, j);
          return Some(stdout[start..j]);
        }
        SkipAhead(stdout, start, j, dots, a, b, j);
        i := if j > i + 1 then j else i + 1;
      } else {
        NothingStarts(stdout, i);
        OneMore(stdout, i);
        i := i + 1;
      }
    }
    FoundNone(stdout);
    found := None;
  }
}

/**
 * The restricted Damerau–Levenshtein (optimal string alignment) distance of
 * the C backend, `damerau_levenshtein_distance`: a recursive definition of the
 * recurrence the dynamic-programming table satisfies, the table-filling method
 * proved to compute it, and the facts the rest of the system relies on.
 */
module EditDistance {

  function Min(a: int, b: int): int
  {
    if a <= b then a else b
  }

  function Max(a: int, b: int): int
  {
    if a >= b then a else b
  }

  function Abs(a: int): int
  {
    if a < 0 then -a else a
  }

  /** Whether the last two characters of `s[..i]` are those of `t[..j]` swapped. */
  predicate Transposed(s: seq<char>, t: seq<char>, i: nat, j: nat)
    requires i <= |s| && j <= |t|
  {
    i > 1 && j > 1 && s[i - 1] == t[j - 2] && s[i - 2] == t[j - 1]
  }

  /**
   * One cell of the table from its neighbours: the cheapest of a deletion (`up`),
   * an insertion (`left`), a substitution that is free on equal characters
   * (`diag`), and, when the last two characters are swapped, a transposition
   * (`back2`, the cell two rows and two columns back).
   */
  function Cell(s: seq<char>, t: seq<char>, i: nat, j: nat, up: int, left: int, diag: int, back2: int): int
    requires 0 < i <= |s| && 0 < j <= |t|
  {
    var cost := if s[i - 1] == t[j - 1] then 0 else 1;
    var edit := Min(up + 1, Min(left + 1, diag + cost));
    if Transposed(s, t, i, j) then Min(edit, back2 + 1) else edit
  }

  /** The distance between the first `i` characters of `s` and the first `j` of `t`. */
  function Osa(s: seq<char>, t: seq<char>, i: nat, j: nat): nat
    requires i <= |s| && j <= |t|
    decreases i + j
  {
    if i == 0 then j
    else if j == 0 then i
    else
      var back2 := if Transposed(s, t, i, j) then Osa(s, t, i - 2, j - 2) else 0;
      var c := Cell(s, t, i, j, Osa(s, t, i - 1, j), Osa(s, t, i, j - 1), Osa(s, t, i - 1, j - 1), back2);
      assert c >= 0;
      c
  }

  function Distance(s: seq<char>, t: seq<char>): nat
  {
    Osa(s, t, |s|, |t|)
  }

  /** `damerau_levenshtein_distance`: fills the `(len1 + 1) x (len2 + 1)` table row by row. */
  method DamerauLevenshteinDistance(s1: seq<char>, s2: seq<char>) returns (d: int)
    ensures d == Distance(s1, s2)
  {
    var len1, len2 := |s1|, |s2|;
    if len1 == 0 { return len2; }
    if len2 == 0 { return len1; }
    var dp := new int[len1 + 1, len2 + 1];
    for i := 0 to len1 + 1
      invariant forall a :: 0 <= a < i ==> dp[a, 0] == a
    {
      dp[i, 0] := i;
    }
    for j := 0 to len2 + 1
      invariant forall a :: 0 <= a <= len1 ==> dp[a, 0] == a
      invariant forall b :: 0 <= b < j ==> dp[0, b] == b
    {
      dp[0, j] := j;
    }
    for i := 1 to len1 + 1
      invariant forall a, b :: 0 <= a < i && 0 <= b <= len2 ==> dp[a, b] == Osa(s1, s2, a, b)
      invariant forall a :: i <= a <= len1 ==> dp[a, 0] == a
    {
      FillRow(dp, s1, s2, i);
    }
    d := dp[len1, len2];
  }

  /** The inner `for (j = 1; j <= len2; j++)` loop of the table fill: row `i` from the rows above it. */
  method FillRow(dp: array2<int>, s1: seq<char>, s2: seq<char>, i: nat)
    requires dp.Length0 == |s1| + 1 && dp.Length1 == |s2| + 1 && 0 < i <= |s1|
    requires forall a, b :: 0 <= a < i && 0 <= b <= |s2| ==> dp[a, b] == Osa(s1, s2, a, b)
    requires dp[i, 0] == i
    modifies dp
    ensures forall a, b :: 0 <= a <= i && 0 <= b <= |s2| ==> dp[a, b] == Osa(s1, s2, a, b)
    ensures forall a, b :: i < a < dp.Length0 && 0 <= b < dp.Length1 ==> dp[a, b] == old(dp[a, b])
  {
    for j := 1 to |s2| + 1
      invariant forall a, b :: 0 <= a <= i && 0 <= b <= |s2| && (a < i || b < j) ==> dp[a, b] == Osa(s1, s2, a, b)
      invariant forall a, b :: i < a < dp.Length0 && 0 <= b < dp.Length1 ==> dp[a, b] == old(dp[a, b])
    {
      FillCell(dp, s1, s2, i, j);
    }
  }

  /** The body of the inner loop: one cell from the three neighbours and, on a transposition, the cell two back. */
  method FillCell(dp: array2<int>, s1: seq<char>, s2: seq<char>, i: nat, j: nat)
    requires dp.Length0 == |s1| + 1 && dp.Length1 == |s2| + 1 && 0 < i <= |s1| && 0 < j <= |s2|
    requires forall a, b :: 0 <= a <= i && 0 <= b <= |s2| && (a < i || b < j) ==> dp[a, b] == Osa(s1, s2, a, b)
    modifies dp
    ensures dp[i, j] == Osa(s1, s2, i, j)
    ensures forall a, b :: 0 <= a < dp.Length0 && 0 <= b < dp.Length1 && (a != i || b != j) ==> dp[a, b] == old(dp[a, b])
  {
    var cost := if s1[i - 1] == s2[j - 1] then 0 else 1;
    var best := Min(dp[i - 1, j] + 1,              // deletion
                    Min(dp[i, j - 1] + 1,          // insertion
                        dp[i - 1, j - 1] + cost)); // substitution or match
    if i > 1 && j > 1 && s1[i - 1] == s2[j - 2] && s1[i - 2] == s2[j - 1] {
      best := Min(best, dp[i - 2, j - 2] + 1);     // transposition
    }
    ghost var back2 := if Transposed(s1, s2, i, j) then Osa(s1, s2, i - 2, j - 2) else 0;
    assert best == Cell(s1, s2, i, j, Osa(s1, s2, i - 1, j), Osa(s1, s2, i, j - 1), Osa(s1, s2, i - 1, j - 1), back2);
    dp[i, j] := best;
  }

  /** Against an empty string the distance is the other string's length. */
  lemma DistanceToEmpty(s: seq<char>)
    ensures Distance([], s) == |s| && Distance(s, []) == |s|
  {
  }

  /** Equal prefixes are at distance zero. */
  lemma {:induction false} OsaEqualPrefix(s: seq<char>, t: seq<char>, i: nat)
    requires i <= |s| && i <= |t| && s[..i] == t[..i]
    ensures Osa(s, t, i, i) == 0
  {
    if i > 0 {
      assert s[i - 1] == s[..i][i - 1] == t[..i][i - 1] == t[i - 1];
      assert s[..i - 1] == s[..i][..i - 1] == t[..i][..i - 1] == t[..i - 1];
      OsaEqualPrefix(s, t, i - 1);
    }
  }

  lemma DistanceToSelf(s: seq<char>)
    ensures Distance(s, s) == 0
  {
    OsaEqualPrefix(s, s, |s|);
  }

  /** Zero distance only between equal prefixes. */
  lemma {:induction false} OsaZero(s: seq<char>, t: seq<char>, i: nat, j: nat)
    requires i <= |s| && j <= |t| && Osa(s, t, i, j) == 0
    ensures i == j && s[..i] == t[..j]
    decreases i + j
  {
    if i > 0 && j > 0 {
      assert Osa(s, t, i - 1, j - 1) == 0 && s[i - 1] == t[j - 1];
      OsaZero(s, t, i - 1, j - 1);
      assert s[..i] == s[..i - 1] + [s[i - 1]];
      assert t[..j] == t[..j - 1] + [t[j - 1]];
    }
  }

  lemma DistanceZeroIffEqual(s: seq<char>, t: seq<char>)
    ensures Distance(s, t) == 0 <==> s == t
  {
    if Distance(s, t) == 0 {
      OsaZero(s, t, |s|, |t|);
      assert s == s[..|s|] && t == t[..|t|];
    }
    if s == t {
      DistanceToSelf(s);
    }
  }

  /** A cell is no smaller than a bound all its candidates respect. */
  lemma CellAtLeast(s: seq<char>, t: seq<char>, i: nat, j: nat, up: int, left: int, diag: int, back2: int, lo: int)
    requires 0 < i <= |s| && 0 < j <= |t|
    requires lo <= up + 1 && lo <= left + 1 && lo <= diag && (Transposed(s, t, i, j) ==> lo <= back2 + 1)
    ensures lo <= Cell(s, t, i, j, up, left, diag, back2)
  {
  }

  /** The distance is at least the difference in length ... */
  lemma {:induction false} OsaLowerBound(s: seq<char>, t: seq<char>, i: nat, j: nat)
    requires i <= |s| && j <= |t|
    ensures Abs(i - j) <= Osa(s, t, i, j)
    decreases i + j
  {
    if i > 0 && j > 0 {
      OsaLowerBound(s, t, i - 1, j);
      OsaLowerBound(s, t, i, j - 1);
      OsaLowerBound(s, t, i - 1, j - 1);
      var back2 := 0;
      if Transposed(s, t, i, j) {
        OsaLowerBound(s, t, i - 2, j - 2);
        back2 := Osa(s, t, i - 2, j - 2);
      }
      CellAtLeast(s, t, i, j, Osa(s, t, i - 1, j), Osa(s, t, i, j - 1), Osa(s, t, i - 1, j - 1), back2, Abs(i - j));
    }
  }

  /** ... and at most the longer length. */
  lemma {:induction false} OsaUpperBound(s: seq<char>, t: seq<char>, i: nat, j: nat)
    requires i <= |s| && j <= |t|
    ensures Osa(s, t, i, j) <= Max(i, j)
    decreases i + j
  {
    if i > 0 && j > 0 {
      OsaUpperBound(s, t, i - 1, j - 1);
    }
  }

  lemma DistanceBounds(s: seq<char>, t: seq<char>)
    ensures Abs(|s| - |t|) <= Distance(s, t) <= Max(|s|, |t|)
  {
    OsaLowerBound(s, t, |s|, |t|);
    OsaUpperBound(s, t, |s|, |t|);
  }

  /** Past a common stretch `s[m..n] == t[m..n]` the distance does not grow. */
  lemma {:induction false} OsaCommonSuffix(s: seq<char>, t: seq<char>, m: nat, n: nat)
    requires m <= n <= |s| && n <= |t|
    requires forall k :: m <= k < n ==> s[k] == t[k]
    ensures Osa(s, t, n, n) <= Osa(s, t, m, m)
    decreases n - m
  {
    if m < n {
      OsaCommonSuffix(s, t, m, n - 1);
      assert Osa(s, t, n, n) <= Osa(s, t, n - 1, n - 1);
    }
  }

  /** Swapping two adjacent different characters costs exactly one edit. */
  lemma AdjacentSwap(p: seq<char>, a: char, b: char, q: seq<char>)
    requires a != b
    ensures Distance(p + [a, b] + q, p + [b, a] + q) == 1
  {
    var s, t := p + [a, b] + q, p + [b, a] + q;
    var k := |p|;
    assert s[..k] == p == t[..k];
    OsaEqualPrefix(s, t, k);
    assert Transposed(s, t, k + 2, k + 2);
    assert Osa(s, t, k + 2, k + 2) <= 1;
    assert forall i :: k + 2 <= i < |s| ==> s[i] == q[i - k - 2] == t[i];
    OsaCommonSuffix(s, t, k + 2, |s|);
    assert s[k] != t[k];
    DistanceZeroIffEqual(s, t);
  }

  /** The value the C driver prints for `damerau_levenshtein_distance("nayway", "anyway")`. */
  lemma NaywayAnyway()
    ensures Distance("nayway", "anyway") == 1
  {
    assert "nayway" == [] + ['n', 'a'] + "yway";
    assert "anyway" == [] + ['a', 'n'] + "yway";
    AdjacentSwap([], 'n', 'a', "yway");
  }
}

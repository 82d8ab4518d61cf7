/** `levenshteinDistance` of components/CountryCombobox.tsx: the classic
    dynamic-programming edit distance, and the recursive definition it
    computes. */
module Levenshtein {

  function Min3(x: int, y: int, z: int): (m: int)
    ensures m <= x && m <= y && m <= z
    ensures m == x || m == y || m == z
  {
    if x <= y && x <= z then x else if y <= z then y else z
  }

  /** The number of single-character insertions, deletions and substitutions
      that turn `a` into `b`, defined on the last characters the way the
      matrix is filled: drop the last character of `b` (deletion), drop the
      last of `a` (insertion), or drop both (substitution, free when the two
      agree). */
  function EditDistance(a: string, b: string): nat
    decreases |a| + |b|
  {
    if |a| == 0 then |b|
    else if |b| == 0 then |a|
    else
      Min3(EditDistance(a, b[..|b| - 1]) + 1,
           EditDistance(a[..|a| - 1], b) + 1,
           EditDistance(a[..|a| - 1], b[..|b| - 1]) + (if a[|a| - 1] == b[|b| - 1] then 0 else 1))
  }

  /** The distance between the first `j` characters of `a` and the first `i`
      of `b`: cell `[i][j]` of the matrix. */
  function Cell(a: string, b: string, i: nat, j: nat): nat
    requires i <= |b| && j <= |a|
  {
    EditDistance(a[..j], b[..i])
  }

  /** The matrix recurrence, cell by cell. */
  lemma CellRecurrence(a: string, b: string, i: nat, j: nat)
    requires 1 <= i <= |b| && 1 <= j <= |a|
    ensures Cell(a, b, i, j) ==
      Min3(Cell(a, b, i - 1, j) + 1, Cell(a, b, i, j - 1) + 1,
           Cell(a, b, i - 1, j - 1) + (if a[j - 1] == b[i - 1] then 0 else 1))
  {
    assert a[..j][..j - 1] == a[..j - 1];
    assert b[..i][..i - 1] == b[..i - 1];
  }

  /** The first row and the first column of the matrix. */
  lemma CellBorder(a: string, b: string, i: nat, j: nat)
    requires i <= |b| && j <= |a|
    ensures Cell(a, b, 0, j) == j
    ensures Cell(a, b, i, 0) == i
  {
  }

  /** The matrix algorithm: row 0 and column 0 count up, every other cell is
      the cheapest of deletion, insertion and substitution, and the answer is
      the bottom-right cell. It computes the recursive edit distance. */
  method LevenshteinDistance(a: string, b: string) returns (d: nat)
    ensures d == EditDistance(a, b)
  {
    if |a| == 0 {
      return |b|;
    }
    if |b| == 0 {
      return |a|;
    }
    var matrix := new nat[|b| + 1, |a| + 1];
    var i := 0;
    while i <= |b|
      invariant 0 <= i <= |b| + 1
      invariant forall r :: 0 <= r < i ==> matrix[r, 0] == r
    {
      matrix[i, 0] := i;
      i := i + 1;
    }
    var j := 0;
    while j <= |a|
      invariant 0 <= j <= |a| + 1
      invariant forall r :: 0 <= r <= |b| ==> matrix[r, 0] == r
      invariant forall c :: 0 <= c < j ==> matrix[0, c] == c
    {
      matrix[0, j] := j;
      j := j + 1;
    }
    forall c | 0 <= c <= |a|
      ensures matrix[0, c] == Cell(a, b, 0, c)
    {
      CellBorder(a, b, 0, c);
    }
    i := 1;
    while i <= |b|
      invariant 1 <= i <= |b| + 1
      invariant forall r, c :: 0 <= r < i && 0 <= c <= |a| ==> matrix[r, c] == Cell(a, b, r, c)
      invariant forall r :: i <= r <= |b| ==> matrix[r, 0] == r
    {
      CellBorder(a, b, i, 0);
      j := 1;
      while j <= |a|
        invariant 1 <= j <= |a| + 1
        invariant forall r, c :: 0 <= r < i && 0 <= c <= |a| ==> matrix[r, c] == Cell(a, b, r, c)
        invariant forall c :: 0 <= c < j ==> matrix[i, c] == Cell(a, b, i, c)
        invariant forall r :: i < r <= |b| ==> matrix[r, 0] == r
      {
        var cost := if a[j - 1] == b[i - 1] then 0 else 1;
        CellRecurrence(a, b, i, j);
        matrix[i, j] := Min3(matrix[i - 1, j] + 1, matrix[i, j - 1] + 1, matrix[i - 1, j - 1] + cost);
        j := j + 1;
      }
      i := i + 1;
    }
    d := matrix[|b|, |a|];
    assert a[..|a|] == a && b[..|b|] == b;
  }

  /** Distance to or from the empty string is the other string's length. */
  lemma EditDistanceEmpty(a: string, b: string)
    ensures EditDistance("", b) == |b|
    ensures EditDistance(a, "") == |a|
  {
  }

  /** The distance is zero exactly when the strings are equal. */
  lemma {:induction false} EditDistanceZeroIff(a: string, b: string)
    ensures EditDistance(a, b) == 0 <==> a == b
    decreases |a| + |b|
  {
    if |a| > 0 && |b| > 0 {
      var a', b' := a[..|a| - 1], b[..|b| - 1];
      EditDistanceZeroIff(a', b');
      assert a == a' + [a[|a| - 1]] && b == b' + [b[|b| - 1]];
    }
  }

  /** The distance lies between the difference of the lengths and the
      larger length. */
  lemma {:induction false} EditDistanceBounds(a: string, b: string)
    ensures |a| - |b| <= EditDistance(a, b) && |b| - |a| <= EditDistance(a, b)
    ensures EditDistance(a, b) <= |a| || EditDistance(a, b) <= |b|
    ensures EditDistance(a, b) <= |a| + |b|
    decreases |a| + |b|
  {
    if |a| > 0 && |b| > 0 {
      var a', b' := a[..|a| - 1], b[..|b| - 1];
      EditDistanceBounds(a, b');
      EditDistanceBounds(a', b);
      EditDistanceBounds(a', b');
    }
  }

  /** Strings with no character in common are as far apart as the longer
      one is long: every position costs one edit. */
  lemma {:induction false} EditDistanceDisjoint(a: string, b: string)
    requires forall k :: 0 <= k < |a| ==> a[k] !in b
    ensures EditDistance(a, b) >= |a| && EditDistance(a, b) >= |b|
    decreases |a| + |b|
  {
    if |a| > 0 && |b| > 0 {
      var a', b' := a[..|a| - 1], b[..|b| - 1];
      assert forall k :: 0 <= k < |a| ==> a[k] !in b';
      EditDistanceDisjoint(a, b');
      EditDistanceDisjoint(a', b);
      EditDistanceDisjoint(a', b');
      assert a[|a| - 1] != b[|b| - 1];
    }
  }

  /** A common suffix never adds to the distance. */
  lemma {:induction false} EditDistanceCommonSuffix(u: string, w: string, s: string)
    ensures EditDistance(u + s, w + s) <= EditDistance(u, w)
    decreases |s|
  {
    if |s| > 0 {
      var s' := s[..|s| - 1];
      EditDistanceCommonSuffix(u, w, s');
      assert (u + s)[..|u + s| - 1] == u + s';
      assert (w + s)[..|w + s| - 1] == w + s';
    } else {
      assert u + s == u && w + s == w;
    }
  }

  /** One substitution costs at most one edit. */
  lemma OneSubstitution(p: string, c: char, x: char, s: string)
    ensures EditDistance(p + [c] + s, p + [x] + s) <= 1
  {
    EditDistanceCommonSuffix(p + [c], p + [x], s);
    assert (p + [c])[..|p|] == p && (p + [x])[..|p|] == p;
    EditDistanceZeroIff(p, p);
  }

  /** One insertion costs at most one edit. */
  lemma OneInsertion(p: string, x: char, s: string)
    ensures EditDistance(p + s, p + [x] + s) <= 1
  {
    EditDistanceCommonSuffix(p, p + [x], s);
    assert (p + [x])[..|p|] == p;
    EditDistanceZeroIff(p, p);
  }

  /** One deletion costs at most one edit. */
  lemma OneDeletion(p: string, x: char, s: string)
    ensures EditDistance(p + [x] + s, p + s) <= 1
  {
    EditDistanceCommonSuffix(p + [x], p, s);
    assert (p + [x])[..|p|] == p;
    EditDistanceZeroIff(p, p);
  }

  /** The textbook example: "kitten" and "sitting" are three edits apart. */
  lemma KittenSitting()
    ensures EditDistance("kitten", "sitting") == 3
  {
    var a, b := "kitten", "sitting";
    KittenSittingTop(a, b);
    KittenSittingBottom(a, b);
    assert a[..|a|] == a && b[..|b|] == b;
  }

  /** The matrix of the textbook example, rows 0 to 3. */
  lemma KittenSittingTop(a: string, b: string)
    requires |a| == 6 && |b| == 7
    requires a[0] == 'k' && a[1] == 'i' && a[2] == 't' && a[3] == 't' && a[4] == 'e' && a[5] == 'n'
    requires b[0] == 's' && b[1] == 'i' && b[2] == 't' && b[3] == 't' && b[4] == 'i' && b[5] == 'n' && b[6] == 'g'
    ensures Cell(a, b, 3, 0) == 3 && Cell(a, b, 3, 1) == 3 && Cell(a, b, 3, 2) == 2 && Cell(a, b, 3, 3) == 1 && Cell(a, b, 3, 4) == 2 && Cell(a, b, 3, 5) == 3 && Cell(a, b, 3, 6) == 4
  {
    CellBorder(a, b, 1, 0);
    forall j | 0 <= j <= |a|
      ensures Cell(a, b, 0, j) == j
    {
      CellBorder(a, b, 0, j);
    }
    CellRecurrence(a, b, 1, 1);
    assert Cell(a, b, 1, 1) == 1;
    CellRecurrence(a, b, 1, 2);
    assert Cell(a, b, 1, 2) == 2;
    CellRecurrence(a, b, 1, 3);
    assert Cell(a, b, 1, 3) == 3;
    CellRecurrence(a, b, 1, 4);
    assert Cell(a, b, 1, 4) == 4;
    CellRecurrence(a, b, 1, 5);
    assert Cell(a, b, 1, 5) == 5;
    CellRecurrence(a, b, 1, 6);
    assert Cell(a, b, 1, 6) == 6;
    CellBorder(a, b, 2, 0);
    CellRecurrence(a, b, 2, 1);
    assert Cell(a, b, 2, 1) == 2;
    CellRecurrence(a, b, 2, 2);
    assert Cell(a, b, 2, 2) == 1;
    CellRecurrence(a, b, 2, 3);
    assert Cell(a, b, 2, 3) == 2;
    CellRecurrence(a, b, 2, 4);
    assert Cell(a, b, 2, 4) == 3;
    CellRecurrence(a, b, 2, 5);
    assert Cell(a, b, 2, 5) == 4;
    CellRecurrence(a, b, 2, 6);
    assert Cell(a, b, 2, 6) == 5;
    CellBorder(a, b, 3, 0);
    CellRecurrence(a, b, 3, 1);
    assert Cell(a, b, 3, 1) == 3;
    CellRecurrence(a, b, 3, 2);
    assert Cell(a, b, 3, 2) == 2;
    CellRecurrence(a, b, 3, 3);
    assert Cell(a, b, 3, 3) == 1;
    CellRecurrence(a, b, 3, 4);
    assert Cell(a, b, 3, 4) == 2;
    CellRecurrence(a, b, 3, 5);
    assert Cell(a, b, 3, 5) == 3;
    CellRecurrence(a, b, 3, 6);
    assert Cell(a, b, 3, 6) == 4;
  }

  /** The matrix of the textbook example, rows 4 to 7, from row 3. */
  lemma KittenSittingBottom(a: string, b: string)
    requires |a| == 6 && |b| == 7
    requires a[0] == 'k' && a[1] == 'i' && a[2] == 't' && a[3] == 't' && a[4] == 'e' && a[5] == 'n'
    requires b[0] == 's' && b[1] == 'i' && b[2] == 't' && b[3] == 't' && b[4] == 'i' && b[5] == 'n' && b[6] == 'g'
    requires Cell(a, b, 3, 0) == 3 && Cell(a, b, 3, 1) == 3 && Cell(a, b, 3, 2) == 2 && Cell(a, b, 3, 3) == 1 && Cell(a, b, 3, 4) == 2 && Cell(a, b, 3, 5) == 3 && Cell(a, b, 3, 6) == 4
    ensures Cell(a, b, 7, 0) == 7 && Cell(a, b, 7, 1) == 7 && Cell(a, b, 7, 2) == 6 && Cell(a, b, 7, 3) == 5 && Cell(a, b, 7, 4) == 4 && Cell(a, b, 7, 5) == 4 && Cell(a, b, 7, 6) == 3
  {
    CellBorder(a, b, 4, 0);
    CellRecurrence(a, b, 4, 1);
    assert Cell(a, b, 4, 1) == 4;
    CellRecurrence(a, b, 4, 2);
    assert Cell(a, b, 4, 2) == 3;
    CellRecurrence(a, b, 4, 3);
    assert Cell(a, b, 4, 3) == 2;
    CellRecurrence(a, b, 4, 4);
    assert Cell(a, b, 4, 4) == 1;
    CellRecurrence(a, b, 4, 5);
    assert Cell(a, b, 4, 5) == 2;
    CellRecurrence(a, b, 4, 6);
    assert Cell(a, b, 4, 6) == 3;
    CellBorder(a, b, 5, 0);
    CellRecurrence(a, b, 5, 1);
    assert Cell(a, b, 5, 1) == 5;
    CellRecurrence(a, b, 5, 2);
    assert Cell(a, b, 5, 2) == 4;
    CellRecurrence(a, b, 5, 3);
    assert Cell(a, b, 5, 3) == 3;
    CellRecurrence(a, b, 5, 4);
    assert Cell(a, b, 5, 4) == 2;
    CellRecurrence(a, b, 5, 5);
    assert Cell(a, b, 5, 5) == 2;
    CellRecurrence(a, b, 5, 6);
    assert Cell(a, b, 5, 6) == 3;
    CellBorder(a, b, 6, 0);
    CellRecurrence(a, b, 6, 1);
    assert Cell(a, b, 6, 1) == 6;
    CellRecurrence(a, b, 6, 2);
    assert Cell(a, b, 6, 2) == 5;
    CellRecurrence(a, b, 6, 3);
    assert Cell(a, b, 6, 3) == 4;
    CellRecurrence(a, b, 6, 4);
    assert Cell(a, b, 6, 4) == 3;
    CellRecurrence(a, b, 6, 5);
    assert Cell(a, b, 6, 5) == 3;
    CellRecurrence(a, b, 6, 6);
    assert Cell(a, b, 6, 6) == 2;
    CellBorder(a, b, 7, 0);
    CellRecurrence(a, b, 7, 1);
    assert Cell(a, b, 7, 1) == 7;
    CellRecurrence(a, b, 7, 2);
    assert Cell(a, b, 7, 2) == 6;
    CellRecurrence(a, b, 7, 3);
    assert Cell(a, b, 7, 3) == 5;
    CellRecurrence(a, b, 7, 4);
    assert Cell(a, b, 7, 4) == 4;
    CellRecurrence(a, b, 7, 5);
    assert Cell(a, b, 7, 5) == 4;
    CellRecurrence(a, b, 7, 6);
    assert Cell(a, b, 7, 6) == 3;
  }
}

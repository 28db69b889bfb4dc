/** Levenshtein distance: the recurrence the matrix of
    `calculateLevenshteinDistance` follows, the matrix fill proved to compute
    it, and the metric facts the ranking relies on. */
module Levenshtein {

  function Min3(x: nat, y: nat, z: nat): (m: nat)
    ensures m <= x && m <= y && m <= z
    ensures m == x || m == y || m == z
  {
    if x <= y && x <= z then x else if y <= z then y else z
  }

  /** The substitution cost of the matrix fill: 0 for equal characters, else 1. */
  function Cost(c: char, d: char): nat {
    if c == d then 0 else 1
  }

  /** The Levenshtein distance, by the recurrence on prefixes: the distance to
      or from the empty string is the other length, and otherwise it is the
      least of deleting the last character of `a` (+ 1), inserting the last
      character of `b` (+ 1), and matching the two last characters (+ 0 when
      they are equal, + 1 otherwise). */
  function EditDistance(a: string, b: string): nat
    decreases |a| + |b|
  {
    if |a| == 0 then |b|
    else if |b| == 0 then |a|
    else
      var i, j := |a| - 1, |b| - 1;
      Min3(EditDistance(a[..i], b) + 1,
           EditDistance(a, b[..j]) + 1,
           EditDistance(a[..i], b[..j]) + Cost(a[i], b[j]))
  }

  /** Cell (i, j) of the matrix of `calculateLevenshteinDistance`: row 0 and
      column 0 hold their index, and every other cell is the least of the cell
      above + 1, the cell to the left + 1 and the cell diagonally above + the
      cost of `a[i - 1]` against `b[j - 1]`. */
  function Cell(a: string, b: string, i: nat, j: nat): nat
    requires i <= |a| && j <= |b|
    decreases i + j
  {
    if i == 0 then j
    else if j == 0 then i
    else
      Min3(Cell(a, b, i - 1, j) + 1,
           Cell(a, b, i, j - 1) + 1,
           Cell(a, b, i - 1, j - 1) + Cost(a[i - 1], b[j - 1]))
  }

  /** Cell (i, j) is the distance between the prefixes of lengths i and j. */
  lemma {:induction false} CellIsDistance(a: string, b: string, i: nat, j: nat)
    requires i <= |a| && j <= |b|
    ensures Cell(a, b, i, j) == EditDistance(a[..i], b[..j])
    decreases i + j
  {
    if i > 0 && j > 0 {
      CellIsDistance(a, b, i - 1, j);
      CellIsDistance(a, b, i, j - 1);
      CellIsDistance(a, b, i - 1, j - 1);
      PrefixStep(a, b, i, j);
    }
  }

  /** The recurrence of `EditDistance`, read on the prefixes of two strings. */
  lemma PrefixStep(a: string, b: string, i: nat, j: nat)
    requires 1 <= i <= |a| && 1 <= j <= |b|
    ensures EditDistance(a[..i], b[..j]) ==
      Min3(EditDistance(a[..i - 1], b[..j]) + 1,
           EditDistance(a[..i], b[..j - 1]) + 1,
           EditDistance(a[..i - 1], b[..j - 1]) + Cost(a[i - 1], b[j - 1]))
  {
    var a', b' := a[..i], b[..j];
    assert a'[..i - 1] == a[..i - 1];
    assert b'[..j - 1] == b[..j - 1];
    assert a'[i - 1] == a[i - 1] && b'[j - 1] == b[j - 1];
  }

  /** One pass of the inner loop of `calculateLevenshteinDistance`: fills row
      `i` from column 1 on, given row `i - 1` and cell (i, 0). */
  method FillRow(matrix: array2<nat>, string1: string, string2: string, i: nat)
    requires matrix.Length0 == |string1| + 1 && matrix.Length1 == |string2| + 1
    requires 1 <= i <= |string1|
    requires forall j' {:trigger matrix[i - 1, j']} :: 0 <= j' <= |string2| ==>
      matrix[i - 1, j'] == Cell(string1, string2, i - 1, j')
    requires matrix[i, 0] == i
    modifies matrix
    ensures forall j' {:trigger matrix[i, j']} :: 0 <= j' <= |string2| ==>
      matrix[i, j'] == Cell(string1, string2, i, j')
    ensures forall i', j' :: 0 <= i' < matrix.Length0 && 0 <= j' < matrix.Length1 && i' != i ==>
      matrix[i', j'] == old(matrix[i', j'])
  {
    for j := 1 to |string2| + 1
      invariant forall j' {:trigger matrix[i - 1, j']} :: 0 <= j' <= |string2| ==>
        matrix[i - 1, j'] == Cell(string1, string2, i - 1, j')
      invariant forall j' {:trigger matrix[i, j']} :: 0 <= j' < j ==>
        matrix[i, j'] == Cell(string1, string2, i, j')
      invariant forall i', j' :: 0 <= i' < matrix.Length0 && 0 <= j' < matrix.Length1 && i' != i ==>
        matrix[i', j'] == old(matrix[i', j'])
    {
      var cost := if string1[i - 1] == string2[j - 1] then 0 else 1;
      var deletion := matrix[i - 1, j] + 1;
      var insertion := matrix[i, j - 1] + 1;
      var substitution := matrix[i - 1, j - 1] + cost;
      matrix[i, j] := Min3(deletion, insertion, substitution);
    }
  }

  /** `calculateLevenshteinDistance`: fills the (m+1) x (n+1) matrix row by row
      and returns its bottom-right cell. */
  method LevenshteinDistance(string1: string, string2: string) returns (d: nat)
    ensures d == EditDistance(string1, string2)
  {
    var lenStr1, lenStr2 := |string1|, |string2|;
    var matrix := new nat[lenStr1 + 1, lenStr2 + 1];

    for i := 0 to lenStr1 + 1
      invariant forall i' :: 0 <= i' < i ==> matrix[i', 0] == i'
    {
      matrix[i, 0] := i;
    }

    for j := 0 to lenStr2 + 1
      invariant forall i' :: 0 <= i' <= lenStr1 ==> matrix[i', 0] == i'
      invariant forall j' :: 0 <= j' < j ==> matrix[0, j'] == j'
    {
      matrix[0, j] := j;
    }

    for i := 1 to lenStr1 + 1
      invariant forall j' {:trigger matrix[i - 1, j']} :: 0 <= j' <= lenStr2 ==>
        matrix[i - 1, j'] == Cell(string1, string2, i - 1, j')
      invariant forall i' :: i <= i' <= lenStr1 ==> matrix[i', 0] == i'
    {
      FillRow(matrix, string1, string2, i);
    }

    d := matrix[lenStr1, lenStr2];
    CellIsDistance(string1, string2, lenStr1, lenStr2);
    assert string1[..lenStr1] == string1 && string2[..lenStr2] == string2;
  }

  /** Distance to or from the empty string is the other string's length. */
  lemma DistanceToEmpty(a: string)
    ensures EditDistance(a, "") == |a|
    ensures EditDistance("", a) == |a|
  {
  }

  /** A string is at distance 0 from itself. */
  lemma {:induction false} DistanceToSelf(a: string)
    ensures EditDistance(a, a) == 0
    decreases |a|
  {
    if |a| > 0 {
      DistanceToSelf(a[..|a| - 1]);
    }
  }

  /** The distance never exceeds the longer length (substitute along the
      shorter string, then insert or delete the rest). */
  lemma {:induction false} DistanceUpperBound(a: string, b: string)
    ensures EditDistance(a, b) <= if |a| <= |b| then |b| else |a|
    decreases |a| + |b|
  {
    if |a| > 0 && |b| > 0 {
      DistanceUpperBound(a[..|a| - 1], b[..|b| - 1]);
    }
  }

  /** The distance is at least the difference of the lengths. */
  lemma {:induction false} DistanceLowerBound(a: string, b: string)
    ensures EditDistance(a, b) >= |a| - |b| && EditDistance(a, b) >= |b| - |a|
    decreases |a| + |b|
  {
    if |a| > 0 && |b| > 0 {
      DistanceLowerBound(a[..|a| - 1], b);
      DistanceLowerBound(a, b[..|b| - 1]);
      DistanceLowerBound(a[..|a| - 1], b[..|b| - 1]);
    }
  }

  /** The distance is symmetric. */
  lemma {:induction false} DistanceSymmetric(a: string, b: string)
    ensures EditDistance(a, b) == EditDistance(b, a)
    decreases |a| + |b|
  {
    if |a| > 0 && |b| > 0 {
      DistanceSymmetric(a[..|a| - 1], b);
      DistanceSymmetric(a, b[..|b| - 1]);
      DistanceSymmetric(a[..|a| - 1], b[..|b| - 1]);
    }
  }

  /** The distance is zero exactly when the strings are equal. */
  lemma {:induction false} DistanceZeroIff(a: string, b: string)
    ensures EditDistance(a, b) == 0 <==> a == b
    decreases |a| + |b|
  {
    if |a| > 0 && |b| > 0 && EditDistance(a, b) == 0 {
      var i, j := |a| - 1, |b| - 1;
      assert EditDistance(a[..i], b[..j]) == 0 && a[i] == b[j];
      DistanceZeroIff(a[..i], b[..j]);
      assert a == a[..i] + [a[i]] && b == b[..j] + [b[j]];
    }
    if a == b {
      DistanceToSelf(a);
    }
  }

  /** The triangle inequality. */
  lemma {:induction false} DistanceTriangle(a: string, b: string, c: string)
    ensures EditDistance(a, c) <= EditDistance(a, b) + EditDistance(b, c)
    decreases |a| + |b| + |c|
  {
    if |a| == 0 {
      DistanceLowerBound(b, c);
    } else if |c| == 0 {
      DistanceLowerBound(a, b);
    } else if |b| == 0 {
      DistanceUpperBound(a, c);
    } else {
      var a', b', c' := a[..|a| - 1], b[..|b| - 1], c[..|c| - 1];
      var x, y, z := a[|a| - 1], b[|b| - 1], c[|c| - 1];
      var ab, bc := EditDistance(a, b), EditDistance(b, c);
      if ab == EditDistance(a', b) + 1 {
        DistanceTriangle(a', b, c);
      } else if bc == EditDistance(b, c') + 1 {
        DistanceTriangle(a, b, c');
      } else if ab == EditDistance(a, b') + 1 {
        if bc == EditDistance(b', c) + 1 {
          DistanceTriangle(a, b', c);
        } else {
          assert bc == EditDistance(b', c') + Cost(y, z);
          DistanceTriangle(a, b', c');
        }
      } else {
        assert ab == EditDistance(a', b') + Cost(x, y);
        if bc == EditDistance(b', c) + 1 {
          DistanceTriangle(a', b', c);
        } else {
          assert bc == EditDistance(b', c') + Cost(y, z);
          DistanceTriangle(a', b', c');
        }
      }
    }
  }
}

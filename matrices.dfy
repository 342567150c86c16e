/**
 * Matrix utilities of index.js: row sum, dimensions, the square check and the
 * deep copy. A matrix is held as the source holds it, a sequence of rows of
 * numbers; a graph is a square 0/1 adjacency matrix.
 */
module Matrices {

  type Matrix = seq<seq<int>>

  /** arraySum: `reduce` of + without an initial value, so the row must not be empty. */
  function ArraySum(v: seq<int>): int
    requires |v| > 0
  {
    if |v| == 1 then v[0] else ArraySum(v[..|v| - 1]) + v[|v| - 1]
  }

  /** num_rows: in a square matrix every row has this many cells. */
  function NumRows(M: Matrix): (n: nat)
    ensures IsSquare(M) ==> forall i :: 0 <= i < |M| ==> |M[i]| == n
  {
    |M|
  }

  /** num_cols reads the first row, so the matrix must have one; on a square matrix it is num_rows. */
  function NumCols(M: Matrix): (n: nat)
    requires |M| > 0
    ensures IsSquare(M) ==> n == NumRows(M)
  {
    |M[0]|
  }

  /** Every row is as long as there are rows. */
  predicate IsSquare(A: Matrix)
  {
    forall i :: 0 <= i < |A| ==> |A[i]| == |A|
  }

  /** checkSquareMatrix: scans the rows and stops at the first one of the wrong length. */
  method CheckSquareMatrix(A: Matrix) returns (square: bool)
    ensures square <==> IsSquare(A)
  {
    var s := |A|;
    var i := 0;
    while i < s
      invariant 0 <= i <= s
      invariant forall k :: 0 <= k < i ==> |A[k]| == s
    {
      if |A[i]| != s {
        return false;
      }
      i := i + 1;
    }
    return true;
  }

  predicate IsBinaryRow(v: seq<int>)
  {
    forall j :: 0 <= j < |v| ==> v[j] == 0 || v[j] == 1
  }

  /** Every cell is 0 or 1, as in an adjacency matrix. */
  predicate IsBinary(A: Matrix)
  {
    forall i :: 0 <= i < |A| ==> IsBinaryRow(A[i])
  }

  /** The columns of a row that hold a 1: the out-neighbours of a vertex. */
  function Ones(v: seq<int>): set<nat>
  {
    set j: nat | j < |v| && v[j] == 1
  }

  /** On a 0/1 row, arraySum is the number of 1s, i.e. the out-degree. */
  lemma {:induction false} ArraySumCountsOnes(v: seq<int>)
    requires |v| > 0
    ensures IsBinaryRow(v) ==> ArraySum(v) == |Ones(v)|
  {
    var last := |v| - 1;
    if !IsBinaryRow(v) {
    } else if |v| == 1 {
      if v[0] == 1 {
        assert Ones(v) == {0};
      } else {
        assert Ones(v) == {};
      }
    } else {
      var w := v[..last];
      ArraySumCountsOnes(w);
      if v[last] == 1 {
        assert Ones(v) == Ones(w) + {last};
      } else {
        assert Ones(v) == Ones(w);
      }
    }
  }

  /** A row of length n whose only 1 is at column c. */
  function OneHot(c: nat, n: nat): seq<int>
  {
    seq(n, j => if j == c then 1 else 0)
  }

  /** A one-hot row sums to exactly 1. */
  lemma OneHotSum(c: nat, n: nat)
    requires c < n
    ensures ArraySum(OneHot(c, n)) == 1
  {
    ArraySumCountsOnes(OneHot(c, n));
    assert Ones(OneHot(c, n)) == {c};
  }

  /** The value held by a 2D array, row by row. */
  function Snapshot(A: array2<int>): (s: Matrix)
    reads A
    ensures |s| == A.Length0
    ensures forall i :: 0 <= i < |s| ==> |s[i]| == A.Length1
    ensures forall i, j :: 0 <= i < A.Length0 && 0 <= j < A.Length1 ==> s[i][j] == A[i, j]
  {
    seq(A.Length0, i requires 0 <= i < A.Length0 reads A =>
      seq(A.Length1, j requires 0 <= j < A.Length1 reads A => A[i, j]))
  }

  /** A 2D array whose cells agree with a matrix value has that value. */
  lemma SnapshotIs(A: array2<int>, V: Matrix)
    requires |V| == A.Length0
    requires forall i :: 0 <= i < |V| ==> |V[i]| == A.Length1
    requires forall i, j :: 0 <= i < A.Length0 && 0 <= j < A.Length1 ==> A[i, j] == V[i][j]
    ensures Snapshot(A) == V
  {
    var s := Snapshot(A);
    forall i | 0 <= i < |V|
      ensures s[i] == V[i]
    {
      assert forall j :: 0 <= j < |V[i]| ==> s[i][j] == V[i][j];
    }
  }

  /** array2DCopy: a fresh array, filled row by row, with the same cells as A. */
  method Array2DCopy(A: array2<int>) returns (X: array2<int>)
    ensures fresh(X)
    ensures X.Length0 == A.Length0 && X.Length1 == A.Length1
    ensures forall i, j :: 0 <= i < A.Length0 && 0 <= j < A.Length1 ==> X[i, j] == A[i, j]
  {
    X := new int[A.Length0, A.Length1];
    for i := 0 to A.Length0
      invariant forall r, j :: 0 <= r < i && 0 <= j < A.Length1 ==> X[r, j] == A[r, j]
    {
      for j := 0 to A.Length1
        invariant forall r, k :: 0 <= r < i && 0 <= k < A.Length1 ==> X[r, k] == A[r, k]
        invariant forall k :: 0 <= k < j ==> X[i, k] == A[i, k]
      {
        X[i, j] := A[i, j];
      }
    }
  }
}

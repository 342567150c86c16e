/**
 * The assignment verifier of index.js: mapPtoG reads off the committed column
 * of a row, isIso checks that every pattern edge lands on a host edge.
 * Assignments (which host vertex each pattern vertex goes to) are the
 * abstract view of a committed morphism matrix.
 */
module Verifier {
  import opened Matrices

  /** f[i] is the host vertex that pattern vertex i is sent to. */
  type Assignment = seq<nat>

  predicate InRange(f: Assignment, n: nat)
  {
    forall i :: 0 <= i < |f| ==> f[i] < n
  }

  predicate Injective(f: Assignment)
  {
    forall i, j :: 0 <= i < |f| && 0 <= j < |f| && i != j ==> f[i] != f[j]
  }

  /** Every pattern edge (r1, r2) is sent to a host edge (f[r1], f[r2]). */
  predicate Preserves(f: Assignment, G: Matrix, P: Matrix)
    requires IsSquare(G) && IsSquare(P) && |f| == |P| && InRange(f, |G|)
  {
    forall r1, r2 :: 0 <= r1 < |P| && 0 <= r2 < |P| && P[r1][r2] == 1 ==> G[f[r1]][f[r2]] == 1
  }

  /** A subgraph monomorphism of P into G: injective and edge-preserving. */
  predicate IsMonomorphism(f: Assignment, G: Matrix, P: Matrix)
    requires IsSquare(G) && IsSquare(P)
  {
    |f| == |P| && InRange(f, |G|) && Injective(f) && Preserves(f, G, P)
  }

  /** The morphism matrix of f: row i is one-hot at column f[i]. */
  function MatrixOf(f: Assignment, n: nat): Matrix
  {
    seq(|f|, i requires 0 <= i < |f| => OneHot(f[i], n))
  }

  predicate HasOne(row: seq<int>)
  {
    exists c :: 0 <= c < |row| && row[c] == 1
  }

  /** Every row has length cols and holds a 1: each row has been committed. */
  predicate Committed(M: Matrix, cols: nat)
  {
    forall r :: 0 <= r < |M| ==> |M[r]| == cols && HasOne(M[r])
  }

  /** The first column at or after `from` that holds a 1. */
  function FirstOne(row: seq<int>, from: nat): (c: nat)
    requires from <= |row|
    requires exists c :: from <= c < |row| && row[c] == 1
    ensures from <= c < |row| && row[c] == 1
    ensures forall k :: from <= k < c ==> row[k] != 1
    decreases |row| - from
  {
    if row[from] == 1 then from else FirstOne(row, from + 1)
  }

  /** mapPtoG: the first column of row p that holds a 1, scanning num_cols(M) columns. */
  function MapPtoG(M: Matrix, p: nat): (c: nat)
    requires p < |M| && |M[p]| == NumCols(M) && HasOne(M[p])
    ensures c < NumCols(M) && M[p][c] == 1
    ensures forall k :: 0 <= k < c ==> M[p][k] != 1
  {
    FirstOne(M[p], 0)
  }

  /** The property isIso decides, read through mapPtoG on the matrix itself. */
  predicate EdgesPreserved(M: Matrix, G: Matrix, P: Matrix)
    requires IsSquare(G) && IsSquare(P) && |M| == |P| && Committed(M, |G|)
  {
    forall r1, r2 :: 0 <= r1 < |P| && 0 <= r2 < |P| && P[r1][r2] == 1 ==>
      G[MapPtoG(M, r1)][MapPtoG(M, r2)] == 1
  }

  /** isIso: a double loop over pattern rows that rejects at the first unmatched edge. */
  method IsIso(M: Matrix, G: Matrix, P: Matrix) returns (iso: bool)
    requires IsSquare(G) && IsSquare(P) && |M| == |P| && Committed(M, |G|)
    ensures iso <==> EdgesPreserved(M, G, P)
  {
    var rows := NumRows(P);
    var r1 := 0;
    while r1 < rows
      invariant 0 <= r1 <= rows
      invariant forall a, b :: 0 <= a < r1 && 0 <= b < rows && P[a][b] == 1 ==>
        G[MapPtoG(M, a)][MapPtoG(M, b)] == 1
    {
      var r2 := 0;
      while r2 < rows
        invariant 0 <= r2 <= rows
        invariant forall a, b :: 0 <= a < r1 && 0 <= b < rows && P[a][b] == 1 ==>
          G[MapPtoG(M, a)][MapPtoG(M, b)] == 1
        invariant forall b :: 0 <= b < r2 && P[r1][b] == 1 ==> G[MapPtoG(M, r1)][MapPtoG(M, b)] == 1
      {
        if P[r1][r2] == 1 {
          var c1 := MapPtoG(M, r1);
          var c2 := MapPtoG(M, r2);
          if G[c1][c2] != 1 {
            return false;
          }
        }
        r2 := r2 + 1;
      }
      r1 := r1 + 1;
    }
    return true;
  }

  /** The matrix of an in-range assignment is committed, and mapPtoG reads f back from it. */
  lemma MapPtoGOfMatrixOf(f: Assignment, n: nat)
    requires InRange(f, n)
    ensures Committed(MatrixOf(f, n), n)
    ensures forall p :: 0 <= p < |f| ==> MapPtoG(MatrixOf(f, n), p) == f[p]
  {
    var M := MatrixOf(f, n);
    forall r | 0 <= r < |M|
      ensures |M[r]| == n && HasOne(M[r])
    {
      assert M[r][f[r]] == 1;
    }
  }

  /** isIso on the matrix of f accepts exactly when f preserves every pattern edge. */
  lemma EdgesPreservedIffPreserves(f: Assignment, G: Matrix, P: Matrix)
    requires IsSquare(G) && IsSquare(P) && |f| == |P| && InRange(f, |G|)
    ensures Committed(MatrixOf(f, |G|), |G|)
    ensures EdgesPreserved(MatrixOf(f, |G|), G, P) <==> Preserves(f, G, P)
  {
    MapPtoGOfMatrixOf(f, |G|);
  }

  /**
   * The morphism matrix of an injective assignment is what the source returns:
   * every row sums to 1 and no column is the committed column of two rows.
   */
  lemma MorphismShape(f: Assignment, n: nat)
    requires InRange(f, n) && Injective(f)
    ensures Committed(MatrixOf(f, n), n)
    ensures forall i :: 0 <= i < |f| ==> ArraySum(MatrixOf(f, n)[i]) == 1
    ensures forall i, j :: 0 <= i < |f| && 0 <= j < |f| && i != j ==>
      MapPtoG(MatrixOf(f, n), i) != MapPtoG(MatrixOf(f, n), j)
  {
    MapPtoGOfMatrixOf(f, n);
    forall i | 0 <= i < |f|
      ensures ArraySum(MatrixOf(f, n)[i]) == 1
    {
      OneHotSum(f[i], n);
    }
  }
}

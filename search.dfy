/**
 * The backtracking engine of index.js (recurse) and the pure specification
 * of what it produces: the complete assignments allowed by the candidate
 * matrix that pass the verifier, in the order the search reaches them.
 */
module Search {
  import opened Wrappers
  import opened Matrices
  import opened Verifier

  /** Square graphs and a |P| x |G| candidate matrix M0. */
  predicate Shaped(G: Matrix, P: Matrix, M0: Matrix)
  {
    IsSquare(G) && IsSquare(P) && |M0| == |P| && forall i :: 0 <= i < |M0| ==> |M0[i]| == |G|
  }

  /** Column c is unused by the partial assignment pre and a candidate for its next row. */
  predicate Eligible(G: Matrix, P: Matrix, M0: Matrix, pre: Assignment, c: nat)
    requires Shaped(G, P, M0) && |pre| < |P| && c < |G|
  {
    c !in pre && M0[|pre|][c] == 1
  }

  /**
   * The complete assignments the search reports below the partial assignment
   * pre: at a full assignment, itself if it passes the verifier; otherwise the
   * extensions through every eligible column, columns in ascending order.
   */
  function Solutions(G: Matrix, P: Matrix, M0: Matrix, pre: Assignment): seq<Assignment>
    requires Shaped(G, P, M0) && |pre| <= |P| && InRange(pre, |G|)
    decreases |P| - |pre|, |G| + 1
  {
    if |pre| == |P| then
      (if Preserves(pre, G, P) then [pre] else [])
    else
      SolutionsBelow(G, P, M0, pre, |G|)
  }

  /** The extensions of pre through the eligible columns below c, in ascending order. */
  function SolutionsBelow(G: Matrix, P: Matrix, M0: Matrix, pre: Assignment, c: nat): seq<Assignment>
    requires Shaped(G, P, M0) && |pre| < |P| && InRange(pre, |G|) && c <= |G|
    decreases |P| - |pre|, c
  {
    if c == 0 then []
    else
      SolutionsBelow(G, P, M0, pre, c - 1) +
      Branch(G, P, M0, pre, c - 1)
  }

  /** The morphism matrices of a list of assignments. */
  function Morphisms(fs: seq<Assignment>, n: nat): seq<Matrix>
  {
    seq(|fs|, i requires 0 <= i < |fs| => MatrixOf(fs[i], n))
  }

  lemma MorphismsAppend(A: seq<Assignment>, B: seq<Assignment>, n: nat)
    ensures Morphisms(A + B, n) == Morphisms(A, n) + Morphisms(B, n)
  {
    assert forall i :: 0 <= i < |A + B| ==> Morphisms(A + B, n)[i] == (Morphisms(A, n) + Morphisms(B, n))[i];
  }

  /**
   * What an accumulator that already holds `have` results keeps of s under the
   * cap: all of s without a cap, else as much of s as fits below the cap.
   */
  function Capped<T>(s: seq<T>, cap: Option<nat>, have: nat): seq<T>
  {
    match cap
    case None => s
    case Some(k) => if have < k then s[..Min(|s|, k - have)] else []
  }

  /** Capping a concatenation caps the first part, then the second with the room that is left. */
  lemma CappedAppend<T>(X: seq<T>, Y: seq<T>, cap: Option<nat>, have: nat)
    ensures Capped(X + Y, cap, have) == Capped(X, cap, have) + Capped(Y, cap, have + |Capped(X, cap, have)|)
  {
    if cap.Some? && have < cap.value {
      var k := cap.value;
      if |X| >= k - have {
        assert (X + Y)[..k - have] == X[..k - have];
      } else {
        assert (X + Y)[..Min(|X + Y|, k - have)] == X + Y[..Min(|Y|, k - have - |X|)];
      }
    }
  }

  /** A cell of the working matrix: committed rows are one-hot at pre, the others are M0's. */
  function Cell(M0: Matrix, pre: Assignment, i: nat, j: nat): int
    requires i < |M0| && j < |M0[i]|
  {
    if i < |pre| then (if j == pre[i] then 1 else 0) else M0[i][j]
  }

  /** The working matrix M holds M0 with the rows of pre committed. */
  ghost predicate Holds(M: array2<int>, M0: Matrix, pre: Assignment)
    reads M
    requires |M0| == M.Length0 && forall i :: 0 <= i < |M0| ==> |M0[i]| == M.Length1
  {
    forall i, j :: 0 <= i < M.Length0 && 0 <= j < M.Length1 ==> M[i, j] == Cell(M0, pre, i, j)
  }

  /** used marks exactly the columns of pre. */
  ghost predicate Marks(used: array<bool>, pre: Assignment)
    reads used
  {
    forall c :: 0 <= c < used.Length ==> (used[c] <==> c in pre)
  }

  /** A copy whose other rows hold pre and whose row |pre| is one-hot at c holds pre + [c]. */
  lemma CommitHolds(Mp: array2<int>, M0: Matrix, pre: Assignment, c: nat)
    requires |M0| == Mp.Length0 && forall i :: 0 <= i < |M0| ==> |M0[i]| == Mp.Length1
    requires |pre| < Mp.Length0
    requires forall i, j :: 0 <= i < Mp.Length0 && 0 <= j < Mp.Length1 && i != |pre| ==> Mp[i, j] == Cell(M0, pre, i, j)
    requires forall j :: 0 <= j < Mp.Length1 ==> Mp[|pre|, j] == if j == c then 1 else 0
    ensures Holds(Mp, M0, pre + [c])
  {
  }

  /** Once the accumulator has reached the cap, nothing more is let in. */
  lemma CappedFull<T>(s: seq<T>, num: Option<nat>, have: nat)
    requires num.Some? && have >= num.value
    ensures Capped(s, num, have) == []
  {
  }

  /** A full assignment yields at most one morphism, so an accumulator below the cap takes it whole. */
  lemma LeafAtMostOne(G: Matrix, P: Matrix, M0: Matrix, pre: Assignment, n: nat)
    requires Shaped(G, P, M0) && |pre| == |P| && InRange(pre, |G|)
    ensures |Morphisms(Solutions(G, P, M0, pre), n)| <= 1
    ensures forall num: Option<nat>, have: nat :: num.None? || have < num.value ==>
      Capped(Morphisms(Solutions(G, P, M0, pre), n), num, have) == Morphisms(Solutions(G, P, M0, pre), n)
  {
  }

  /** The branch of the search through column c at row |pre|. */
  function Branch(G: Matrix, P: Matrix, M0: Matrix, pre: Assignment, c: nat): seq<Assignment>
    requires Shaped(G, P, M0) && |pre| < |P| && InRange(pre, |G|) && c < |G|
    decreases |P| - |pre|, c
  {
    if Eligible(G, P, M0, pre, c) then Solutions(G, P, M0, pre + [c]) else []
  }

  /** The solutions below c + 1, as morphisms: those below c, then the branch through c. */
  lemma BelowStep(G: Matrix, P: Matrix, M0: Matrix, pre: Assignment, c: nat, n: nat)
    requires Shaped(G, P, M0) && |pre| < |P| && InRange(pre, |G|) && c < |G|
    ensures Morphisms(SolutionsBelow(G, P, M0, pre, c + 1), n) ==
      Morphisms(SolutionsBelow(G, P, M0, pre, c), n) + Morphisms(Branch(G, P, M0, pre, c), n)
  {
    var X, Y := SolutionsBelow(G, P, M0, pre, c), Branch(G, P, M0, pre, c);
    assert SolutionsBelow(G, P, M0, pre, c + 1) == X + Y;
    MorphismsAppend(X, Y, n);
  }

  /** An accumulator that took in X under the cap, then Y, has taken in X + Y under the cap. */
  lemma Accumulate<T>(out: seq<T>, prior: seq<T>, res: seq<T>, X: seq<T>, Y: seq<T>, num: Option<nat>)
    requires prior == out + Capped(X, num, |out|)
    requires res == prior + Capped(Y, num, |prior|)
    ensures res == out + Capped(X + Y, num, |out|)
  {
    var cx := Capped(X, num, |out|);
    var cy := Capped(Y, num, |prior|);
    assert |prior| == |out| + |cx|;
    CappedAppend(X, Y, num, |out|);
    assert res == (out + cx) + cy == out + (cx + cy);
  }

  /** One column of recurse's loop keeps the accumulator equal to the capped solutions below the next column. */
  lemma LoopStep(G: Matrix, P: Matrix, M0: Matrix, pre: Assignment, c: nat, n: nat, num: Option<nat>,
                 out: seq<Matrix>, prior: seq<Matrix>, res: seq<Matrix>)
    requires Shaped(G, P, M0) && |pre| < |P| && InRange(pre, |G|) && c < |G|
    requires prior == out + Capped(Morphisms(SolutionsBelow(G, P, M0, pre, c), n), num, |out|)
    requires res == prior + Capped(Morphisms(Branch(G, P, M0, pre, c), n), num, |prior|)
    ensures res == out + Capped(Morphisms(SolutionsBelow(G, P, M0, pre, c + 1), n), num, |out|)
  {
    BelowStep(G, P, M0, pre, c, n);
    Accumulate(out, prior, res, Morphisms(SolutionsBelow(G, P, M0, pre, c), n), Morphisms(Branch(G, P, M0, pre, c), n), num);
  }

  /** The inner loop of recurse: row `row` of Mp becomes one-hot at column c. */
  method CommitRow(Mp: array2<int>, row: nat, c: nat)
    requires row < Mp.Length0
    modifies Mp
    ensures forall i, j :: 0 <= i < Mp.Length0 && 0 <= j < Mp.Length1 ==>
      Mp[i, j] == if i == row then (if j == c then 1 else 0) else old(Mp[i, j])
  {
    for i := 0 to Mp.Length1
      invariant forall r, j :: 0 <= r < Mp.Length0 && 0 <= j < Mp.Length1 ==>
        Mp[r, j] == if r == row && j < i then (if j == c then 1 else 0) else old(Mp[r, j])
    {
      if i == c {
        Mp[row, i] := 1;
      } else {
        Mp[row, i] := 0;
      }
    }
  }

  /**
   * The terminal state of recurse: every row is committed, so M is the
   * morphism matrix of pre; a copy of it is pushed exactly when isIso accepts.
   */
  method Leaf(G: Matrix, P: Matrix, M: array2<int>, out: seq<Matrix>, ghost M0: Matrix, ghost pre: Assignment)
    returns (res: seq<Matrix>)
    requires Shaped(G, P, M0)
    requires M.Length0 == |P| && M.Length1 == |G|
    requires |pre| == |P| && InRange(pre, |G|)
    requires Holds(M, M0, pre)
    ensures res == out + Morphisms(Solutions(G, P, M0, pre), |G|)
  {
    SnapshotIs(M, MatrixOf(pre, M.Length1));
    EdgesPreservedIffPreserves(pre, G, P);
    var iso := IsIso(Snapshot(M), G, P);
    if iso {
      res := out + [Snapshot(M)];
    } else {
      res := out;
    }
  }

  /**
   * recurse: M holds M0 with the rows of pre committed, and used marks exactly
   * the columns of pre. At a full assignment the verifier decides whether a
   * copy is pushed; otherwise every column is tried, in ascending order, on
   * one copy Mp of M. The accumulator gains the reported assignments as far as
   * the cap lets descents happen, used is restored, and M is left untouched.
   */
  method Recurse(used: array<bool>, row: nat, G: Matrix, P: Matrix, M: array2<int>,
                 out: seq<Matrix>, num: Option<nat>, ghost M0: Matrix, ghost pre: Assignment)
    returns (res: seq<Matrix>)
    requires Shaped(G, P, M0)
    requires M.Length0 == |P| && M.Length0 > 0 && M.Length1 == |G| && used.Length == |G|
    requires row == |pre| <= |P| && InRange(pre, |G|)
    requires Marks(used, pre)
    requires Holds(M, M0, pre)
    modifies used
    ensures used[..] == old(used[..])
    ensures unchanged(M)
    ensures row == |P| ==> res == out + Morphisms(Solutions(G, P, M0, pre), |G|)
    ensures row < |P| ==> res == out + Capped(Morphisms(Solutions(G, P, M0, pre), |G|), num, |out|)
    decreases |P| - row, 1
  {
    var cols := M.Length1;
    if row == M.Length0 {
      res := Leaf(G, P, M, out, M0, pre);
    } else {
      ghost var before := used[..];
      var Mp := Array2DCopy(M);
      res := out;
      var c: nat := 0;
      while c < cols
        invariant c <= cols
        invariant Mp.Length0 == M.Length0 && Mp.Length1 == cols
        invariant forall i, j :: 0 <= i < Mp.Length0 && 0 <= j < cols && i != row ==> Mp[i, j] == Cell(M0, pre, i, j)
        invariant used[..] == before
        invariant Marks(used, pre)
        invariant res == out + Capped(Morphisms(SolutionsBelow(G, P, M0, pre, c), cols), num, |out|)
      {
        ghost var prior := res;
        res := TryColumn(used, row, c, G, P, M, Mp, res, num, M0, pre);
        LoopStep(G, P, M0, pre, c, cols, num, out, prior, res);
        c := c + 1;
      }
    }
  }

  /**
   * One iteration of recurse's column loop: if column c is unused and a
   * candidate for this row, commit row `row` of Mp to c, mark c, descend while
   * the cap allows, and unmark c. The accumulator gains the branch through c
   * as far as the cap lets it in; used is as before; only row `row` of Mp changes.
   */
  method TryColumn(used: array<bool>, row: nat, c: nat, G: Matrix, P: Matrix, M: array2<int>, Mp: array2<int>,
                   out: seq<Matrix>, num: Option<nat>, ghost M0: Matrix, ghost pre: Assignment)
    returns (res: seq<Matrix>)
    requires Shaped(G, P, M0)
    requires M.Length0 == |P| && M.Length1 == |G| && used.Length == |G|
    requires Mp.Length0 == |P| && Mp.Length1 == |G| && Mp != M
    requires row == |pre| < |P| && InRange(pre, |G|) && c < |G|
    requires Marks(used, pre)
    requires Holds(M, M0, pre)
    requires forall i, j :: 0 <= i < Mp.Length0 && 0 <= j < Mp.Length1 && i != row ==> Mp[i, j] == Cell(M0, pre, i, j)
    modifies used, Mp
    ensures used[..] == old(used[..])
    ensures forall i, j :: 0 <= i < Mp.Length0 && 0 <= j < Mp.Length1 && i != row ==> Mp[i, j] == Cell(M0, pre, i, j)
    ensures forall j :: 0 <= j < Mp.Length1 ==>
      Mp[row, j] == if old(!used[c]) && M[row, c] == 1 then (if j == c then 1 else 0) else old(Mp[row, j])
    ensures res == out + Capped(Morphisms(Branch(G, P, M0, pre, c), |G|), num, |out|)
    decreases |P| - row, 0
  {
    ghost var ext: Assignment := pre + [c];
    ghost var branch := Morphisms(Branch(G, P, M0, pre, c), |G|);
    res := out;
    if !used[c] && M[row, c] == 1 {
      CommitRow(Mp, row, c);
      CommitHolds(Mp, M0, pre, c);
      used[c] := true;
      assert Marks(used, ext);
      if num.None? || |out| < num.value {
        res := Recurse(used, row + 1, G, P, Mp, out, num, M0, ext);
        if row + 1 == |P| {
          LeafAtMostOne(G, P, M0, ext, |G|);
        }
      } else {
        CappedFull(branch, num, |out|);
      }
      used[c] := false;
    } else {
      assert branch == [];
    }
  }
}

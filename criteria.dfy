/**
 * The compatibility predicate and the candidate-matrix builder of index.js.
 * A criterion decides whether pattern vertex p may map to host vertex g; the
 * default, degreeCriteria, compares out-degrees.
 */
module Criteria {
  import opened Wrappers
  import opened Matrices
  import opened Verifier

  /** (pattern, host, pattern vertex, host vertex) -> may they be paired? */
  type Criterion = (Matrix, Matrix, nat, nat) --> bool

  /** degreeCriteria: p's out-degree is at most g's (both rows summed by arraySum). */
  function DegreeCriteria(P: Matrix, G: Matrix, p: nat, g: nat): (r: bool)
    requires p < |P| && g < |G| && |P[p]| > 0 && |G[g]| > 0
    ensures IsBinaryRow(P[p]) && IsBinaryRow(G[g]) ==> (r <==> |Ones(P[p])| <= |Ones(G[g])|)
  {
    ArraySumCountsOnes(P[p]);
    ArraySumCountsOnes(G[g]);
    ArraySum(P[p]) <= ArraySum(G[g])
  }

  /** The criterion can be asked about every pairing; without one, degreeCriteria needs non-empty rows. */
  ghost predicate Admissible(criteriaFun: Option<Criterion>, G: Matrix, P: Matrix)
  {
    match criteriaFun
    case Some(crit) =>
      forall i: nat, j: nat :: i < |P| && j < |G| ==> crit.requires(P, G, i, j)
    case None =>
      (forall i :: 0 <= i < |P| ==> |P[i]| > 0) && (forall j :: 0 <= j < |G| ==> |G[j]| > 0)
  }

  /** The criterion in force: the one given, or degreeCriteria when none is. */
  function Allows(criteriaFun: Option<Criterion>, G: Matrix, P: Matrix, i: nat, j: nat): bool
    requires Admissible(criteriaFun, G, P) && i < |P| && j < |G|
  {
    match criteriaFun
    case Some(crit) => crit(P, G, i, j)
    case None => DegreeCriteria(P, G, i, j)
  }

  /** The candidate matrix as a value: |P| rows of |G| cells, 1 exactly where the criterion allows. */
  function Candidates(G: Matrix, P: Matrix, criteriaFun: Option<Criterion>): (M0: Matrix)
    requires Admissible(criteriaFun, G, P)
    ensures |M0| == |P|
    ensures forall i :: 0 <= i < |P| ==> |M0[i]| == |G|
    ensures forall i, j :: 0 <= i < |P| && 0 <= j < |G| ==>
      (M0[i][j] == 1 <==> Allows(criteriaFun, G, P, i, j)) && (M0[i][j] == 0 <==> !Allows(criteriaFun, G, P, i, j))
  {
    seq(|P|, i requires 0 <= i < |P| =>
      seq(|G|, j requires 0 <= j < |G| => if Allows(criteriaFun, G, P, i, j) then 1 else 0))
  }

  /** initMorphism: a zero |P| x |G| matrix, then a 1 written wherever the criterion allows. */
  method InitMorphism(G: Matrix, P: Matrix, criteriaFun: Option<Criterion>) returns (M: array2<int>)
    requires Admissible(criteriaFun, G, P)
    ensures fresh(M)
    ensures M.Length0 == |P| && M.Length1 == |G|
    ensures forall i, j :: 0 <= i < |P| && 0 <= j < |G| ==> M[i, j] == Candidates(G, P, criteriaFun)[i][j]
  {
    var pSize := |P|;
    var gSize := |G|;
    M := new int[pSize, gSize]((_, _) => 0);
    for i := 0 to pSize
      invariant forall r, c :: 0 <= r < pSize && 0 <= c < gSize ==>
        M[r, c] == if r < i && Allows(criteriaFun, G, P, r, c) then 1 else 0
    {
      for j := 0 to gSize
        invariant forall r, c :: 0 <= r < pSize && 0 <= c < gSize ==>
          M[r, c] == if (r < i || (r == i && c < j)) && Allows(criteriaFun, G, P, r, c) then 1 else 0
      {
        if Allows(criteriaFun, G, P, i, j) {
          M[i, j] := 1;
        }
      }
    }
  }

  /** The image of a set of pattern vertices under an injective assignment has the same size. */
  lemma {:induction false} InjectiveImageSize(S: set<nat>, f: Assignment)
    requires forall j :: j in S ==> j < |f|
    requires Injective(f)
    ensures |set j | j in S :: f[j]| == |S|
    decreases |S|
  {
    if S != {} {
      var x :| x in S;
      var rest := S - {x};
      InjectiveImageSize(rest, f);
      var image := set j | j in S :: f[j];
      var restImage := set j | j in rest :: f[j];
      assert image == restImage + {f[x]};
      assert f[x] !in restImage;
    }
  }

  lemma SubsetSize(A: set<nat>, B: set<nat>)
    requires A <= B
    ensures |A| <= |B|
  {
    assert B == A + (B - A);
  }

  /**
   * Degree pruning loses no embedding: on 0/1 graphs, a monomorphism sends
   * every pattern vertex to a host vertex of at least the same out-degree.
   */
  lemma DegreePruningIsSafe(G: Matrix, P: Matrix, f: Assignment, p: nat)
    requires IsSquare(G) && IsSquare(P) && IsBinary(G) && IsBinary(P)
    requires IsMonomorphism(f, G, P) && p < |P|
    ensures |P[p]| > 0 && |G[f[p]]| > 0
    ensures DegreeCriteria(P, G, p, f[p])
  {
    var row, hostRow := P[p], G[f[p]];
    ArraySumCountsOnes(row);
    ArraySumCountsOnes(hostRow);
    var S := Ones(row);
    InjectiveImageSize(S, f);
    var image := set j | j in S :: f[j];
    assert image <= Ones(hostRow);
    SubsetSize(image, Ones(hostRow));
  }

  /** With the default criterion, every monomorphism is allowed by the candidate matrix. */
  lemma DefaultCandidatesKeepMonomorphisms(G: Matrix, P: Matrix, f: Assignment)
    requires IsSquare(G) && IsSquare(P) && IsBinary(G) && IsBinary(P) && |P| > 0
    requires IsMonomorphism(f, G, P)
    ensures Admissible(None, G, P)
    ensures forall i :: 0 <= i < |P| ==> Candidates(G, P, None)[i][f[i]] == 1
  {
    assert |G| > 0 by { assert f[0] < |G|; }
    forall i | 0 <= i < |P|
      ensures Candidates(G, P, None)[i][f[i]] == 1
    {
      DegreePruningIsSafe(G, P, f, i);
    }
  }
}

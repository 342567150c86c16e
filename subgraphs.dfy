/**
 * The entry point of index.js, getIsomorphicSubgraphs, and what it promises
 * about the list of morphism matrices it returns.
 */
module Subgraphs {
  import opened Wrappers
  import opened Matrices
  import opened Verifier
  import opened Criteria
  import opened Search
  import opened SearchFacts

  /** The list of morphism matrices, or the error the source signals with null. */
  datatype SearchResult = Embeddings(morphisms: seq<Matrix>) | ShapeError

  /** The call gets past the early exits and runs the search. */
  predicate Proceeds(G: Matrix, P: Matrix, maxNum: Option<int>)
  {
    |P| <= |G| && !(maxNum.Some? && maxNum.value <= 0) && IsSquare(G) && IsSquare(P)
  }

  /** With the default criterion every row of a square, non-empty pattern and host has a degree. */
  lemma DefaultAdmissible(G: Matrix, P: Matrix)
    requires IsSquare(G) && IsSquare(P) && 0 < |P| <= |G|
    ensures Admissible(None, G, P)
  {
    forall i | 0 <= i < |P| ensures |P[i]| > 0 { assert |P[i]| == |P|; }
    forall j | 0 <= j < |G| ensures |G[j]| > 0 { assert |G[j]| == |G|; }
  }

  /** Every morphism matrix the search finds when nothing caps it, in order. */
  function AllEmbeddings(G: Matrix, P: Matrix, criteriaFun: Option<Criterion>): seq<Matrix>
    requires IsSquare(G) && IsSquare(P) && Admissible(criteriaFun, G, P)
  {
    Morphisms(Solutions(G, P, Candidates(G, P, criteriaFun), []), |G|)
  }

  method GetIsomorphicSubgraphs(G: Matrix, P: Matrix, maxNum: Option<int>, similarityCriteria: Option<Criterion>)
    returns (r: SearchResult)
    requires |P| == 0 ==> (maxNum.Some? && maxNum.value <= 0) || !IsSquare(G)
    requires Proceeds(G, P, maxNum) && similarityCriteria.Some? ==> Admissible(similarityCriteria, G, P)
    ensures |G| < |P| ==> r == Embeddings([])
    ensures |P| <= |G| && maxNum.Some? && maxNum.value <= 0 ==> r == Embeddings([])
    ensures |P| <= |G| && !(maxNum.Some? && maxNum.value <= 0) && !(IsSquare(G) && IsSquare(P)) ==> r == ShapeError
    ensures Proceeds(G, P, maxNum) ==>
      Admissible(similarityCriteria, G, P) && r.Embeddings? && r.morphisms <= AllEmbeddings(G, P, similarityCriteria)
    ensures Proceeds(G, P, maxNum) && maxNum.None? ==> r.morphisms == AllEmbeddings(G, P, similarityCriteria)
    ensures Proceeds(G, P, maxNum) && maxNum.Some? ==>
      |r.morphisms| == Min(maxNum.value, |AllEmbeddings(G, P, similarityCriteria)|)
  {
    if |G| < |P| {
      return Embeddings([]);
    }
    if maxNum.Some? && maxNum.value <= 0 {
      return Embeddings([]);
    }
    var squareG := CheckSquareMatrix(G);
    if !squareG {
      return ShapeError;
    }
    var squareP := CheckSquareMatrix(P);
    if !squareP {
      return ShapeError;
    }
    if similarityCriteria.None? {
      DefaultAdmissible(G, P);
    }
    var cap: Option<nat> := if maxNum.Some? then Some(maxNum.value as nat) else None;
    ghost var M0 := Candidates(G, P, similarityCriteria);
    var M := InitMorphism(G, P, similarityCriteria);
    assert Holds(M, M0, []);
    var used := new bool[|G|](_ => false);
    assert Marks(used, []);
    var results := Recurse(used, 0, G, P, M, [], cap, M0, []);
    return Embeddings(results);
  }

  /**
   * The search reports exactly the monomorphisms of P into G whose every
   * vertex pair the criterion accepts.
   */
  lemma FindsExactlyTheAllowedMonomorphisms(G: Matrix, P: Matrix, criteriaFun: Option<Criterion>, f: Assignment)
    requires IsSquare(G) && IsSquare(P) && Admissible(criteriaFun, G, P)
    ensures f in Solutions(G, P, Candidates(G, P, criteriaFun), []) <==>
      IsMonomorphism(f, G, P) && forall i :: 0 <= i < |f| ==> Allows(criteriaFun, G, P, i, f[i])
  {
    var M0 := Candidates(G, P, criteriaFun);
    assert f[..0] == [];
    if f in Solutions(G, P, M0, []) {
      SolutionsSound(G, P, M0, [], f);
    }
    if IsMonomorphism(f, G, P) && forall i :: 0 <= i < |f| ==> Allows(criteriaFun, G, P, i, f[i]) {
      SolutionsComplete(G, P, M0, [], f);
    }
  }

  /**
   * Every matrix the search returns is a morphism matrix: one 1 per row, in
   * pairwise distinct columns, which the verifier accepts.
   */
  lemma EmbeddingsAreMorphismMatrices(G: Matrix, P: Matrix, criteriaFun: Option<Criterion>, k: nat)
    requires IsSquare(G) && IsSquare(P) && Admissible(criteriaFun, G, P)
    requires k < |AllEmbeddings(G, P, criteriaFun)|
    ensures var m := AllEmbeddings(G, P, criteriaFun)[k];
      |m| == |P| && Committed(m, |G|) && EdgesPreserved(m, G, P) &&
      (forall i :: 0 <= i < |m| ==> ArraySum(m[i]) == 1) &&
      (forall i, j :: 0 <= i < |m| && 0 <= j < |m| && i != j ==> MapPtoG(m, i) != MapPtoG(m, j)) &&
      (forall i, j :: 0 <= i < |m| && 0 <= j < |G| ==> m[i][j] == if j == MapPtoG(m, i) then 1 else 0)
  {
    var M0 := Candidates(G, P, criteriaFun);
    var f := Solutions(G, P, M0, [])[k];
    SolutionsSound(G, P, M0, [], f);
    MorphismShape(f, |G|);
    MapPtoGOfMatrixOf(f, |G|);
    EdgesPreservedIffPreserves(f, G, P);
  }

  /** The search reports its assignments in strictly increasing lexicographic order. */
  lemma EmbeddingsInLexOrder(G: Matrix, P: Matrix, criteriaFun: Option<Criterion>)
    requires IsSquare(G) && IsSquare(P) && Admissible(criteriaFun, G, P)
    ensures StrictlyIncreasing(Solutions(G, P, Candidates(G, P, criteriaFun), []))
  {
    SolutionsOrdered(G, P, Candidates(G, P, criteriaFun), []);
  }

  /**
   * For 0/1 adjacency matrices the default degree criterion prunes nothing:
   * the search reports every monomorphism of P into G.
   */
  lemma DefaultSearchFindsAllMonomorphisms(G: Matrix, P: Matrix, f: Assignment)
    requires IsSquare(G) && IsSquare(P) && IsBinary(G) && IsBinary(P) && 0 < |P| <= |G|
    ensures Admissible(None, G, P)
    ensures f in Solutions(G, P, Candidates(G, P, None), []) <==> IsMonomorphism(f, G, P)
  {
    DefaultAdmissible(G, P);
    FindsExactlyTheAllowedMonomorphisms(G, P, None, f);
    if IsMonomorphism(f, G, P) {
      DefaultCandidatesKeepMonomorphisms(G, P, f);
    }
  }
}

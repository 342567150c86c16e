/**
 * What the search specification promises: the assignments it reports are
 * exactly the injective, edge-preserving extensions that the candidate matrix
 * allows, and they come out in strictly increasing lexicographic order.
 */
module SearchFacts {
  import opened Matrices
  import opened Verifier
  import opened Search

  /** Every row from `from` on is sent to a column the candidate matrix allows. */
  ghost predicate AllowedFrom(M0: Matrix, f: Assignment, from: nat)
  {
    forall i :: from <= i < |f| ==> i < |M0| && f[i] < |M0[i]| && M0[i][f[i]] == 1
  }

  /** A reported assignment extends pre, is a monomorphism, and is allowed by M0 beyond pre. */
  lemma {:induction false} SolutionsSound(G: Matrix, P: Matrix, M0: Matrix, pre: Assignment, f: Assignment)
    requires Shaped(G, P, M0) && |pre| <= |P| && InRange(pre, |G|) && Injective(pre)
    requires f in Solutions(G, P, M0, pre)
    ensures |pre| <= |f| && f[..|pre|] == pre
    ensures IsMonomorphism(f, G, P) && AllowedFrom(M0, f, |pre|)
    decreases |P| - |pre|, |G| + 1
  {
    if |pre| == |P| {
      assert f == pre;
    } else {
      SolutionsBelowSound(G, P, M0, pre, |G|, f);
    }
  }

  lemma {:induction false} SolutionsBelowSound(G: Matrix, P: Matrix, M0: Matrix, pre: Assignment, c: nat, f: Assignment)
    requires Shaped(G, P, M0) && |pre| < |P| && InRange(pre, |G|) && Injective(pre) && c <= |G|
    requires f in SolutionsBelow(G, P, M0, pre, c)
    ensures |pre| < |f| && f[..|pre|] == pre && f[|pre|] < c
    ensures IsMonomorphism(f, G, P) && AllowedFrom(M0, f, |pre|)
    decreases |P| - |pre|, c
  {
    var earlier := SolutionsBelow(G, P, M0, pre, c - 1);
    if f in earlier {
      SolutionsBelowSound(G, P, M0, pre, c - 1, f);
    } else {
      var ext := pre + [c - 1];
      assert Eligible(G, P, M0, pre, c - 1);
      assert Injective(ext);
      SolutionsSound(G, P, M0, ext, f);
      assert f[..|pre|] == ext[..|pre|] == pre;
      assert f[|pre|] == ext[|pre|] == c - 1;
    }
  }

  /** Every monomorphism extending pre that M0 allows beyond pre is reported. */
  lemma {:induction false} SolutionsComplete(G: Matrix, P: Matrix, M0: Matrix, pre: Assignment, f: Assignment)
    requires Shaped(G, P, M0) && |pre| <= |P| && InRange(pre, |G|)
    requires IsMonomorphism(f, G, P) && f[..|pre|] == pre && AllowedFrom(M0, f, |pre|)
    ensures f in Solutions(G, P, M0, pre)
    decreases |P| - |pre|, |G| + 1
  {
    if |pre| == |P| {
      assert f == pre;
    } else {
      SolutionsBelowComplete(G, P, M0, pre, |G|, f);
    }
  }

  lemma {:induction false} SolutionsBelowComplete(G: Matrix, P: Matrix, M0: Matrix, pre: Assignment, c: nat, f: Assignment)
    requires Shaped(G, P, M0) && |pre| < |P| && InRange(pre, |G|) && c <= |G|
    requires IsMonomorphism(f, G, P) && f[..|pre|] == pre && AllowedFrom(M0, f, |pre|)
    requires f[|pre|] < c
    ensures f in SolutionsBelow(G, P, M0, pre, c)
    decreases |P| - |pre|, c
  {
    if f[|pre|] == c - 1 {
      BranchComplete(G, P, M0, pre, f);
    } else {
      SolutionsBelowComplete(G, P, M0, pre, c - 1, f);
    }
  }

  /** The branch through f's column for the next row contains f. */
  lemma {:induction false} BranchComplete(G: Matrix, P: Matrix, M0: Matrix, pre: Assignment, f: Assignment)
    requires Shaped(G, P, M0) && |pre| < |P| && InRange(pre, |G|)
    requires IsMonomorphism(f, G, P) && f[..|pre|] == pre && AllowedFrom(M0, f, |pre|)
    ensures f[|pre|] < |G| && f in Branch(G, P, M0, pre, f[|pre|])
    decreases |P| - |pre|, 0
  {
    var c := f[|pre|];
    var ext := pre + [c];
    assert f[..|ext|] == ext;
    assert c !in pre by {
      forall i | 0 <= i < |pre|
        ensures pre[i] != c
      {
        assert pre[i] == f[i];
      }
    }
    assert Eligible(G, P, M0, pre, c);
    SolutionsComplete(G, P, M0, ext, f);
  }

  /** a comes before b in lexicographic order: they agree up to some row, where a's column is smaller. */
  ghost predicate LexLess(a: Assignment, b: Assignment)
  {
    exists k :: 0 <= k < |a| && k < |b| && a[..k] == b[..k] && a[k] < b[k]
  }

  ghost predicate StrictlyIncreasing(s: seq<Assignment>)
  {
    forall i, j :: 0 <= i < j < |s| ==> LexLess(s[i], s[j])
  }

  lemma IncreasingConcat(A: seq<Assignment>, B: seq<Assignment>)
    requires StrictlyIncreasing(A) && StrictlyIncreasing(B)
    requires forall a, b :: a in A && b in B ==> LexLess(a, b)
    ensures StrictlyIncreasing(A + B)
  {
    forall i, j | 0 <= i < j < |A + B|
      ensures LexLess((A + B)[i], (A + B)[j])
    {
      if j < |A| {
        assert (A + B)[i] == A[i] && (A + B)[j] == A[j];
      } else if i >= |A| {
        assert (A + B)[i] == B[i - |A|] && (A + B)[j] == B[j - |A|];
      } else {
        assert (A + B)[i] in A && (A + B)[j] in B;
      }
    }
  }

  /** The reported assignments come out in strictly increasing lexicographic order. */
  lemma {:induction false} SolutionsOrdered(G: Matrix, P: Matrix, M0: Matrix, pre: Assignment)
    requires Shaped(G, P, M0) && |pre| <= |P| && InRange(pre, |G|) && Injective(pre)
    ensures StrictlyIncreasing(Solutions(G, P, M0, pre))
    decreases |P| - |pre|, |G| + 1
  {
    if |pre| < |P| {
      SolutionsBelowOrdered(G, P, M0, pre, |G|);
    }
  }

  lemma {:induction false} SolutionsBelowOrdered(G: Matrix, P: Matrix, M0: Matrix, pre: Assignment, c: nat)
    requires Shaped(G, P, M0) && |pre| < |P| && InRange(pre, |G|) && Injective(pre) && c <= |G|
    ensures StrictlyIncreasing(SolutionsBelow(G, P, M0, pre, c))
    decreases |P| - |pre|, c
  {
    if c > 0 {
      var A, B := SolutionsBelow(G, P, M0, pre, c - 1), Branch(G, P, M0, pre, c - 1);
      SolutionsBelowOrdered(G, P, M0, pre, c - 1);
      if Eligible(G, P, M0, pre, c - 1) {
        var ext := pre + [c - 1];
        assert Injective(ext);
        SolutionsOrdered(G, P, M0, ext);
        forall a, b | a in A && b in B
          ensures LexLess(a, b)
        {
          SolutionsBelowSound(G, P, M0, pre, c - 1, a);
          SolutionsSound(G, P, M0, ext, b);
          assert b[..|pre|] == ext[..|pre|] == pre;
          assert b[|pre|] == ext[|pre|] == c - 1;
          assert a[..|pre|] == b[..|pre|] && a[|pre|] < b[|pre|];
        }
        IncreasingConcat(A, B);
      } else {
        assert A + B == A;
      }
    }
  }
}

/**
 * The scenarios of the package's unit tests (test/test.js), worked through the
 * model: the candidate matrix, the search tree node by node, and the result of
 * getIsomorphicSubgraphs.
 */
module Scenarios {
  import opened Wrappers
  import opened Matrices
  import opened Verifier
  import opened Criteria
  import opened Search
  import opened Subgraphs

  /** The host of the first tests: 0 -> 1, 1 -> 2, 1 -> 3, 2 -> 3. */
  const G1: Matrix := [[0, 1, 0, 0], [0, 0, 1, 1], [0, 0, 0, 1], [0, 0, 0, 0]]
  /** G1 with the extra edge 0 -> 3. */
  const G2: Matrix := [[0, 1, 0, 1], [0, 0, 1, 1], [0, 0, 0, 1], [0, 0, 0, 0]]
  /** The transitive triangle 0 -> 1, 0 -> 2, 1 -> 2. */
  const P1: Matrix := [[0, 1, 1], [0, 0, 1], [0, 0, 0]]
  /** The path 0 -> 1 -> 2. */
  const Path: Matrix := [[0, 1, 0], [0, 0, 1], [0, 0, 0]]
  /** Three vertices and no edges. */
  const NoEdges: Matrix := [[0, 0, 0], [0, 0, 0], [0, 0, 0]]
  /** The directed cycle 0 -> 1 -> 2 -> 0. */
  const Triangle: Matrix := [[0, 1, 0], [0, 0, 1], [1, 0, 0]]

  /** The degree-criterion candidate matrices of the scenarios. */
  const SingleM0: Matrix := [[0, 1, 0, 0], [1, 1, 1, 0], [1, 1, 1, 1]]
  const DoubleM0: Matrix := [[1, 1, 0, 0], [1, 1, 1, 0], [1, 1, 1, 1]]
  const PathM0: Matrix := [[1, 1, 0], [1, 1, 0], [1, 1, 1]]
  const NoEdgesM0: Matrix := [[0, 0, 0], [0, 0, 0], [1, 1, 1]]
  const TriangleM0: Matrix := [[1, 1, 1], [1, 1, 1], [1, 1, 1]]

  /** arraySum of a three-cell row. */
  lemma Sum3(v: seq<int>)
    requires |v| == 3
    ensures ArraySum(v) == v[0] + v[1] + v[2]
  {
    assert v[..2][..1] == [v[0]];
    assert ArraySum(v[..2]) == v[0] + v[1];
  }

  /** arraySum of a four-cell row. */
  lemma Sum4(v: seq<int>)
    requires |v| == 4
    ensures ArraySum(v) == v[0] + v[1] + v[2] + v[3]
  {
    Sum3(v[..3]);
  }

  /** A column the next row may take: its branch is the search below the extended assignment. */
  lemma Take(G: Matrix, P: Matrix, M0: Matrix, pre: Assignment, c: nat, ext: Assignment)
    requires Shaped(G, P, M0) && |pre| < |P| && InRange(pre, |G|) && c < |G|
    requires Eligible(G, P, M0, pre, c) && ext == pre + [c]
    ensures InRange(ext, |G|) && Branch(G, P, M0, pre, c) == Solutions(G, P, M0, ext)
  {
  }

  /** A column already used, or not a candidate: its branch is empty. */
  lemma Skip(G: Matrix, P: Matrix, M0: Matrix, pre: Assignment, c: nat)
    requires Shaped(G, P, M0) && |pre| < |P| && InRange(pre, |G|) && c < |G|
    requires !Eligible(G, P, M0, pre, c)
    ensures Branch(G, P, M0, pre, c) == []
  {
  }

  /** A full assignment of a three-vertex pattern that keeps each of its edges is reported. */
  lemma Accept(G: Matrix, P: Matrix, M0: Matrix, f: Assignment)
    requires Shaped(G, P, M0) && |P| == 3 && |f| == 3 && InRange(f, |G|)
    requires P[0][0] == 1 ==> G[f[0]][f[0]] == 1
    requires P[0][1] == 1 ==> G[f[0]][f[1]] == 1
    requires P[0][2] == 1 ==> G[f[0]][f[2]] == 1
    requires P[1][0] == 1 ==> G[f[1]][f[0]] == 1
    requires P[1][1] == 1 ==> G[f[1]][f[1]] == 1
    requires P[1][2] == 1 ==> G[f[1]][f[2]] == 1
    requires P[2][0] == 1 ==> G[f[2]][f[0]] == 1
    requires P[2][1] == 1 ==> G[f[2]][f[1]] == 1
    requires P[2][2] == 1 ==> G[f[2]][f[2]] == 1
    ensures Solutions(G, P, M0, f) == [f]
  {
    forall r1, r2 | 0 <= r1 < 3 && 0 <= r2 < 3 && P[r1][r2] == 1
      ensures G[f[r1]][f[r2]] == 1
    {
      assert r1 == 0 || r1 == 1 || r1 == 2;
      assert r2 == 0 || r2 == 1 || r2 == 2;
    }
  }

  /** A full assignment that drops the pattern edge (r1, r2) is not reported. */
  lemma Reject(G: Matrix, P: Matrix, M0: Matrix, f: Assignment, r1: nat, r2: nat)
    requires Shaped(G, P, M0) && |f| == |P| && InRange(f, |G|)
    requires r1 < |P| && r2 < |P| && P[r1][r2] == 1 && G[f[r1]][f[r2]] != 1
    ensures Solutions(G, P, M0, f) == []
  {
  }

  /** Over a three-vertex host, an inner node of the search is its three branches in column order. */
  lemma ThreeBranches(G: Matrix, P: Matrix, M0: Matrix, pre: Assignment)
    requires Shaped(G, P, M0) && |G| == 3 && |pre| < |P| && InRange(pre, 3)
    ensures Solutions(G, P, M0, pre) == Branch(G, P, M0, pre, 0) + Branch(G, P, M0, pre, 1) + Branch(G, P, M0, pre, 2)
  {
    var B0, B1, B2 := Branch(G, P, M0, pre, 0), Branch(G, P, M0, pre, 1), Branch(G, P, M0, pre, 2);
    assert SolutionsBelow(G, P, M0, pre, 1) == [] + B0 == B0;
    assert SolutionsBelow(G, P, M0, pre, 2) == B0 + B1;
    assert SolutionsBelow(G, P, M0, pre, 3) == B0 + B1 + B2;
  }

  /** Over a four-vertex host, an inner node of the search is its four branches in column order. */
  lemma FourBranches(G: Matrix, P: Matrix, M0: Matrix, pre: Assignment)
    requires Shaped(G, P, M0) && |G| == 4 && |pre| < |P| && InRange(pre, 4)
    ensures Solutions(G, P, M0, pre) ==
      Branch(G, P, M0, pre, 0) + Branch(G, P, M0, pre, 1) + Branch(G, P, M0, pre, 2) + Branch(G, P, M0, pre, 3)
  {
    var B0, B1, B2, B3 := Branch(G, P, M0, pre, 0), Branch(G, P, M0, pre, 1), Branch(G, P, M0, pre, 2), Branch(G, P, M0, pre, 3);
    assert SolutionsBelow(G, P, M0, pre, 1) == [] + B0 == B0;
    assert SolutionsBelow(G, P, M0, pre, 2) == B0 + B1;
    assert SolutionsBelow(G, P, M0, pre, 3) == B0 + B1 + B2;
    assert SolutionsBelow(G, P, M0, pre, 4) == B0 + B1 + B2 + B3;
  }

  /** G1 and P1 under the default degree criterion. */
  lemma SingleCandidates()
    ensures Admissible(None, G1, P1)
    ensures Candidates(G1, P1, None) == SingleM0
  {
    DefaultAdmissible(G1, P1);
    var M0 := Candidates(G1, P1, None);
    Sum3(P1[0]); Sum3(P1[1]); Sum3(P1[2]);
    assert ArraySum(P1[0]) == 2 && ArraySum(P1[1]) == 1 && ArraySum(P1[2]) == 0;
    Sum4(G1[0]); Sum4(G1[1]); Sum4(G1[2]); Sum4(G1[3]);
    assert ArraySum(G1[0]) == 1 && ArraySum(G1[1]) == 2 && ArraySum(G1[2]) == 1 && ArraySum(G1[3]) == 0;
    assert M0[0] == SingleM0[0];
    assert M0[1] == SingleM0[1];
    assert M0[2] == SingleM0[2];
  }

  /** G2 and P1 under the default degree criterion. */
  lemma DoubleCandidates()
    ensures Admissible(None, G2, P1)
    ensures Candidates(G2, P1, None) == DoubleM0
  {
    DefaultAdmissible(G2, P1);
    var M0 := Candidates(G2, P1, None);
    Sum3(P1[0]); Sum3(P1[1]); Sum3(P1[2]);
    assert ArraySum(P1[0]) == 2 && ArraySum(P1[1]) == 1 && ArraySum(P1[2]) == 0;
    Sum4(G2[0]); Sum4(G2[1]); Sum4(G2[2]); Sum4(G2[3]);
    assert ArraySum(G2[0]) == 2 && ArraySum(G2[1]) == 2 && ArraySum(G2[2]) == 1 && ArraySum(G2[3]) == 0;
    assert M0[0] == DoubleM0[0];
    assert M0[1] == DoubleM0[1];
    assert M0[2] == DoubleM0[2];
  }

  /** Path and Path under the default degree criterion. */
  lemma SelfPathCandidates()
    ensures Admissible(None, Path, Path)
    ensures Candidates(Path, Path, None) == PathM0
  {
    DefaultAdmissible(Path, Path);
    var M0 := Candidates(Path, Path, None);
    Sum3(Path[0]); Sum3(Path[1]); Sum3(Path[2]);
    assert ArraySum(Path[0]) == 1 && ArraySum(Path[1]) == 1 && ArraySum(Path[2]) == 0;
    assert M0[0] == PathM0[0];
    assert M0[1] == PathM0[1];
    assert M0[2] == PathM0[2];
  }

  /** NoEdges and Path under the default degree criterion. */
  lemma NoEdgesCandidates()
    ensures Admissible(None, NoEdges, Path)
    ensures Candidates(NoEdges, Path, None) == NoEdgesM0
  {
    DefaultAdmissible(NoEdges, Path);
    var M0 := Candidates(NoEdges, Path, None);
    Sum3(Path[0]); Sum3(Path[1]); Sum3(Path[2]);
    assert ArraySum(Path[0]) == 1 && ArraySum(Path[1]) == 1 && ArraySum(Path[2]) == 0;
    Sum3(NoEdges[0]); Sum3(NoEdges[1]); Sum3(NoEdges[2]);
    assert ArraySum(NoEdges[0]) == 0 && ArraySum(NoEdges[1]) == 0 && ArraySum(NoEdges[2]) == 0;
    assert M0[0] == NoEdgesM0[0];
    assert M0[1] == NoEdgesM0[1];
    assert M0[2] == NoEdgesM0[2];
  }

  /** Triangle and Triangle under the default degree criterion. */
  lemma TriangleCandidates()
    ensures Admissible(None, Triangle, Triangle)
    ensures Candidates(Triangle, Triangle, None) == TriangleM0
  {
    DefaultAdmissible(Triangle, Triangle);
    var M0 := Candidates(Triangle, Triangle, None);
    Sum3(Triangle[0]); Sum3(Triangle[1]); Sum3(Triangle[2]);
    assert ArraySum(Triangle[0]) == 1 && ArraySum(Triangle[1]) == 1 && ArraySum(Triangle[2]) == 1;
    assert M0[0] == TriangleM0[0];
    assert M0[1] == TriangleM0[1];
    assert M0[2] == TriangleM0[2];
  }

  /**
   * The search tree of the triangle in itself, node by node: TriangleAt<pre> gives what the search
   * reports below the partial assignment pre.
   */
  lemma TriangleShaped()
    ensures Shaped(Triangle, Triangle, TriangleM0)
  {
  }

  lemma TriangleAt01()
    ensures Solutions(Triangle, Triangle, TriangleM0, [0, 1]) == [[0, 1, 2]]
  {
    TriangleShaped();
    Skip(Triangle, Triangle, TriangleM0, [0, 1], 0);
    Skip(Triangle, Triangle, TriangleM0, [0, 1], 1);
    Accept(Triangle, Triangle, TriangleM0, [0, 1, 2]);
    Take(Triangle, Triangle, TriangleM0, [0, 1], 2, [0, 1, 2]);
    ThreeBranches(Triangle, Triangle, TriangleM0, [0, 1]);
  }

  lemma TriangleAt02()
    ensures Solutions(Triangle, Triangle, TriangleM0, [0, 2]) == []
  {
    TriangleShaped();
    Skip(Triangle, Triangle, TriangleM0, [0, 2], 0);
    Reject(Triangle, Triangle, TriangleM0, [0, 2, 1], 0, 1);
    Take(Triangle, Triangle, TriangleM0, [0, 2], 1, [0, 2, 1]);
    Skip(Triangle, Triangle, TriangleM0, [0, 2], 2);
    ThreeBranches(Triangle, Triangle, TriangleM0, [0, 2]);
  }

  lemma TriangleAt10()
    ensures Solutions(Triangle, Triangle, TriangleM0, [1, 0]) == []
  {
    TriangleShaped();
    Skip(Triangle, Triangle, TriangleM0, [1, 0], 0);
    Skip(Triangle, Triangle, TriangleM0, [1, 0], 1);
    Reject(Triangle, Triangle, TriangleM0, [1, 0, 2], 0, 1);
    Take(Triangle, Triangle, TriangleM0, [1, 0], 2, [1, 0, 2]);
    ThreeBranches(Triangle, Triangle, TriangleM0, [1, 0]);
  }

  lemma TriangleAt12()
    ensures Solutions(Triangle, Triangle, TriangleM0, [1, 2]) == [[1, 2, 0]]
  {
    TriangleShaped();
    Accept(Triangle, Triangle, TriangleM0, [1, 2, 0]);
    Take(Triangle, Triangle, TriangleM0, [1, 2], 0, [1, 2, 0]);
    Skip(Triangle, Triangle, TriangleM0, [1, 2], 1);
    Skip(Triangle, Triangle, TriangleM0, [1, 2], 2);
    ThreeBranches(Triangle, Triangle, TriangleM0, [1, 2]);
  }

  lemma TriangleAt20()
    ensures Solutions(Triangle, Triangle, TriangleM0, [2, 0]) == [[2, 0, 1]]
  {
    TriangleShaped();
    Skip(Triangle, Triangle, TriangleM0, [2, 0], 0);
    Accept(Triangle, Triangle, TriangleM0, [2, 0, 1]);
    Take(Triangle, Triangle, TriangleM0, [2, 0], 1, [2, 0, 1]);
    Skip(Triangle, Triangle, TriangleM0, [2, 0], 2);
    ThreeBranches(Triangle, Triangle, TriangleM0, [2, 0]);
  }

  lemma TriangleAt21()
    ensures Solutions(Triangle, Triangle, TriangleM0, [2, 1]) == []
  {
    TriangleShaped();
    Reject(Triangle, Triangle, TriangleM0, [2, 1, 0], 0, 1);
    Take(Triangle, Triangle, TriangleM0, [2, 1], 0, [2, 1, 0]);
    Skip(Triangle, Triangle, TriangleM0, [2, 1], 1);
    Skip(Triangle, Triangle, TriangleM0, [2, 1], 2);
    ThreeBranches(Triangle, Triangle, TriangleM0, [2, 1]);
  }

  lemma TriangleAt0()
    ensures Solutions(Triangle, Triangle, TriangleM0, [0]) == [[0, 1, 2]]
  {
    TriangleShaped();
    Skip(Triangle, Triangle, TriangleM0, [0], 0);
    TriangleAt01();
    Take(Triangle, Triangle, TriangleM0, [0], 1, [0, 1]);
    TriangleAt02();
    Take(Triangle, Triangle, TriangleM0, [0], 2, [0, 2]);
    ThreeBranches(Triangle, Triangle, TriangleM0, [0]);
  }

  lemma TriangleAt1()
    ensures Solutions(Triangle, Triangle, TriangleM0, [1]) == [[1, 2, 0]]
  {
    TriangleShaped();
    TriangleAt10();
    Take(Triangle, Triangle, TriangleM0, [1], 0, [1, 0]);
    Skip(Triangle, Triangle, TriangleM0, [1], 1);
    TriangleAt12();
    Take(Triangle, Triangle, TriangleM0, [1], 2, [1, 2]);
    ThreeBranches(Triangle, Triangle, TriangleM0, [1]);
  }

  lemma TriangleAt2()
    ensures Solutions(Triangle, Triangle, TriangleM0, [2]) == [[2, 0, 1]]
  {
    TriangleShaped();
    TriangleAt20();
    Take(Triangle, Triangle, TriangleM0, [2], 0, [2, 0]);
    TriangleAt21();
    Take(Triangle, Triangle, TriangleM0, [2], 1, [2, 1]);
    Skip(Triangle, Triangle, TriangleM0, [2], 2);
    ThreeBranches(Triangle, Triangle, TriangleM0, [2]);
  }

  lemma TriangleAtRoot()
    ensures Solutions(Triangle, Triangle, TriangleM0, []) == [[0, 1, 2], [1, 2, 0], [2, 0, 1]]
  {
    TriangleShaped();
    TriangleAt0();
    Take(Triangle, Triangle, TriangleM0, [], 0, [0]);
    TriangleAt1();
    Take(Triangle, Triangle, TriangleM0, [], 1, [1]);
    TriangleAt2();
    Take(Triangle, Triangle, TriangleM0, [], 2, [2]);
    ThreeBranches(Triangle, Triangle, TriangleM0, []);
  }

  /**
   * The search tree of P1 in G1, node by node: SingleAt<pre> gives what the search
   * reports below the partial assignment pre.
   */
  lemma SingleShaped()
    ensures Shaped(G1, P1, SingleM0)
  {
  }

  lemma SingleAt10()
    ensures Solutions(G1, P1, SingleM0, [1, 0]) == []
  {
    SingleShaped();
    Skip(G1, P1, SingleM0, [1, 0], 0);
    Skip(G1, P1, SingleM0, [1, 0], 1);
    Reject(G1, P1, SingleM0, [1, 0, 2], 0, 1);
    Take(G1, P1, SingleM0, [1, 0], 2, [1, 0, 2]);
    Reject(G1, P1, SingleM0, [1, 0, 3], 0, 1);
    Take(G1, P1, SingleM0, [1, 0], 3, [1, 0, 3]);
    FourBranches(G1, P1, SingleM0, [1, 0]);
  }

  lemma SingleAt12()
    ensures Solutions(G1, P1, SingleM0, [1, 2]) == [[1, 2, 3]]
  {
    SingleShaped();
    Reject(G1, P1, SingleM0, [1, 2, 0], 0, 2);
    Take(G1, P1, SingleM0, [1, 2], 0, [1, 2, 0]);
    Skip(G1, P1, SingleM0, [1, 2], 1);
    Skip(G1, P1, SingleM0, [1, 2], 2);
    Accept(G1, P1, SingleM0, [1, 2, 3]);
    Take(G1, P1, SingleM0, [1, 2], 3, [1, 2, 3]);
    FourBranches(G1, P1, SingleM0, [1, 2]);
  }

  lemma SingleAt1()
    ensures Solutions(G1, P1, SingleM0, [1]) == [[1, 2, 3]]
  {
    SingleShaped();
    SingleAt10();
    Take(G1, P1, SingleM0, [1], 0, [1, 0]);
    Skip(G1, P1, SingleM0, [1], 1);
    SingleAt12();
    Take(G1, P1, SingleM0, [1], 2, [1, 2]);
    Skip(G1, P1, SingleM0, [1], 3);
    FourBranches(G1, P1, SingleM0, [1]);
  }

  lemma SingleAtRoot()
    ensures Solutions(G1, P1, SingleM0, []) == [[1, 2, 3]]
  {
    SingleShaped();
    Skip(G1, P1, SingleM0, [], 0);
    SingleAt1();
    Take(G1, P1, SingleM0, [], 1, [1]);
    Skip(G1, P1, SingleM0, [], 2);
    Skip(G1, P1, SingleM0, [], 3);
    FourBranches(G1, P1, SingleM0, []);
  }

  /**
   * The search tree of P1 in G2, node by node: DoubleAt<pre> gives what the search
   * reports below the partial assignment pre.
   */
  lemma DoubleShaped()
    ensures Shaped(G2, P1, DoubleM0)
  {
  }

  lemma DoubleAt01()
    ensures Solutions(G2, P1, DoubleM0, [0, 1]) == [[0, 1, 3]]
  {
    DoubleShaped();
    Skip(G2, P1, DoubleM0, [0, 1], 0);
    Skip(G2, P1, DoubleM0, [0, 1], 1);
    Reject(G2, P1, DoubleM0, [0, 1, 2], 0, 2);
    Take(G2, P1, DoubleM0, [0, 1], 2, [0, 1, 2]);
    Accept(G2, P1, DoubleM0, [0, 1, 3]);
    Take(G2, P1, DoubleM0, [0, 1], 3, [0, 1, 3]);
    FourBranches(G2, P1, DoubleM0, [0, 1]);
  }

  lemma DoubleAt02()
    ensures Solutions(G2, P1, DoubleM0, [0, 2]) == []
  {
    DoubleShaped();
    Skip(G2, P1, DoubleM0, [0, 2], 0);
    Reject(G2, P1, DoubleM0, [0, 2, 1], 0, 1);
    Take(G2, P1, DoubleM0, [0, 2], 1, [0, 2, 1]);
    Skip(G2, P1, DoubleM0, [0, 2], 2);
    Reject(G2, P1, DoubleM0, [0, 2, 3], 0, 1);
    Take(G2, P1, DoubleM0, [0, 2], 3, [0, 2, 3]);
    FourBranches(G2, P1, DoubleM0, [0, 2]);
  }

  lemma DoubleAt10()
    ensures Solutions(G2, P1, DoubleM0, [1, 0]) == []
  {
    DoubleShaped();
    Skip(G2, P1, DoubleM0, [1, 0], 0);
    Skip(G2, P1, DoubleM0, [1, 0], 1);
    Reject(G2, P1, DoubleM0, [1, 0, 2], 0, 1);
    Take(G2, P1, DoubleM0, [1, 0], 2, [1, 0, 2]);
    Reject(G2, P1, DoubleM0, [1, 0, 3], 0, 1);
    Take(G2, P1, DoubleM0, [1, 0], 3, [1, 0, 3]);
    FourBranches(G2, P1, DoubleM0, [1, 0]);
  }

  lemma DoubleAt12()
    ensures Solutions(G2, P1, DoubleM0, [1, 2]) == [[1, 2, 3]]
  {
    DoubleShaped();
    Reject(G2, P1, DoubleM0, [1, 2, 0], 0, 2);
    Take(G2, P1, DoubleM0, [1, 2], 0, [1, 2, 0]);
    Skip(G2, P1, DoubleM0, [1, 2], 1);
    Skip(G2, P1, DoubleM0, [1, 2], 2);
    Accept(G2, P1, DoubleM0, [1, 2, 3]);
    Take(G2, P1, DoubleM0, [1, 2], 3, [1, 2, 3]);
    FourBranches(G2, P1, DoubleM0, [1, 2]);
  }

  lemma DoubleAt0()
    ensures Solutions(G2, P1, DoubleM0, [0]) == [[0, 1, 3]]
  {
    DoubleShaped();
    Skip(G2, P1, DoubleM0, [0], 0);
    DoubleAt01();
    Take(G2, P1, DoubleM0, [0], 1, [0, 1]);
    DoubleAt02();
    Take(G2, P1, DoubleM0, [0], 2, [0, 2]);
    Skip(G2, P1, DoubleM0, [0], 3);
    FourBranches(G2, P1, DoubleM0, [0]);
  }

  lemma DoubleAt1()
    ensures Solutions(G2, P1, DoubleM0, [1]) == [[1, 2, 3]]
  {
    DoubleShaped();
    DoubleAt10();
    Take(G2, P1, DoubleM0, [1], 0, [1, 0]);
    Skip(G2, P1, DoubleM0, [1], 1);
    DoubleAt12();
    Take(G2, P1, DoubleM0, [1], 2, [1, 2]);
    Skip(G2, P1, DoubleM0, [1], 3);
    FourBranches(G2, P1, DoubleM0, [1]);
  }

  lemma DoubleAtRoot()
    ensures Solutions(G2, P1, DoubleM0, []) == [[0, 1, 3], [1, 2, 3]]
  {
    DoubleShaped();
    DoubleAt0();
    Take(G2, P1, DoubleM0, [], 0, [0]);
    DoubleAt1();
    Take(G2, P1, DoubleM0, [], 1, [1]);
    Skip(G2, P1, DoubleM0, [], 2);
    Skip(G2, P1, DoubleM0, [], 3);
    FourBranches(G2, P1, DoubleM0, []);
  }

  /**
   * The search tree of the path in itself, node by node: SelfPathAt<pre> gives what the search
   * reports below the partial assignment pre.
   */
  lemma SelfPathShaped()
    ensures Shaped(Path, Path, PathM0)
  {
  }

  lemma SelfPathAt01()
    ensures Solutions(Path, Path, PathM0, [0, 1]) == [[0, 1, 2]]
  {
    SelfPathShaped();
    Skip(Path, Path, PathM0, [0, 1], 0);
    Skip(Path, Path, PathM0, [0, 1], 1);
    Accept(Path, Path, PathM0, [0, 1, 2]);
    Take(Path, Path, PathM0, [0, 1], 2, [0, 1, 2]);
    ThreeBranches(Path, Path, PathM0, [0, 1]);
  }

  lemma SelfPathAt10()
    ensures Solutions(Path, Path, PathM0, [1, 0]) == []
  {
    SelfPathShaped();
    Skip(Path, Path, PathM0, [1, 0], 0);
    Skip(Path, Path, PathM0, [1, 0], 1);
    Reject(Path, Path, PathM0, [1, 0, 2], 0, 1);
    Take(Path, Path, PathM0, [1, 0], 2, [1, 0, 2]);
    ThreeBranches(Path, Path, PathM0, [1, 0]);
  }

  lemma SelfPathAt0()
    ensures Solutions(Path, Path, PathM0, [0]) == [[0, 1, 2]]
  {
    SelfPathShaped();
    Skip(Path, Path, PathM0, [0], 0);
    SelfPathAt01();
    Take(Path, Path, PathM0, [0], 1, [0, 1]);
    Skip(Path, Path, PathM0, [0], 2);
    ThreeBranches(Path, Path, PathM0, [0]);
  }

  lemma SelfPathAt1()
    ensures Solutions(Path, Path, PathM0, [1]) == []
  {
    SelfPathShaped();
    SelfPathAt10();
    Take(Path, Path, PathM0, [1], 0, [1, 0]);
    Skip(Path, Path, PathM0, [1], 1);
    Skip(Path, Path, PathM0, [1], 2);
    ThreeBranches(Path, Path, PathM0, [1]);
  }

  lemma SelfPathAtRoot()
    ensures Solutions(Path, Path, PathM0, []) == [[0, 1, 2]]
  {
    SelfPathShaped();
    SelfPathAt0();
    Take(Path, Path, PathM0, [], 0, [0]);
    SelfPathAt1();
    Take(Path, Path, PathM0, [], 1, [1]);
    Skip(Path, Path, PathM0, [], 2);
    ThreeBranches(Path, Path, PathM0, []);
  }

  /**
   * The search tree of the path in the edgeless graph, node by node: NoEdgesAt<pre> gives what the search
   * reports below the partial assignment pre.
   */
  lemma NoEdgesShaped()
    ensures Shaped(NoEdges, Path, NoEdgesM0)
  {
  }

  lemma NoEdgesAtRoot()
    ensures Solutions(NoEdges, Path, NoEdgesM0, []) == []
  {
    NoEdgesShaped();
    Skip(NoEdges, Path, NoEdgesM0, [], 0);
    Skip(NoEdges, Path, NoEdgesM0, [], 1);
    Skip(NoEdges, Path, NoEdgesM0, [], 2);
    ThreeBranches(NoEdges, Path, NoEdgesM0, []);
  }

  /** The morphism matrices of the reported assignments. */
  lemma ScenarioMatrices()
    ensures Morphisms([[1, 2, 3]], 4) == [[[0, 1, 0, 0], [0, 0, 1, 0], [0, 0, 0, 1]]]
    ensures Morphisms([[0, 1, 3], [1, 2, 3]], 4) ==
      [[[1, 0, 0, 0], [0, 1, 0, 0], [0, 0, 0, 1]], [[0, 1, 0, 0], [0, 0, 1, 0], [0, 0, 0, 1]]]
    ensures Morphisms([[0, 1, 2]], 3) == [[[1, 0, 0], [0, 1, 0], [0, 0, 1]]]
    ensures Morphisms([[0, 1, 2], [1, 2, 0], [2, 0, 1]], 3) ==
      [[[1, 0, 0], [0, 1, 0], [0, 0, 1]], [[0, 1, 0], [0, 0, 1], [1, 0, 0]], [[0, 0, 1], [1, 0, 0], [0, 1, 0]]]
  {
    assert OneHot(0, 4) == [1, 0, 0, 0] && OneHot(1, 4) == [0, 1, 0, 0];
    assert OneHot(2, 4) == [0, 0, 1, 0] && OneHot(3, 4) == [0, 0, 0, 1];
    assert OneHot(0, 3) == [1, 0, 0] && OneHot(1, 3) == [0, 1, 0] && OneHot(2, 3) == [0, 0, 1];
    assert MatrixOf([1, 2, 3], 4) == [[0, 1, 0, 0], [0, 0, 1, 0], [0, 0, 0, 1]];
    assert MatrixOf([0, 1, 3], 4) == [[1, 0, 0, 0], [0, 1, 0, 0], [0, 0, 0, 1]];
    assert MatrixOf([0, 1, 2], 3) == [[1, 0, 0], [0, 1, 0], [0, 0, 1]];
    assert MatrixOf([1, 2, 0], 3) == [[0, 1, 0], [0, 0, 1], [1, 0, 0]];
    assert MatrixOf([2, 0, 1], 3) == [[0, 0, 1], [1, 0, 0], [0, 1, 0]];
  }

  /** A single embedding of P1 in G1. */
  method DetectsSingleMorphism() returns (r: SearchResult)
    ensures r == Embeddings([[[0, 1, 0, 0], [0, 0, 1, 0], [0, 0, 0, 1]]])
  {
    SingleCandidates();
    SingleAtRoot();
    ScenarioMatrices();
    r := GetIsomorphicSubgraphs(G1, P1, None, None);
  }

  /** Two embeddings of P1 in G2, the one through host vertex 0 first. */
  method DetectsTwoMorphisms() returns (r: SearchResult)
    ensures r == Embeddings([[[1, 0, 0, 0], [0, 1, 0, 0], [0, 0, 0, 1]], [[0, 1, 0, 0], [0, 0, 1, 0], [0, 0, 0, 1]]])
  {
    DoubleCandidates();
    DoubleAtRoot();
    ScenarioMatrices();
    r := GetIsomorphicSubgraphs(G2, P1, None, None);
  }

  /** A path embeds in itself only through the identity. */
  method FindsIdentityForEqualGraphs() returns (r: SearchResult)
    ensures r == Embeddings([[[1, 0, 0], [0, 1, 0], [0, 0, 1]]])
  {
    SelfPathCandidates();
    SelfPathAtRoot();
    ScenarioMatrices();
    r := GetIsomorphicSubgraphs(Path, Path, None, None);
  }

  /** A path does not embed in a graph without edges. */
  method FindsNoMorphism() returns (r: SearchResult)
    ensures r == Embeddings([])
  {
    NoEdgesCandidates();
    NoEdgesAtRoot();
    r := GetIsomorphicSubgraphs(NoEdges, Path, None, None);
  }

  /** The cycle embeds in itself through its three rotations, identity first. */
  method FindsAllTriangleRotations() returns (r: SearchResult)
    ensures r == Embeddings([[[1, 0, 0], [0, 1, 0], [0, 0, 1]], [[0, 1, 0], [0, 0, 1], [1, 0, 0]], [[0, 0, 1], [1, 0, 0], [0, 1, 0]]])
  {
    TriangleCandidates();
    TriangleAtRoot();
    ScenarioMatrices();
    r := GetIsomorphicSubgraphs(Triangle, Triangle, None, None);
  }

  /** Caps of 1, 2 and 3 and no cap give the first 1, 2, 3 and all 3 rotations. */
  method ReturnsTheNumberRequested() returns (one: SearchResult, two: SearchResult, three: SearchResult, all: SearchResult)
    ensures one == Embeddings([[[1, 0, 0], [0, 1, 0], [0, 0, 1]]])
    ensures two == Embeddings([[[1, 0, 0], [0, 1, 0], [0, 0, 1]], [[0, 1, 0], [0, 0, 1], [1, 0, 0]]])
    ensures three == all
    ensures all == Embeddings([[[1, 0, 0], [0, 1, 0], [0, 0, 1]], [[0, 1, 0], [0, 0, 1], [1, 0, 0]], [[0, 0, 1], [1, 0, 0], [0, 1, 0]]])
  {
    TriangleCandidates();
    TriangleAtRoot();
    ScenarioMatrices();
    var rotations := AllEmbeddings(Triangle, Triangle, None);
    one := GetIsomorphicSubgraphs(Triangle, Triangle, Some(1), None);
    assert one.morphisms == rotations[..1];
    two := GetIsomorphicSubgraphs(Triangle, Triangle, Some(2), None);
    assert two.morphisms == rotations[..2];
    three := GetIsomorphicSubgraphs(Triangle, Triangle, Some(3), None);
    assert three.morphisms == rotations;
    all := GetIsomorphicSubgraphs(Triangle, Triangle, None, None);
  }

  /**
   * The early exits come before the squareness check: a pattern larger than
   * the host and a non-positive cap give no embeddings even for ragged input;
   * otherwise a ragged matrix is an error.
   */
  method EarlyExits() returns (larger: SearchResult, zeroCap: SearchResult, ragged: SearchResult)
    ensures larger == Embeddings([]) && zeroCap == Embeddings([]) && ragged == ShapeError
  {
    var rows: Matrix := [[0, 0], [0, 0, 0]];
    assert |rows[1]| != |rows|;
    larger := GetIsomorphicSubgraphs([[0, 0, 0]], Triangle, None, None);
    zeroCap := GetIsomorphicSubgraphs(rows, [[0]], Some(0), None);
    ragged := GetIsomorphicSubgraphs(rows, [[0]], None, None);
  }

  /** The two checkSquareMatrix examples. */
  method SquareExamples() returns (square: bool, ragged: bool)
    ensures square && !ragged
  {
    square := CheckSquareMatrix([[0, 0], [0, 0]]);
    var rows: Matrix := [[0, 0], [0, 0, 0]];
    assert |rows[1]| != |rows|;
    ragged := CheckSquareMatrix(rows);
  }
}

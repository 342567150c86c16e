# subgraph-isomorphism, modelled in Dafny

The package decides how a small *pattern* graph P embeds into a larger *host*
graph G. Both graphs are square 0/1 adjacency matrices. `getIsomorphicSubgraphs`
builds a candidate matrix with one row per pattern vertex and one column per host
vertex. A cell is 1 when a compatibility criterion allows the pairing; the default
criterion compares out-degrees. An Ullmann-style backtracking search (`recurse`)
then commits one pattern row at a time to an unused candidate column, in ascending
column order. At the bottom, `isIso` checks that every pattern edge lands on a
host edge. Every accepted morphism matrix is copied into the result list. An
optional cap stops new descents once the list is full.

The project has these modules:

- `Matrices` (matrices.dfy): `arraySum`, `num_rows`, `num_cols`, `checkSquareMatrix`
  and `array2DCopy`.
  - Matrices are sequences of rows.
  - The search's working matrix is an `array2<int>`, because the source updates it
    in place.
- `Verifier` (verifier.dfy): `mapPtoG` and `isIso`.
  - It also defines assignments: `f[i]` is the host vertex that pattern vertex i
    is sent to.
  - It relates them to morphism matrices.
- `Criteria` (criteria.dfy): `degreeCriteria` and `initMorphism`.
  - `Candidates` is the candidate matrix as a value.
  - The lemmas show that degree pruning never removes a monomorphism of 0/1 graphs.
- `Search` (search.dfy): `recurse`, as the methods `Recurse`, `TryColumn` (one
  iteration of its column loop), `CommitRow` and `Leaf`.
  - `used_columns` is an `array<bool>` that the methods mark and unmark in place.
  - The method contracts tie the results to a pure specification.
  - The specification is `Solutions`: the full assignments reachable from a
    partial one that pass the verifier, column by column in ascending order.
    `Capped` cuts that sequence down to a cap.
- `SearchFacts` (search_facts.dfy): `Solutions` reports exactly the allowed
  monomorphisms that extend the partial assignment, in strictly increasing
  lexicographic order.
- `Subgraphs` (subgraphs.dfy): `getIsomorphicSubgraphs`, with its early exits in
  source order, and the end-to-end theorems.
- `Scenarios` (scenarios.dfy): the unit-test scenarios of test/test.js, worked out
  node by node through the search tree and through `GetIsomorphicSubgraphs`.
- `Wrappers` (wrappers.dfy): `Option` and `Min`.

The model keeps these details of the code:

- A non-square input gives the error only when neither early exit applies first.
  The early exits are a pattern larger than the host and a cap at or below zero.
- `mapPtoG` takes the *first* 1 of a row.
- `recurse` copies the matrix once per call, not once per column. The same copy
  `Mp` is recommitted for each column.

## Model

| member | source | states |
|---|---|---|
| Matrices.ArraySumCountsOnes | index.js:4-8 | on a non-empty 0/1 row, arraySum (a left fold of +) is the number of 1s, i.e. the vertex's out-degree |
| Matrices.ArraySum | index.js:4-8 | the left fold of + over a non-empty row, without an initial value; what it computes on an adjacency row is stated by Matrices.ArraySumCountsOnes |
| Matrices.NumRows | index.js:10-12 | the number of rows; in a square matrix every row has that many cells |
| Matrices.NumCols | index.js:14-16 | the length of the first row, defined for a matrix with at least one row; on a square matrix it equals num_rows |
| Matrices.CheckSquareMatrix | index.js:29-38 | returns true exactly when every row's length equals the number of rows |
| Matrices.Array2DCopy | index.js:18-27 | returns a fresh array of the same dimensions whose every cell equals the original's |
| Verifier.MapPtoG | index.js:40-47 | for a row holding a 1, returns a column inside the matrix where that row holds its first 1 |
| Verifier.IsIso | index.js:49-79 | returns true exactly when, for every pattern edge (r1, r2), the host has the edge (mapPtoG(r1), mapPtoG(r2)) |
| Verifier.MapPtoGOfMatrixOf | index.js:40-47 | on the morphism matrix of an assignment f, mapPtoG(p) is f[p] |
| Verifier.EdgesPreservedIffPreserves | index.js:49-79 | isIso's test on the morphism matrix of f holds exactly when f sends every pattern edge to a host edge |
| Verifier.MorphismShape | index.js:103-109 | the morphism matrix of an injective assignment has rows summing to 1 and pairwise distinct mapped columns |
| Criteria.DegreeCriteria | index.js:142-147 | true when p's row sum is at most g's; on 0/1 rows, exactly when p has at most as many out-neighbours as g |
| Criteria.Candidates | index.js:149-170 | the candidate matrix, one row per pattern vertex and one column per host vertex, has a cell of 1 exactly where the criterion accepts the pair, and of 0 elsewhere |
| Criteria.InitMorphism | index.js:149-170 | returns a fresh array of pattern-by-host dimensions that agrees with the candidate matrix in every cell, defaulting to degreeCriteria when no criterion is supplied |
| Criteria.DegreePruningIsSafe | index.js:142-147 | for 0/1 graphs, a monomorphism f always satisfies degreeCriteria(P, G, p, f[p]) |
| Criteria.DefaultCandidatesKeepMonomorphisms | index.js:149-170 | the default candidate matrix holds a 1 at (i, f[i]) for every monomorphism f of 0/1 graphs |
| Search.Solutions | index.js:81-126 | the specification of the search below a partial assignment: at a full assignment itself if it preserves every pattern edge, else nothing; otherwise the results of every eligible column in ascending order (its properties are SearchFacts.SolutionsSound, SolutionsComplete and SolutionsOrdered) |
| Search.SolutionsBelow | index.js:96-123 | the results of the eligible columns below c, in ascending order: those below c - 1 followed by the branch through c - 1 |
| Search.CommitRow | index.js:103-109 | row `row` becomes all zeros except a 1 at column c; every other cell keeps its value |
| Search.Leaf | index.js:85-89 | at a full assignment, appends a snapshot of M exactly when isIso accepts it, which is the specification's one-or-zero results |
| Search.TryColumn | index.js:100-121 | for an eligible column, commits it, marks it used and descends only while the cap is not reached, then unmarks it; used_columns comes back unchanged; row `row` of Mp is one-hot at c when c was eligible and unchanged otherwise, and the other rows are untouched; the result is the accumulator followed by the capped branch through c |
| Search.Recurse | index.js:81-126 | restores used_columns, never modifies M, and appends to the accumulator the verified extensions of the committed rows in ascending column order: all of them at a leaf, and otherwise as many as fit under the cap |
| Search.CappedAppend | index.js:114-117 | capping a concatenation caps the first part and then the second with the room that is left |
| Search.LeafAtMostOne | index.js:85-89 | a full assignment contributes at most one result, so a descent permitted under the cap never overshoots it |
| Search.BelowStep | index.js:96-123 | the results for columns below c + 1 are those below c followed by the branch through c |
| Search.LoopStep | index.js:96-123 | the accumulator after column c is the accumulator before it followed by the capped results for columns up to c |
| SearchFacts.SolutionsSound | index.js:81-126 | every reported assignment extends the committed rows, is injective, in range and edge-preserving, and uses only candidate cells |
| SearchFacts.SolutionsBelowSound | index.js:96-123 | the same for the results from columns below c, whose next row is also below c |
| SearchFacts.SolutionsComplete | index.js:81-126 | every monomorphism that extends the committed rows and uses only candidate cells is reported |
| SearchFacts.SolutionsBelowComplete | index.js:96-123 | the same for the results from columns below c, when the monomorphism's next row is below c |
| SearchFacts.BranchComplete | index.js:100-117 | the branch through a monomorphism's own next column contains it |
| SearchFacts.IncreasingConcat | index.js:96 | two lexicographically increasing lists, every element of the first before every element of the second, concatenate to an increasing list |
| SearchFacts.SolutionsOrdered | index.js:96 | the reported assignments are in strictly increasing lexicographic order |
| SearchFacts.SolutionsBelowOrdered | index.js:96 | the same for the results from columns below c |
| Subgraphs.DefaultAdmissible | index.js:142-147 | degreeCriteria can be evaluated on every pair of a square host and a non-empty square pattern |
| Subgraphs.GetIsomorphicSubgraphs | index.js:186-211 | returns [] when the host has fewer vertices than the pattern; otherwise returns [] on a cap <= 0; otherwise returns ShapeError when G or P is not square; otherwise returns a prefix of all the search's morphism matrices, all of them without a cap and min(cap, total) of them with one |
| Subgraphs.FindsExactlyTheAllowedMonomorphisms | index.js:186-211 | an assignment is reported exactly when it is a monomorphism of P into G whose every pair the criterion accepts |
| Subgraphs.EmbeddingsAreMorphismMatrices | index.js:85-89 | every returned matrix has one row per pattern vertex; each row is one-hot (1 at its mapPtoG column, 0 in every other host column) and sums to 1; the mapped columns are pairwise distinct; and the matrix passes isIso |
| Subgraphs.EmbeddingsInLexOrder | index.js:96 | the results come in strictly increasing lexicographic order of their assignments |
| Subgraphs.DefaultSearchFindsAllMonomorphisms | index.js:142-170 | with the default criterion on 0/1 graphs, the search reports every monomorphism of P into G and nothing else |
| Scenarios.SingleCandidates | test/test.js:28-34 | the default candidate matrix of P1 in G1 |
| Scenarios.SingleAtRoot | test/test.js:28-34 | the search for P1 in G1 reports the single assignment (1, 2, 3) |
| Scenarios.DetectsSingleMorphism | test/test.js:28-34 | getIsomorphicSubgraphs(G1, P1) returns exactly [[0,1,0,0],[0,0,1,0],[0,0,0,1]] |
| Scenarios.DoubleAtRoot | test/test.js:36-47 | with the extra edge 0 -> 3, the search reports (0, 1, 3) and then (1, 2, 3) |
| Scenarios.DetectsTwoMorphisms | test/test.js:36-47 | getIsomorphicSubgraphs(G2, P1) returns the two morphism matrices in the test's order |
| Scenarios.SelfPathAtRoot | test/test.js:49-54 | a 3-vertex path embeds in itself only through the identity |
| Scenarios.FindsIdentityForEqualGraphs | test/test.js:49-54 | getIsomorphicSubgraphs(G, G) on the path returns only the identity matrix |
| Scenarios.NoEdgesAtRoot | test/test.js:56-61 | no candidate exists for the path's first vertex in a graph without edges, so the search reports nothing |
| Scenarios.FindsNoMorphism | test/test.js:56-61 | getIsomorphicSubgraphs on the edgeless host returns [] |
| Scenarios.TriangleAtRoot | test/test.js:63-71 | the directed triangle embeds in itself through the identity, then shift by 1, then shift by 2 |
| Scenarios.FindsAllTriangleRotations | test/test.js:63-71 | getIsomorphicSubgraphs(G, G) on the triangle returns the three rotation matrices in that order |
| Scenarios.ReturnsTheNumberRequested | test/test.js:73-83 | caps 1, 2, 3 and none return the first 1, the first 2, all 3 and all 3 rotations |
| Scenarios.EarlyExits | index.js:188-199 | a pattern larger than the host and a zero cap give [] even for a ragged host; without them a ragged host gives ShapeError |
| Scenarios.SquareExamples | test/test.js:87-95 | checkSquareMatrix accepts [[0,0],[0,0]] and rejects [[0,0],[0,0,0]] |

## Left out

- experiments/ is not part of this model. The benchmark driver (experiments/experiement-driver.js) only calls the entry point, and the random graph generator only builds its inputs.
- mathjs: `math.zeros(...).toArray()` is replaced by building the zero matrix and the all-unused column vector directly.
- used_columns holds the numbers 0/1 in the source and booleans in the model; nothing else reads it.
- Subgraphs.GetIsomorphicSubgraphs: `maxNum` is `Option<int>`, where `None` stands for `null` and `undefined`. JavaScript coercions of other values, fractional caps and `maxNum || null` on non-integers are not modelled.
- Subgraphs.GetIsomorphicSubgraphs: an empty pattern that passes the early exits makes the source throw in `num_cols` (it reads `M[0]` of an empty matrix). The model requires the caller to avoid that case rather than model the exception.
- Subgraphs.GetIsomorphicSubgraphs: a user-supplied criterion is a partial function that must accept every (pattern, host) index pair. A criterion that throws or has side effects is not modelled.
- Criteria.DegreeCriteria: `arraySum` uses `reduce` without an initial value, so it throws on an empty row. The model requires non-empty rows, which every square input with a non-empty pattern has.
- Verifier.MapPtoG: requires the row to hold a 1. The source returns `undefined` for a row without one, which never happens on the committed rows that `isIso` sees.
- Verifier.IsIso: requires every row of M to be committed (one 1 inside the host) and does not model `isIso` on other matrices.
- Search.Recurse: the results accumulator `out` is a shared array that the source pushes to. The model passes it in as a value and returns the extended value, so aliasing of `out` is not modelled.
- Matrices.Array2DCopy: copies a rectangular `array2`. The source's `array2DCopy` also copies ragged row arrays, which the search never creates.
- The morphism matrices the source returns are its own copies. In the model they are values (`Snapshot` of the working array), so later aliasing is not an issue.
- Subgraphs.EmbeddingsInLexOrder: ordering is stated on the assignments (row i -> column f[i]) that the returned matrices encode one to one (Verifier.MapPtoGOfMatrixOf).

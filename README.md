# calculate_rmsd: the combinatorial core, in Dafny

`calculate_rmsd.py` aligns two molecules and reports the root-mean-square
deviation (RMSD) between them. Before the linear algebra (Kabsch, quaternions)
can run, the program has to decide which atom of one structure corresponds to
which atom of the other. This project models that combinatorial layer and
proves what it promises:

- **Heap's permutation generator** (`generate_permutations`). It is modelled
  as a method over an `array` with the source's counter list and in-place
  exchanges. The method appends a snapshot at every `yield`. It is proved
  equal to a recursive specification. The first ordering is the input, there
  are n! orderings, they are exactly the rearrangements of the input, and
  they are pairwise distinct when the input is.
- **The brute-force search** (`brute_permutation`). It is a running minimum
  with a strict `<` over Heap's orderings of 0..n-1. It returns an ordering
  no worse than any permutation, and the earliest one on ties.
- **The label-grouped merge** shared by `reorder_hungarian`, `reorder_brute`
  and `reorder_distance`. `view_reorder` is an `array` filled group by group
  through `np.where`. A per-group solver is plugged in:
  - the Hungarian assignment, as an oracle;
  - the brute-force search;
  - argsort by norm, with `translator` proved to be the inverse permutation.

  With valid solvers and equal label counts, the merged view is a permutation
  of q's positions and reads q's labels back as p's. That is the check at
  calculate_rmsd.py:794. `reorder_inertia_hungarian` keeps the better of two
  such merges.
- **The reflection search** (`check_reflections`) and its tables
  `AXIS_SWAPS` and `AXIS_REFLECTIONS`:
  - The hard-coded masks are proved to be permutation signs and products of
    the reflections, and together they give the determinant of each
    transform.
  - `keep_stereo` evaluates exactly the 24 proper rotations among the 48
    candidates.
  - The nested loop keeps the first strictly smallest score. The reorder
    method and the score are oracles.
- **Geometry helpers over reals.** These are:
  - the mass table;
  - `get_cm`;
  - `get_inertia_tensor` (a method with six accumulators, symmetric with a
    non-negative diagonal);
  - `makeW` and `makeQ`;
  - the two special cases of `rotation_matrix_vectors`.
- **Two string rules** from the input handling: the PDB atom-type pick and
  the format guessed from the file name.

Files:

| file | module | models |
|---|---|---|
| wrappers.dfy | `Wrappers` | `Option`, `Result` |
| seqs.dfy | `Seqs` | factorial, `range`, swaps, distinctness, index permutations |
| vectors.dfy | `Vectors` | 3-vectors and 3x3 matrices over reals |
| heap.dfy | `HeapPermutations` | `generate_permutations` and its recursive specification |
| heap_positions.dfy | `HeapPositions` | closed forms for where each element sits during Heap's algorithm |
| heap_props.dfy | `HeapProperties` | first, count, coverage and distinctness of the orderings |
| brute.dfy | `BruteForce` | `brute_permutation` |
| groups.dfy | `Groups` | `np.where(atoms == label)` |
| argsort.dfy | `Argsorting` | `np.argsort` on one-dimensional keys |
| reorder.dfy | `Reorder` | the group-by-group fill of `view_reorder` |
| reorder_methods.dfy | `ReorderMethods` | `reorder_hungarian`, `reorder_brute`, `reorder_distance`, `reorder_inertia_hungarian` |
| axis_tables.dfy | `AxisTables` | `AXIS_SWAPS`, `AXIS_REFLECTIONS`, the masks and the stereo filter |
| reflections.dfy | `Reflections` | `check_reflections` |
| rotation.dfy | `Rotation` | `rotation_matrix_vectors`, special cases |
| inertia.dfy | `Inertia` | `ELEMENTS_WEIGHTS`, `get_cm`, `get_inertia_tensor` |
| quaternion.dfy | `Quaternion` | `makeW`, `makeQ` |
| input_rules.dfy | `InputRules` | PDB atom type, format from file name |

## Model

| member | source | states |
|---|---|---|
| HeapPermutations.GeneratePermutations | calculate_rmsd.py:627-646 | Two facts about the generator: it yields exactly the recursive Heap sequence `Gen(n, a)` of the initial contents, and it leaves the array in the arrangement `End(n, a)` that the recursion leaves behind. The counter list stays within 0 <= c[i] <= i. |
| HeapPermutations.Exchange | calculate_rmsd.py:638-640 | The array afterwards is the old contents with positions i and j exchanged. |
| HeapPermutations.GenFirst | calculate_rmsd.py:633 | The first ordering yielded is the input. |
| HeapPermutations.GenLast | calculate_rmsd.py:641 | The last ordering yielded is the arrangement left in the array. |
| HeapPermutations.RemStart | calculate_rmsd.py:632-646 | The state machine started with all counters at zero, after its first yield, yields the rest of `Gen(n, a)`. |
| HeapProperties.GenShape | calculate_rmsd.py:636-641 | Every ordering yielded is a rearrangement of the first k positions that leaves the others in place. |
| HeapProperties.GenCount | calculate_rmsd.py:629 | Permuting k positions yields exactly k! orderings. |
| HeapProperties.GenCovers | calculate_rmsd.py:629 | Every rearrangement of the first k positions is yielded. |
| HeapProperties.GenDistinct | calculate_rmsd.py:629 | With distinct values in the first k positions, the orderings yielded are pairwise distinct. |
| HeapProperties.GenerateAll | calculate_rmsd.py:627-646 | Over all n positions, four facts hold. The first ordering is the input. There are n! orderings. An ordering is yielded if and only if it has the same length and multiset as the input. The orderings are distinct when the input's values are. |
| HeapProperties.ArrangementFull | calculate_rmsd.py:629 | A rearrangement of all positions is exactly a sequence with the same multiset. |
| BruteForce.FirstMinIndex | calculate_rmsd.py:665-687 | The running minimum with strict `<` ends on a position whose score is no larger than any other and strictly smaller than every earlier one. |
| BruteForce.FirstMinUnique | calculate_rmsd.py:685-687 | Only one position is minimal and strictly below all earlier positions. |
| BruteForce.BrutePermutation | calculate_rmsd.py:649-689 | The loop over Heap's orderings of 0..n-1 returns `Some` of the first minimum (never `None`, since the first score beats infinity). |
| BruteForce.BruteViewOptimal | calculate_rmsd.py:649-689 | The result is a permutation of 0..n-1 that scores no worse than any permutation of 0..n-1. |
| BruteForce.BruteViewFirst | calculate_rmsd.py:685-687 | On ties the result is the earliest ordering generated: it comes no later than any generated ordering that scores at most as much. |
| Groups.Where | calculate_rmsd.py:504-505 | The positions holding a label are in range and hold that label. They are strictly increasing and as many as the label's occurrences. |
| Groups.WhereAtRank | calculate_rmsd.py:504-505 | Position i appears in its label's group at index equal to the number of earlier positions with the same label. |
| Groups.RankIff | calculate_rmsd.py:504-505 | Position i sits at index x of its group if and only if its rank is x. |
| Argsorting.Argsort | calculate_rmsd.py:514-515 | The argsort is a permutation of the positions and reads the keys in non-decreasing order. |
| Argsorting.InsertSorted | calculate_rmsd.py:514-515 | Inserting one more position keeps the keys in order. |
| Argsorting.ArgsortOfPermutation | calculate_rmsd.py:518 | The argsort of a permutation of 0..k-1 is its inverse, on both sides. |
| Reorder.Pick | calculate_rmsd.py:577 | The q position given to position i of p is in range and carries p[i]'s label. |
| Reorder.ReorderGroups | calculate_rmsd.py:563-579 | The loop over the labels succeeds if and only if every label's solver answers with a view that fits. On success it returns the merged view. |
| Reorder.AssignGroup | calculate_rmsd.py:570-577 | One group's assignment `view_reorder[p_atom_idx] = q_atom_idx[view]` moves the array from "labels done" to "labels done plus this one". |
| Reorder.AllDone | calculate_rmsd.py:569-579 | After the last label, the array is the merged view. |
| Reorder.FitsSolvable | calculate_rmsd.py:569-577 | With valid per-group solvers, every label goes through whenever q has at least p's count of every label. |
| Reorder.PickInjective | calculate_rmsd.py:577 | Two positions of p with the same label are given different positions of q. |
| Reorder.MergedAligned | calculate_rmsd.py:794 | With valid solvers, the entries at p's positions are distinct positions of q carrying p's labels and the rest keep the initial value. With equal label counts, the view is a permutation of q's positions and `q[view] == p`. |
| ReorderMethods.ReorderHungarian | calculate_rmsd.py:541-579 | Starting from -1, it succeeds exactly when every group fits. With an assignment oracle and equal label counts, it succeeds with a permutation that aligns q to p. |
| ReorderMethods.HungarianValid | calculate_rmsd.py:525-538 | An assignment that gives each row a distinct column makes a valid per-group solver. |
| ReorderMethods.ReorderBrute | calculate_rmsd.py:692-730 | Starting from -1, it succeeds exactly when every group fits. With equal label counts it always succeeds with a permutation that aligns q to p. |
| ReorderMethods.BruteValid | calculate_rmsd.py:727-728 | The brute-force search on a pair of groups picks as many distinct atoms of Q as P has. |
| ReorderMethods.DistanceView | calculate_rmsd.py:514-519 | A group's view exists exactly when B has at least as many atoms as A. |
| ReorderMethods.DistancePairs | calculate_rmsd.py:514-520 | `translator` inverts A's argsort. The r-th nearest atom of A is paired with the r-th nearest of B, and the view picks distinct atoms of B. |
| ReorderMethods.DistanceValid | calculate_rmsd.py:504-520 | Sorting by norm is a valid per-group solver. |
| ReorderMethods.ReorderDistance | calculate_rmsd.py:478-522 | Starting from 0, it succeeds exactly when every group fits. With equal label counts it always succeeds with a permutation that aligns q to p. |
| ReorderMethods.ReorderInertiaHungarian | calculate_rmsd.py:582-623 | The errors come in the source's order. First comes the `KeyError` from `get_cm` inside `get_principal_axis`, for p and then for q. Then come the failures of the two `reorder_hungarian` calls. Last comes `kabsch_rmsd`'s shape error when p and q differ in length. It succeeds if and only if none of these happens. The result is then the first review when its RMSD is strictly smaller, otherwise the second. With known labels, assignment oracles and equal label counts, it is a permutation that aligns q to p. |
| ReorderMethods.HungarianSolver | calculate_rmsd.py:525-538 | `hungarian` as a per-group solver always answers; whether its view fits is the merge's check. |
| ReorderMethods.BruteSolver | calculate_rmsd.py:692-728 | The brute-force per-group solver answers if and only if the group of P is no larger than the group of Q. |
| AxisTables.SwapsAreAll | calculate_rmsd.py:19-25 | `AXIS_SWAPS` lists 3! distinct orderings of the three axes. |
| AxisTables.SwapMaskIsSign | calculate_rmsd.py:763 | Entry k of `swap_mask` is the sign of the k-th axis swap. |
| AxisTables.ReflectionsAreAll | calculate_rmsd.py:27-35 | `AXIS_REFLECTIONS` lists 8 distinct sign patterns. |
| AxisTables.ReflectionMaskIsProduct | calculate_rmsd.py:764 | Entry j of `reflection_mask` is the product of the j-th reflection's signs. |
| AxisTables.TransformApplies | calculate_rmsd.py:772-773 | Column swap followed by `np.dot(., diag(reflection))` takes v to (v[s0]*r0, v[s1]*r1, v[s2]*r2). |
| AxisTables.MaskIsDeterminant | calculate_rmsd.py:763-773 | The product `i * j` of the two masks is the determinant of the transform. |
| AxisTables.SkippedAreMirrorImages | calculate_rmsd.py:768 | A pair (swap, reflection) is skipped if and only if `keep_stereo` is set and its transform has determinant -1. |
| AxisTables.KeptAreRotations | calculate_rmsd.py:768 | Under `keep_stereo`, a candidate is kept if and only if its transform is a proper rotation. |
| AxisTables.StereoFilter | calculate_rmsd.py:766-768 | With `keep_stereo`, exactly 24 of the 48 candidates are evaluated, each with mask product +1. Without it, all 48 are evaluated. |
| Reflections.Raised | calculate_rmsd.py:778-779 | There is no error if and only if no candidate raised. |
| Reflections.RaisedIsFirst | calculate_rmsd.py:778-779 | The error reported is the first candidate's that raised. |
| Reflections.Tally | calculate_rmsd.py:788-792 | The running minimum exists if and only if some candidate was evaluated. It is an evaluated candidate, no larger than any, and strictly smaller than every earlier one. |
| Reflections.SlotAt | calculate_rmsd.py:766-786 | Candidate (k, j) is skipped if and only if `keep_stereo` drops it. An evaluated candidate carries the k-th swap and the j-th reflection, and its review, when there is one, indexes q. Without a reorder method the only error is the score raising, and there is no review. |
| Reflections.Visit | calculate_rmsd.py:766-786 | One pass of the loop body computes exactly the candidate's slot: skipped, raised (reorder, review index or score), or scored. |
| Reflections.VisitRow | calculate_rmsd.py:767-792 | The inner loop over the eight reflections of one swap either returns the first error of the whole search, or extends the running minimum to the end of the row with nothing raised. |
| Reflections.CheckReflections | calculate_rmsd.py:733-798 | The nested loop over the 6x8 candidates gives the first error raised (by the reorder method, by a review index, or by the score), otherwise the first minimum if q read through its review is p, otherwise the "Not aligned" error. |
| Reflections.AllAligned | calculate_rmsd.py:794-795 | Returns true if and only if `p_atoms == q_atoms[min_review]` holds elementwise. |
| Reflections.FirstSlotScores | calculate_rmsd.py:758-792 | If nothing raised, some candidate was evaluated, so `min_review` and `min_rmsd` are set. |
| Reflections.CheckReflectionsMinimal | calculate_rmsd.py:788-792 | On success, no evaluated candidate scores below the result. |
| Reflections.CheckReflectionsWinner | calculate_rmsd.py:766-792 | On success, the result is one evaluated candidate's score, swap, reflection and review. Under `keep_stereo` its transform is a proper rotation. Every candidate evaluated before it scored strictly higher. |
| Reflections.CheckReflectionsRaises | calculate_rmsd.py:777-780 | Any error other than "Not aligned" is the error of the first candidate that raised. No earlier candidate raised. |
| Reflections.CheckReflectionsWithoutReorder | calculate_rmsd.py:777-795 | Without a reorder method, the search fails only with "Not aligned" or because the score raised. On success p and q have equal atoms and the review is `None`. When every score answers, it succeeds if and only if p and q have equal atoms. |
| Reflections.CheckReflectionsLengthMismatch | calculate_rmsd.py:784-786 | Without a reorder method, when p and q differ in length and the score raises on them (`kabsch_rmsd` and `rmsd` both do), the search reports that error from the first candidate. |
| Reflections.CheckReflectionsWithAligningReorder | calculate_rmsd.py:777-795 | With a reorder method whose every review reads q as p, the only possible error is the score raising. When every score answers, the search succeeds. |
| Rotation.RotationMatrixVectors | calculate_rmsd.py:817-821 | A special case answers if and only if v1 == v2 or v1 == -v2. |
| Rotation.RotationMatrixVectorsRotates | calculate_rmsd.py:817-821 | Every special-case answer is a proper rotation. |
| Rotation.AntiparallelAsWritten | calculate_rmsd.py:819-821 | For opposite vectors, the matrix returned takes v1 onto v2 if and only if v1 has no y component. |
| Rotation.AntiparallelCounterexample | calculate_rmsd.py:819-821 | For v1 = (0, 1, 0) and v2 = (0, -1, 0), the matrix returned does not take v1 onto v2. |
| Rotation.AntiparallelTurnReverses | calculate_rmsd.py:819-821 | The corrected half turn is a proper rotation taking v1 to -v1. |
| Rotation.RotationMatrixVectorsCorrected | calculate_rmsd.py:817-821 | The corrected special cases answer if and only if v1 == v2 or v1 == -v2. |
| Rotation.RotationMatrixVectorsCorrectedAligns | calculate_rmsd.py:801-821 | Every corrected answer is a proper rotation that takes v1 onto v2, as the docstring promises. |
| Inertia.ElementsWeights | calculate_rmsd.py:41-69 | Every tabulated atomic mass is positive. |
| Inertia.Lower | calculate_rmsd.py:845 | `str.lower` maps each ASCII capital to its small letter and the Kelvin sign U+212A to `k`. It keeps every other character. |
| Inertia.KelvinSignIsPotassium | calculate_rmsd.py:45 | The label made of the Kelvin sign is known and weighs as much as "K". |
| Inertia.Masses | calculate_rmsd.py:845 | The weights list succeeds if and only if every label is in the table after lower-casing. Otherwise it fails on the first unknown label. |
| Inertia.CenterOfMass | calculate_rmsd.py:832-845 | `np.average` with mass weights succeeds if and only if every label is known and there are as many coordinates as labels, at least one. |
| Inertia.CenteredBalanced | calculate_rmsd.py:861 | The coordinates taken about the centre of mass have zero mass-weighted sum. |
| Inertia.GetInertiaTensor | calculate_rmsd.py:848-879 | The accumulator loop fails exactly when `get_cm` does, and with the same error. Otherwise it returns the tensor of the centred coordinates. |
| Inertia.AccumulateStep | calculate_rmsd.py:871-877 | Each of the six update expressions adds one atom's mass-weighted term. |
| Inertia.TensorSymmetric | calculate_rmsd.py:879 | The tensor is a symmetric 3x3 matrix. |
| Inertia.DiagonalNonNegative | calculate_rmsd.py:872-874 | With non-negative masses, the diagonal accumulators never go below zero. |
| Inertia.DiagonalTriangle | calculate_rmsd.py:872-874 | No diagonal entry exceeds the sum of the other two. |
| Inertia.InertiaTensorShape | calculate_rmsd.py:848-879 | The tensor is a symmetric 3x3 matrix with a non-negative diagonal that obeys the triangle inequality. |
| Quaternion.MakeW | calculate_rmsd.py:409-418 | `makeW` is a 4x4 matrix; its entries are the ones at lines 409-418, and what they mean is stated by `MakeWSkew` and `MakeWOrthogonal`. |
| Quaternion.MakeWSkew | calculate_rmsd.py:409-418 | `makeW(r)` is r4 times the identity plus an antisymmetric matrix. |
| Quaternion.MakeWOrthogonal | calculate_rmsd.py:409-418 | The columns of `makeW(r)` are orthogonal, each of squared length r1^2 + r2^2 + r3^2 + r4^2. |
| Quaternion.MakeQ | calculate_rmsd.py:421-430 | `makeQ` is a 4x4 matrix; its entries are the ones at lines 421-430, and what they mean is stated by `MakeQSkew` and `MakeQOrthogonal`. |
| Quaternion.MakeQSkew | calculate_rmsd.py:421-430 | `makeQ(r)` is r4 times the identity plus an antisymmetric matrix. |
| Quaternion.MakeQOrthogonal | calculate_rmsd.py:421-430 | The columns of `makeQ(r)` are orthogonal, each of squared length r1^2 + r2^2 + r3^2 + r4^2. |
| InputRules.AtomType | calculate_rmsd.py:1027-1039 | An accepted line has a third token that is not empty, and its type is one of H, C, N, O, S, P. |
| InputRules.AtomTypeSound | calculate_rmsd.py:1027-1039 | The line is accepted if and only if the third token starts with H, C, N, O, S or P or has H second. The type is always that letter. |
| InputRules.AtomTypeExamples | calculate_rmsd.py:1027-1039 | These cases hold: "CA" is carbon, "1HD1" is hydrogen, "ZN" is rejected, and a line without a third token is rejected. |
| InputRules.Split | calculate_rmsd.py:1192 | `split('.')` gives at least one piece, and no piece contains a dot. |
| InputRules.JoinSplit | calculate_rmsd.py:1192 | Joining the pieces with dots gives the name back. |
| InputRules.SplitJoin | calculate_rmsd.py:1192 | Splitting dot-free pieces joined with dots gives the pieces back. |
| InputRules.FormatFromName | calculate_rmsd.py:1191-1200 | The format holds a dot if and only if the name has at least three dot-separated pieces and the last one is "gz". |
| InputRules.FormatIsTail | calculate_rmsd.py:1191-1200 | The format has these properties. It is a tail of the name that starts right after a dot or is the whole name. It has no dot unless it is "x.gz". It is the whole name if and only if the name has no dot. |
| InputRules.FormatOfCompressed | calculate_rmsd.py:1196-1198 | "protein.pdb.gz" is read as "pdb.gz". |
| InputRules.FormatOfBareGz | calculate_rmsd.py:1199-1200 | "archive.gz" is read as "gz". |

## Left out

- The linear algebra is left out, because it calls foreign numerics. This covers `kabsch`, `kabsch_rmsd`, `kabsch_weighted`, `quaternion_rotate`, `rmsd`, `centroid` and the SVD, determinant and eigen calls. Scores enter as oracles: `seq<int> -> real` in the brute-force search, and in the reflection search a score per candidate and review that may raise (`None`). Raising stands for the `ValueError` of `kabsch_rmsd` and `rmsd` on p and q of different lengths. The model does not say when the oracle raises. `rotation_method` being `None` (plain `rmsd`) is one more choice of that oracle.
- `hungarian` is an oracle: `linear_sum_assignment` and `cdist` are foreign calls. Its only promise is one distinct column per row when there are no more rows than columns.
- `get_principal_axis`: its eigen-decomposition is not modelled. Its error (an unknown label in `get_cm`) is modelled. In `reorder_inertia_hungarian` the two rotated copies of q enter only through their two assignments and two RMSD values.
- The general (Rodrigues) branch of `rotation_matrix_vectors` is not modelled. It divides by the squared sine of a floating-point cross product. `RotationMatrixVectors` answers `None` there.
- Floating point is modelled by mathematical reals. NaN and infinite scores, rounding, `np.sqrt` and the underflow clamp are not modelled. A consequence: the first evaluated score always beats the initial `np.inf`, so `brute_permutation` never returns `None`.
- The coordinates of `check_reflections` are not carried through. The swap, the reflection, the centring and the reorder are seen through the oracles. The transform itself is modelled in `AxisTables.Transform` and proved to be the matrix the masks describe.
- In the alignment check `p_atoms == q_atoms[min_review]`, NumPy broadcasting of mismatched shapes is not modelled. Arrays of different lengths, including the broadcast of a length-one array, count as not aligned. `print` followed by `quit()` becomes the `NotAligned` error. A score that raises becomes the `ScoreRaised` error.
- A review entry outside q's index range makes `tmp_coord[tmp_review]` raise; the model turns that into `ReviewOutOfRange`. Negative entries are read the Python way: -1 is the last atom.
- `generate_permutations` yields the same list object each time. The model records a snapshot at every `yield`. That matches its only caller, `brute_permutation`, which scores each ordering before the generator resumes and deep-copies the one it keeps.
- `Argsorting.Argsort`: ties are placed in position order, i.e. a stable sort. NumPy's default `quicksort` does not promise an order among equal keys; every property proved here holds whatever the tie order.
- `np.unique` sorts the labels. The model visits them in any order, because the groups are disjoint and every order gives the same `view_reorder`.
- Atom labels are compared as strings. Lower-casing is modelled for the characters that can reach a key of the mass table: ASCII capitals and the Kelvin sign. Other characters are kept as they are. The only other character whose Python lower case starts with an ASCII letter is U+0130. It lowers to `i` followed by a combining dot, which matches no key either way.
- PDB lines are given already split into tokens: `str.split` and the rest of `get_coordinates_pdb` (coordinate columns, gzip, file reading) are I/O. The `exit` on a bad atom name becomes `None`.
- File reading, argparse, output formatting, `print`, `quit` and `exit` are left out, along with the rest of `main`: they are I/O and command-line plumbing.
- `Quaternion.MakeWOrthogonal` and `Quaternion.MakeQOrthogonal` state the Gram matrix one entry at a time, not as a single matrix identity.

## Findings

| source | as written | input that shows it | evidently intended | confidence | as-written member | corrected member |
|---|---|---|---|---|---|---|
| calculate_rmsd.py:819-821 | For opposite vectors, the rotation returned is always the half turn about the y axis, diag(-1, 1, -1). | v1 = (0, 1, 0), v2 = (0, -1, 0): the matrix leaves v1 at (0, 1, 0). | A half turn about an axis perpendicular to v1, which takes v1 onto v2 = -v1 as the docstring promises. | not executed | Rotation.AntiparallelCounterexample | Rotation.RotationMatrixVectorsCorrected |

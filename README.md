# sphecerix, modelled in Dafny

sphecerix builds the matrix representations of point-group symmetry
operations on a molecule's basis of atomic orbitals (real, or tesseral,
spherical harmonics). From these it derives symmetry-adapted molecular
orbitals with the projection operator of a character table. This project
models the core of that pipeline and proves properties of the model:

- `tesseral.dfy` (`Tesseral`): the unitary change of basis from complex to real spherical harmonics. Also the fixed permutation from the (y, z, x) order of the l = 1 harmonics to Cartesian order.
- `wignerd.dfy` (`WignerD`):
  - Wigner's small d-matrix, evaluated element by element by the explicit finite sum;
  - the full D-matrix diag(e^{i m gamma}) . d . diag(e^{i m alpha});
  - its real form Re(T D T^H).
- `rotations.dfy` (`Rotations`): the axis-angle rotation matrix, written as in the source: (1 - cos) a a^T + cos I + sin cross(a, -I).
- `basis_functions.dfy` (`BasisFunctions`) and `molecule.dfy` (`Molecules`): atoms stored in bohr, and the basis built by copying each species' template functions onto its atoms.
- `symmetry_operations.dfy` (`Symmetry`):
  - the five operation kinds (E, i, C, sigma, S) with their Cartesian matrices and per-shell blocks;
  - the engine's `add`;
  - `run`, which matches atoms under each operation, indexes the basis by (atom, n, l, m + l), and writes one dense transformation matrix per operation.
- `character_table.dfy` (`CharacterTables`) and `c3v.dfy` (`CharacterTableC3v`): the condensed and expanded character tables, the orthonormality check, `lot` (reduction of a representation into irreps) and the table look-ups. `c3v.dfy` works these out on the C3v table.
- `projection_operator.dfy` (`ProjectionOperators`):
  - `collect`: grouping of basis functions that the operations mix, and the irreps each group spans;
  - the projection operator;
  - `build_mos`, which lays the symmetry-adapted orbitals out row by row.
- `linear.dfy` (`LinearAlgebra`) and `wrappers.dfy` (`Wrappers`): 3-vectors, 3x3 matrices, complex numbers, matrices as sequences of rows, and `Option`/`Result`.

Numbers are exact reals. Transcendental values enter as parameters with the
one property the proofs need:

- 1/sqrt(2) is a real `h` with h > 0 and h * h = 1/2.
- The square root of the Wigner prefactor is `root: nat -> real`, with root(n) >= 0 and root(n)^2 = n.
- cos and sin of an angle are a pair `c`, `s`; orthogonality assumes c^2 + s^2 = 1.
- e^{i theta} is `cis: real -> Complex`.

Where a source routine fills a numpy array in a loop, the model is a method
over a Dafny array. Each such method is proved equal, entry by entry, to a
specification function, and the properties are proved about that function.
Most exceptions the source raises are modelled as a `false`, `None` or `Failure`
result. The few that a precondition excludes instead are listed under "Left out".

Two routines do less than their names may suggest, and the model does what the code does:

- `axis_angle_to_rotmat` (sphecerix/rotations.py:17-25) does not normalise its axis. The model does not either; orthogonality is proved for unit axes only.
- `collect` (sphecerix/projection_operator.py:33-43) groups the basis functions by the non-zero pattern of each row of the OR-ed operation matrices, then removes duplicate rows. It does not compute connected components, and the model keeps the per-row groups.

## Model

| member | source | states |
|---|---|---|
| Tesseral.TesseralTransformation | sphecerix/tesseral.py:5-31 | The double loop followed by T[l,l] = 1 yields a (2l+1)x(2l+1) array whose every entry follows the entry rule `Entry` |
| Tesseral.TesseralMatrix | sphecerix/tesseral.py:9 | The transformation as a value is square of size 2l+1 |
| Tesseral.SparsityPattern | sphecerix/tesseral.py:15-16 | Every entry with abs(m1) != abs(m2) is zero |
| Tesseral.CentreRow | sphecerix/tesseral.py:29 | Row m1 = 0 is the unit row: 1 at the centre, 0 elsewhere |
| Tesseral.NegativeRow | sphecerix/tesseral.py:18-22 | For m1 < 0 the row is purely imaginary: i/sqrt2 at m2 = m1, -(-1)^m1 i/sqrt2 at m2 = -m1, 0 elsewhere |
| Tesseral.PositiveRow | sphecerix/tesseral.py:23-27 | For m1 > 0 the row is real: 1/sqrt2 at m2 = -m1, (-1)^m1/sqrt2 at m2 = m1, 0 elsewhere |
| Tesseral.TableL1 | tests/test_tesseral.py:21-30 | For l = 1 the matrix equals the reference table |
| Tesseral.TableL2 | tests/test_tesseral.py:36-47 | For l = 2 the matrix equals the reference table |
| Tesseral.Unitary | sphecerix/tesseral.py:5-31 | T T^H = I for every l |
| Tesseral.PermutationIsOrthogonal | sphecerix/tesseral.py:40-44 | The permutation has exactly one 1 in each row and column, and P^T P = P P^T = I |
| WignerD.Fact4 | sphecerix/wignerd.py:57-60 | The product of four factorials is at least 1, so no denominator is zero |
| WignerD.ShellRange | sphecerix/wignerd.py:54-55 | For abs(m1), abs(m2) <= l, smin <= smax, so the sum is never empty |
| WignerD.PrefactorArguments | sphecerix/wignerd.py:57-60 | The four prefactor factorial arguments are natural numbers |
| WignerD.TermArguments | sphecerix/wignerd.py:64-67 | In the summation range, all four denominator arguments and both exponents are natural, and the exponents add up to 2l |
| WignerD.WignerDElement | sphecerix/wignerd.py:50-71 | The loop's result is sqrt(prefactor) times the sum of the terms s = smin..smax (`Element`) |
| WignerD.WignerSmallD | sphecerix/wignerd.py:38-48 | The filled array has entry (i, j) = d^l_{i-l, j-l}(beta) |
| WignerD.FillRow | sphecerix/wignerd.py:45-46 | The inner loop sets row i to the elements for m1 = i - l and leaves every other row unchanged |
| WignerD.SmallDEntry | sphecerix/wignerd.py:43-48 | Entry (i, j) of the matrix value is the element for m1 = i - l, m2 = j - l |
| WignerD.ElementAtZeroAngle | sphecerix/wignerd.py:50-71 | At beta = 0 the element is 1 when m1 = m2 and 0 otherwise |
| WignerD.ElementOnDiagonal | sphecerix/wignerd.py:57-71 | At beta = 0 the diagonal element is 1: the square-rooted prefactor cancels the single surviving denominator |
| WignerD.SmallDAtZeroAngle | sphecerix/wignerd.py:38-48 | d(0) is the identity |
| WignerD.SmallDOrderZero | sphecerix/wignerd.py:38-48 | For l = 0, d is [[1]] at every angle |
| WignerD.QuarterTurnCorners | tests/test_wignerd.py:47-54 | At beta = pi/2 with l = 1, the four corners are 1/2 |
| WignerD.QuarterTurnEdges | tests/test_wignerd.py:47-54 | At beta = pi/2 with l = 1, the edge entries are +-1/sqrt2 with the reference signs, and the centre is 0 |
| WignerD.PhasesEntry | sphecerix/wignerd.py:32-34 | Entry k of the phase diagonal is e^{i (k-l) angle} |
| WignerD.EulerDEntry | sphecerix/wignerd.py:26-36 | Entry (i, j) of D is e^{i m1 gamma} d_ij e^{i m2 alpha} |
| WignerD.EulerDZeroPhases | sphecerix/wignerd.py:33-36 | With alpha = gamma = 0 the phases drop out, and D equals d |
| WignerD.BigDAboutZ | tests/test_wignerd.py:21-28 | With beta = 0, D is diagonal with entries e^{i m gamma} e^{i m alpha} |
| WignerD.BigDAtZero | sphecerix/wignerd.py:26-36 | All three angles zero give D = I |
| WignerD.TesseralDOfIdentity | sphecerix/wignerd.py:16 | Re(T I T^H) = I, because T is unitary |
| WignerD.TesseralDAtZero | sphecerix/wignerd.py:16 | The identity rotation gives the identity real D-matrix |
| Rotations.CrossPartIsSkew | sphecerix/rotations.py:23 | cross(a, -I) is the skew matrix [a]x, which maps v to a x v |
| Rotations.RotationEntries | sphecerix/rotations.py:21-23 | The three-term sum equals the Rodrigues matrix entry by entry |
| Rotations.AxisX | tests/test_rotations.py:24-30 | About x the matrix is [[1,0,0],[0,c,-s],[0,s,c]] |
| Rotations.AxisY | tests/test_rotations.py:37-43 | About y the matrix is [[c,0,s],[0,1,0],[-s,0,c]] |
| Rotations.AxisZ | tests/test_rotations.py:50-56 | About z the matrix is [[c,-s,0],[s,c,0],[0,0,1]] |
| Rotations.ZeroAngle | sphecerix/rotations.py:21-23 | Angle zero (c = 1, s = 0) gives I for every axis |
| Rotations.ReverseIsTranspose | sphecerix/rotations.py:21-23 | The opposite angle (s negated) gives the transpose |
| Rotations.Orthogonal | sphecerix/rotations.py:21-23 | For a unit axis and c^2 + s^2 = 1, R R^T = I |
| Rotations.FixesAxis | sphecerix/rotations.py:21-23 | For a unit axis, R a = a at every angle |
| BasisFunctions.NewBasisFunction | sphecerix/basis_functions.py:7-12 | A new basis function sits at the origin, has no atom id, and keeps n, l, m |
| BasisFunctions.Place | sphecerix/molecule.py:45-47 | A placed copy has the atom's position and index, and keeps n, l, m |
| Molecules.ToBohrUnits | sphecerix/molecule.py:24-35 | Coordinates are accepted iff the unit is "bohr" or "angstrom"; bohr is kept; angstrom is scaled by 1.8897259886 and divides back exactly |
| Molecules.Molecule.constructor | sphecerix/molecule.py:10-14 | A new molecule has no atoms, no charges and no basis, and keeps its name |
| Molecules.Molecule.AddAtom | sphecerix/molecule.py:23-37 | Succeeds iff the unit is known. On success it appends the converted atom and a charge 0. On error atoms and charges are unchanged |
| Molecules.Molecule.BuildBasis | sphecerix/molecule.py:39-48 | The basis becomes the atoms' templates, placed in atom order; atoms, charges and name are unchanged |
| Molecules.ExpandLength | sphecerix/molecule.py:42-48 | The basis length is the sum of the template counts of the atoms' species |
| Molecules.ExpandPlacesTemplates | sphecerix/molecule.py:42-48 | Template k of atom i's species sits at offset(i) + k, placed on atom i |
| Molecules.ExpandEntryOrigin | sphecerix/molecule.py:42-48 | Every basis entry is some template of its atom's species placed on that atom |
| Molecules.ExpandAtomIdsSorted | sphecerix/molecule.py:47 | Every atom id is set and below the atom count, and ids never decrease along the basis |
| Symmetry.NormaliseUnit | sphecerix/symmetry_operations.py:117 | An axis divided by its Euclidean length is a unit vector (also used at line 147) |
| Symmetry.NewOperationKinds | sphecerix/symmetry_operations.py:18-34 | Exactly the five kind names are accepted, each giving a well-formed operation of that kind. Rotation and improper axes are unit; a mirror keeps its normal as given |
| Symmetry.Names | sphecerix/symmetry_operations.py:89-146 | The names are "E" and "i"; a rotation, mirror or improper rotation is named "C", "σ" or "S" followed by its label |
| Symmetry.MatrixKinds | sphecerix/symmetry_operations.py:92-106 | The identity's matrix is I and the inversion's is -I |
| Symmetry.IdentityAndInversionPoints | sphecerix/symmetry_operations.py:44 | Under the row-vector action, E fixes every point and i sends p to -p |
| Symmetry.IdentityAndInversionBlocks | sphecerix/symmetry_operations.py:95-109 | The shell-l block is I for E and (-1)^l I for i |
| Symmetry.WignerMatrix | sphecerix/symmetry_operations.py:95-157 | Every operation's block for shell l is square of size 2l+1 |
| Symmetry.MirrorSymmetric | sphecerix/symmetry_operations.py:135-136 | I - 2 n n^T is symmetric |
| Symmetry.MirrorImage | sphecerix/symmetry_operations.py:135-136 | A point p maps to p - 2 (p . n) n |
| Symmetry.MirrorFlipsNormal | sphecerix/symmetry_operations.py:135-136 | For a unit normal, n maps to -n and points in the plane stay fixed |
| Symmetry.MirrorInvolutive | sphecerix/symmetry_operations.py:135-136 | For a unit normal, reflecting twice is I |
| Symmetry.ImproperFlipsAxis | sphecerix/symmetry_operations.py:151-154 | If the rotation part fixes the unit axis, the improper rotation sends it to its negative |
| Symmetry.ImproperRodriguesFlipsAxis | sphecerix/symmetry_operations.py:147-154 | The same holds with the Rodrigues rotation about that axis |
| Symmetry.Positions | sphecerix/symmetry_operations.py:14-16 | Position i is atom i's coordinates |
| Symmetry.ImageIsLastMatch | sphecerix/symmetry_operations.py:46-50 | An atom's image is the last atom moved onto it within the 1e-5 tolerance, or 0 when none is |
| Symmetry.OnlySelfMatch | sphecerix/symmetry_operations.py:46-50 | An atom that only it lands on is its own image |
| Symmetry.IdentityImage | sphecerix/symmetry_operations.py:43-50 | Under E, with atoms farther apart than the tolerance, every atom is its own image |
| Symmetry.FindImage | sphecerix/symmetry_operations.py:46-50 | The scan over j computes the image |
| Symmetry.MatchAtoms | sphecerix/symmetry_operations.py:42-50 | The atomic transformation table holds the image of every atom under every operation |
| Symmetry.BuildLookup | sphecerix/symmetry_operations.py:53-55 | Succeeds iff every key fits the table. Each slot then holds the last basis function with that (atom, n, l, m+l) key, or -1 |
| Symmetry.LookupIsLast | sphecerix/symmetry_operations.py:54-55 | The lookup is the last index with the key, or -1 when none has it |
| Symmetry.LookupSlotsDistinct | sphecerix/symmetry_operations.py:53-55 | Two different filled slots of a shell hold different basis functions |
| Symmetry.LookupOwnKey | sphecerix/symmetry_operations.py:54-55 | With unique keys, every basis function is found at its own key |
| Symmetry.RowEntryScatter | sphecerix/symmetry_operations.py:69-73 | Column j of a scattered row holds coefficient c when slot c holds j, and 0 when no slot does |
| Symmetry.OpEntryScatter | sphecerix/symmetry_operations.py:59-73 | Row i of an operation matrix holds block column m+l in the columns of the image shell's functions, and 0 elsewhere |
| Symmetry.IdentityOperationMatrix | sphecerix/symmetry_operations.py:59-73 | With separated atoms and unique keys, E's operation matrix is the identity |
| Symmetry.ScatterRow | sphecerix/symmetry_operations.py:69-73 | Succeeds iff every slot of the image shell exists. The row then equals the scattered column; every other row is unchanged |
| Symmetry.ScatterBasisFunction | sphecerix/symmetry_operations.py:60-73 | Succeeds iff the function's shell is closed under the operation, and then writes its row |
| Symmetry.ScatterOperation | sphecerix/symmetry_operations.py:59-73 | Succeeds iff every shell is closed under the operation; then the whole matrix k is written and other matrices are unchanged |
| Symmetry.Scatter | sphecerix/symmetry_operations.py:58-73 | Succeeds iff every shell is closed under every operation; every entry of every matrix is then `OpEntry` |
| Symmetry.SymmetryOperations.constructor | sphecerix/symmetry_operations.py:9-16 | Copies the atom positions and starts with no operations |
| Symmetry.SymmetryOperations.Add | sphecerix/symmetry_operations.py:18-34 | Succeeds iff the kind is known and appends the new operation; an unknown kind leaves the list unchanged |
| Symmetry.SymmetryOperations.Run | sphecerix/symmetry_operations.py:36-73 | Succeeds iff there is a basis, every key fits and every shell is closed. Fills the atomic transformations and every operation matrix entry |
| CharacterTables.ExpandedRowUpTo | sphecerix/character_table.py:24-28 | The expanded row of the first classes has as many entries as those classes have operations |
| CharacterTables.ExpandedRowEntry | sphecerix/character_table.py:24-28 | Every position in class j's block of the expanded row holds class j's character |
| CharacterTables.OrderMonotone | sphecerix/character_table.py:15 | Partial sums of multiplicities never decrease, so class blocks are laid out in order |
| CharacterTables.ExpandedRows | sphecerix/character_table.py:21-28 | There is one expanded row per irrep, each of length the group order |
| CharacterTables.FillRow | sphecerix/character_table.py:22-28 | Writes irrep i's condensed and expanded rows and leaves every other entry unchanged |
| CharacterTables.CharacterTable.constructor | sphecerix/character_table.py:15-28 | The order is the sum of multiplicities, and both tables hold the characters as laid out |
| CharacterTables.Build | sphecerix/character_table.py:30-36 | A table is returned iff rows . rows^T / order is the identity within the default tolerance |
| CharacterTables.CharacterTable.Rows | sphecerix/character_table.py:21 | The stored expanded table, read row by row, is the expanded character rows |
| CharacterTables.CharacterTable.Lot | sphecerix/character_table.py:38-39 | lot returns round(row_i . traces / order) for every irrep i |
| CharacterTables.CharacterTable.GetLabelIrrep | sphecerix/character_table.py:41-42 | Returns irrep i's symbol |
| CharacterTables.CharacterTable.GetCharacter | sphecerix/character_table.py:44-45 | Returns the character of irrep i on the class that operation k belongs to |
| CharacterTables.RoundHalfEvenNearest | sphecerix/character_table.py:39 | np.round moves a value by at most 1/2 |
| CharacterTables.RoundHalfEvenInteger | sphecerix/character_table.py:39 | np.round leaves an integer unchanged |
| CharacterTables.RoundHalfEvenTie | sphecerix/character_table.py:39 | np.round sends a tie to the even neighbour |
| CharacterTables.LotOfExact | sphecerix/character_table.py:38-39 | When each row's dot product with the traces is exactly c_i times the order, lot returns c |
| CharacterTables.LotRecoversMultiplicities | sphecerix/character_table.py:38-39 | For an orthonormal table, lot of sum_i c_i chi_i is c (reduction inverts composition) |
| CharacterTables.DotCombination | sphecerix/character_table.py:39 | Orthogonality: row i dotted with sum_{j<k} c_j row_j is c_i times the order when i < k, else 0 |
| CharacterTables.OrthonormalIsAlmost | sphecerix/character_table.py:31-33 | An exactly orthonormal table passes the tolerance check |
| CharacterTableC3v.C3vRows | tests/test_character_table.py:18-20 | The C3v table is well shaped, has order 6, and expands to the stated rows |
| CharacterTableC3v.C3vOrthonormal | sphecerix/character_table.py:31-36 | The C3v table is exactly orthonormal |
| CharacterTableC3v.C3vLotOf | tests/test_character_table.py:22-24 | On C3v, exact dot products give back the multiplicities |
| CharacterTableC3v.C3vLotA1 | tests/test_character_table.py:22 | lot(1,1,1,1,1,1) = [1,0,0] |
| CharacterTableC3v.C3vLotA2 | tests/test_character_table.py:23 | lot(1,1,1,-1,-1,-1) = [0,1,0] |
| CharacterTableC3v.C3vLotE | tests/test_character_table.py:24 | lot(4,-2,-2,0,0,0) = [0,0,2] |
| ProjectionOperators.LinkedUpToIff | sphecerix/projection_operator.py:24-27 | Cell (i, j) of the OR-ed mask is set iff some operation has abs(m[i][j]) > 1e-9 |
| ProjectionOperators.OrMask | sphecerix/projection_operator.py:26-27 | One OR step sets exactly the cells where the new matrix is non-zero and keeps the rest |
| ProjectionOperators.GroupMatrix | sphecerix/projection_operator.py:24-27 | The mask built over all operations is `Linked` at every cell |
| ProjectionOperators.WhereSpec | sphecerix/projection_operator.py:35 | np.where lists exactly the set positions, in increasing order, as many as are set |
| ProjectionOperators.RowGroupMembers | sphecerix/projection_operator.py:33-38 | A row with several links groups exactly its linked columns in increasing order; any other row i gives [i] |
| ProjectionOperators.RowGroupOf | sphecerix/projection_operator.py:34-38 | The loop computes the row's group |
| ProjectionOperators.GroupOfRow | sphecerix/projection_operator.py:33-38 | Reading row i of the mask gives the group of row i |
| ProjectionOperators.DedupeSpec | sphecerix/projection_operator.py:41-43 | Duplicate removal keeps every group once, in first-occurrence order |
| ProjectionOperators.DedupeGroups | sphecerix/projection_operator.py:41-43 | The loop removes duplicates as specified |
| ProjectionOperators.CollectedGroupsSpec | sphecerix/projection_operator.py:32-43 | Every row's group is collected, every collected group is some row's group, and all indices are in range |
| ProjectionOperators.GroupsOf | sphecerix/projection_operator.py:23-43 | The method yields the collected groups |
| ProjectionOperators.TraceOfIdentity | sphecerix/projection_operator.py:48 | The partial trace of a unit-diagonal matrix over a group is the group size |
| ProjectionOperators.GroupTraces | sphecerix/projection_operator.py:48 | There is one partial trace per operation |
| ProjectionOperators.IrrepsOf | sphecerix/projection_operator.py:46-49 | There is one multiplicity list per group, with one entry per irrep |
| ProjectionOperators.ProjectionIsDot | sphecerix/projection_operator.py:96-98 | Component c of the projection is sum_k chi_k m_k[bf][c] |
| ProjectionOperators.ProjectionOutside | sphecerix/projection_operator.py:96-98 | A component that no operation reaches from bf is 0 |
| ProjectionOperators.TruncToIntSpec | sphecerix/projection_operator.py:69 | int() truncates toward zero |
| ProjectionOperators.TruncOfInteger | sphecerix/projection_operator.py:69 | int() leaves an integer value unchanged |
| ProjectionOperators.TimesIsProduct | sphecerix/projection_operator.py:69 | The seed count's product, computed by repeated addition, is c times d |
| ProjectionOperators.BlockShape | sphecerix/projection_operator.py:67-87 | A block succeeds iff 1 <= int(c * dim) <= group size. It then has that many rows of length n. One seed is kept; several are orthonormalised together |
| ProjectionOperators.GroupStepLayout | sphecerix/projection_operator.py:59-87 | A successful group extends the rows already written by exactly sum of int(c * dim) rows, each of length n, within n |
| ProjectionOperators.GroupStepFails | sphecerix/projection_operator.py:61-87 | An error stops the loop: later irreps give the same error |
| ProjectionOperators.MoRowsLayout | sphecerix/projection_operator.py:57-87 | All orbitals fit in the n rows of the orbital matrix, n entries each |
| ProjectionOperators.MoRowsFails | sphecerix/projection_operator.py:60-87 | An error in one group is the result for all later groups |
| ProjectionOperators.WriteRows | sphecerix/projection_operator.py:82-87 | Copies the rows into consecutive rows from `start` and leaves the others |
| ProjectionOperators.OrbitalMatrix | sphecerix/projection_operator.py:57-58 | A fresh n x n matrix holds the orbitals in its first rows and zeros below |
| ProjectionOperators.ProjectionOperator.constructor | sphecerix/projection_operator.py:8-16 | Keeps the table and operation matrices, with no groups or irreps yet |
| ProjectionOperators.ProjectionOperator.Orbitals | sphecerix/projection_operator.py:57-87 | All orbitals, in order, or the first error; they fit in n rows of length n |
| ProjectionOperators.ProjectionOperator.Collect | sphecerix/projection_operator.py:18-49 | Sets the groups to the collected groups, and the irreps to lot of each group's partial traces |
| ProjectionOperators.ProjectionOperator.ApplyProjectionOperator | sphecerix/projection_operator.py:92-101 | Returns the normalised sum over operations of chi_j(k) times row bf of m_k |
| ProjectionOperators.ProjectionOperator.ProjectSeeds | sphecerix/projection_operator.py:69-73 | Projects the first `count` functions of the group onto irrep j |
| ProjectionOperators.ProjectionOperator.ComputeBlock | sphecerix/projection_operator.py:67-87 | Computes irrep j's block of the group, or its error |
| ProjectionOperators.ProjectionOperator.IrrepOrbitals | sphecerix/projection_operator.py:63-87 | Skips an absent irrep, otherwise appends its block, or fails when the rows would overflow |
| ProjectionOperators.ProjectionOperator.GroupOrbitals | sphecerix/projection_operator.py:61-87 | The loop over irreps computes the group's step function |
| ProjectionOperators.ProjectionOperator.AllOrbitals | sphecerix/projection_operator.py:60-87 | The loop over groups computes all orbitals or the first error |
| ProjectionOperators.ProjectionOperator.BuildMos | sphecerix/projection_operator.py:51-89 | Collects when no groups exist yet and keeps existing groups. Succeeds iff `Orbitals` does; the orbital matrix then holds the orbitals row by row, zero below |

## Left out

- `axis_angle_to_euler` (sphecerix/rotations.py:7-15) and every scipy `Rotation` object: the Euler angles and the rotation matrix an operation carries are inputs. So are the blocks `tesseral_wigner_D`, `tesseral_wigner_D_mirror` and `tesseral_wigner_D_improper` return for shells l = 0, 1, 2 (`Operation.rot`, `Operation.blocks`); their modules are not part of this model.
- `tesseral_wigner_D_axis_angle` and `wigner_D_axis_angle` (sphecerix/wignerd.py:8-24): thin wrappers over scipy's Euler angles. `TesseralD` models their final expression (line 16) for a given D-matrix.
- cos, sin, sqrt and e^{i theta} are parameters with their defining algebraic properties; angles themselves never appear. Floating-point rounding is not modelled: all arithmetic is exact.
- ProjectionOperators.TruncToInt: int() is modelled on exact reals, so a product such as 2 * 0.9999999 that rounds differently in floating point is not captured.
- ProjectionOperators.ProjectionOperator.ApplyProjectionOperator and ProjectionOperators.Block: division by the norm (projection_operator.py:101) is a parameter `normalise` that keeps lengths. The Löwdin orthogonalisation with `eigh` and `1/sqrt(e)` (lines 76-80) is a parameter `orth` that maps k rows to k rows. A zero-norm projection is not modelled.
- Symmetry.SymmetryOperations.Add: the axis norm is passed in as `norm`, with norm^2 = |vec|^2 and norm > 0. A zero rotation axis, which numpy divides into NaN, is excluded.
- Symmetry.SymmetryOperations.Run:
  - the model requires keys 0 <= m + l < 7, while numpy wraps a negative `m + bf.l` index around to the other end of the table;
  - a basis function with m > l, where `mvec[bf.m + bf.l]` raises, is a failed run;
  - after a failure the model does not keep the partly written matrices the source leaves behind.
- ProjectionOperators.ProjectionOperator.BuildMos: on failure the model's orbital matrix is all zeros, while the source stops with the rows written so far.
- Symmetry.SymmetryOperations.constructor: positions are a snapshot of the molecule's atoms taken at construction, as in the source; later `add_atom` calls are not seen.
- ProjectionOperators.ProjectionOperator: it holds the operation matrices as an immutable value, since `run` has finished before projection starts. The character table is the class above.
- `basis_function_transformations` (symmetry_operations.py:40) is allocated but never used, and `set_atomic_id` (lines 82-83) is never called; neither is modelled.
- CharacterTables.CharacterTable.constructor: reading the JSON file (character_table.py:12-14) is replaced by the parsed classes and irreps as arguments. When the check fails, `Build` returns None where the source prints a message and re-raises.
- CharacterTables.CharacterTable.Lot: requires a positive order. A table with no classes would make numpy divide by zero.
- CharacterTables.CharacterTable.Lot: requires one trace per operation (`|traces| == order`). With any other count the matrix product at character_table.py:39 raises ValueError; the model has no error result for it.
- CharacterTables.CharacterTable.constructor: requires `WellShaped`: no more classes than irreps, and at least one character per class in every irrep. Otherwise the assignment at character_table.py:25 raises IndexError; the model does not return an error for it.
- CharacterTables.Build: requires `WellShaped` like the constructor, so the IndexError at character_table.py:25 for a malformed table is not modelled as a `None` result.
- CharacterTables.CharacterTable.GetCharacter: requires an operation index below the order. numpy raises IndexError (character_table.py:45) beyond it and wraps negative indices; neither is modelled.
- ProjectionOperators.ProjectionOperator.Collect: requires at least one operation and exactly one matrix per operation of the table (`|mats| == ct.order > 0`). With no operations `operation_matrices[0]` raises IndexError (projection_operator.py:24), and with a different count the product in `lot` raises; neither error is modelled.
- ProjectionOperators.ProjectionOperator.BuildMos: has the same requirement `|mats| == ct.order > 0` as `Collect`, which it calls, so the same two errors are not modelled.
- ProjectionOperators.ProjectionOperator.ApplyProjectionOperator: requires no more matrices than the table has operations (`|mats| <= ct.order`). Beyond that, `get_character` raises IndexError at character_table.py:45; the model does not return an error for it.
- Symmetry.SymmetryOperations.Add: the label is a string, so the default `label=None` is not modelled. For a rotation, mirror or improper rotation, 'C', 'σ' or 'S' + None raises TypeError (symmetry_operations.py:116, 132, 146), and the model has no such failure.
- `Molecule.__str__`, `atomic_wave_functions.py`, `matrixplot.py`, the examples, `setup.py` and `versiontest.py`: output, plotting and packaging only.
- `Operation.get_matrix` of Rotation and Improper returns scipy's matrix. The model proves the improper axis flip for a Rodrigues rotation (`Symmetry.ImproperRodriguesFlipsAxis`), not for scipy's own.
- `Mirror` normals are not normalised (symmetry_operations.py:133), as in the source. The reflection properties are proved for unit normals only.

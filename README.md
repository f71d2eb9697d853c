# Rosetta bookkeeping cores, modelled in Dafny

This project models seven small, deterministic cores of the Rosetta
macromolecular modelling suite and proves properties of them:

- **fold trees from secondary structure** (`protocols/bootcamp/fold_tree_from_ss.cc`):
  - `identify_secondary_structure_spans` scans a DSSP string for maximal
    runs of `H` or `E`;
  - `calculate_ss_center` takes an unsigned midpoint;
  - `fold_tree_from_dssp_string` turns the spans into a fold tree, which is
    an edge list of peptide edges and numbered jumps.
- **dihedral-pattern helpers and the grid odometer of the ncbb
  `SecStructFinder`** (`protocols/ncbb/SecStructFinder.cc`);
- **the reduced-variable bookkeeping of `SecStructMinimizeMultiFunc`**
  (`protocols/ncbb/SecStructMinimizeMultiFunc.cc`): variables, the
  variable-to-torsion table, the variable↔DOF maps, and moving values and
  derivatives between variables and degrees of freedom (DOFs);
- **the amino-acid composition setup** (`core/scoring/methods/AACompositionEnergySetup.cc`):
  - property sets;
  - the `.comp` penalty-definition parser and its keyword rules;
  - the ten parallel tables it fills;
  - `check_data`.
- **patches** (`core/chemical/Patch.cc`):
  - tags;
  - base and patch names;
  - partitioning a patch file into header, selector and cases;
  - duplicate-free type lists;
  - `patched_name`;
  - the choice of the first successful case in `Patch::apply`.
- **`EMapVector`** (`core/scoring/EnergyMap.hh`): the fixed-size, 1-indexed
  array of energies per score type, with its in-place arithmetic;
- **the Monte Carlo loop of `BootCampMover::apply`**
  (`protocols/bootcamp/BootCampMover.cc`): the perturbation step, the
  accept counter, the running score and the final report.

## Modelling choices

Code that works by changing state stays imperative:

- `EMapVector` is a class over an `array<real>`;
- `Pose`, `BootCampMover`, `SecStructFinder`, `MinimizeMultiFunc`,
  `PropertiesSet`, `CompositionSetup` and `Patch` are classes whose methods
  update their fields;
- every loop of the source is a `while` loop with invariants.

Each such method is proved against a specification function, for example
`spans == Spans(ss)` or `Snapshot() == Append(old(Snapshot()), d)`. The
properties the source promises are then proved about those functions as
lemmas.

Code the model cannot see becomes a parameter:

| in the source | in the model |
|---|---|
| the DSSP string | the pose's `secStruct` |
| `numeric::random` | a draw sequence (`nat -> Draw`) |
| packing plus minimization | a size-keeping `relax` function |
| `MonteCarlo::boltzmann` | a `judge` function returning the accept flag and `last_score()` |
| the `PatchOperationFactory` | a `build` function |
| a case's selector test, the case's `apply` and `validate_residue_type` | a `Judge` |
| the minimizer map's DOF nodes | the torsion of each node, in order |
| the starting pose's DOFs | given values, one per node |

Other modelling choices:

- Values of type `Real` are Dafny `real`: exact, with no rounding.
- `Size` arithmetic is unbounded, except in `calculate_ss_center`. There the
  model writes out the 64-bit wrap-around (`SizeModulus` = 2^64), because the
  empty-loop case depends on it. The narrowing `int( strand_start ) == -1` in
  `identify_secondary_structure_spans` is not modelled (see
  `FoldTreeFromSs.IdentifySecondaryStructureSpans` under "Left out").
- Numbers on a line are read as libstdc++'s `>>` reads them: a `long` is a
  sign and digits; a `double` is a sign, digits with at most one point and an
  optional exponent, and it fails when the mantissa or the exponent has no
  digit. A PENALTIES line is read value after value to the end of the line,
  so one word may give several values.
- A failed `runtime_assert` or a thrown exception becomes an `Err` result or
  a `false` outcome.
- Undefined behaviour becomes `Err`:
  - `ss_bounds[1]` when there are no spans;
  - dividing by zero iterations, which becomes `None`.

Three behaviours of the code are worth stating outright:

- **The midpoint of an even-length range.** `calculate_ss_center`
  (`fold_tree_from_ss.cc:101-104`) computes `second - (second - first) / 2`,
  which is the UPPER of the two middles. `FoldTreeFromSs.CalculateSsCenter`
  proves `first + second <= 2 * center <= first + second + 1`.
- **The first span of the first unit-test string.** It is the run of `E` at
  residues 4–8 (`FoldTreeFromSS.cxxtest.hh:164-178`,
  `FoldTreeFixtures.DsspString1Spans`).
- **An empty loop between adjacent spans.** When one span ends right where
  the next begins, the unsigned subtraction in `fold_tree_from_ss.cc:73-76`
  wraps. The jump then goes to residue `second + 2^63 + 1`, far outside the
  pose (`FoldTreeShape.AdjacentSpansJumpOutside`).

## Model

| member | source | states |
|---|---|---|
| FoldTreeFromSs.RunEnd | source/src/protocols/bootcamp/fold_tree_from_ss.cc:110-124 | the end of the run starting at i: every residue before it repeats s[i], and the residue at the end (if any) differs |
| FoldTreeFromSs.RunEndAt | source/src/protocols/bootcamp/fold_tree_from_ss.cc:110-124 | any end position that has the run property is the one RunEnd finds |
| FoldTreeFromSs.IdentifySecondaryStructureSpans | source/src/protocols/bootcamp/fold_tree_from_ss.cc:106-135 | the strand_start scan returns exactly the span list `Spans(ss)`, whose properties are the lemmas below |
| FoldTreeFromSs.SpansOrdered | source/src/protocols/bootcamp/fold_tree_from_ss.cc:106-135 | every span satisfies 1 ≤ first ≤ second ≤ \|ss\|, and spans are strictly increasing and disjoint |
| FoldTreeFromSs.SpansAreMaximalRuns | source/src/protocols/bootcamp/fold_tree_from_ss.cc:110-124 | every residue of a span is H or E and equals the span's first letter, and a span cannot be extended on either side |
| FoldTreeFromSs.SpansCover | source/src/protocols/bootcamp/fold_tree_from_ss.cc:110-128 | a residue lies in some span if and only if its letter is H or E |
| FoldTreeFromSs.SpansSwitchLetter | source/src/protocols/bootcamp/fold_tree_from_ss.cc:114-116 | when a span is followed directly by an H or E residue (a switch of letter with no gap), the next span starts at the previous end + 1 |
| FoldTreeFromSs.CalculateSsCenter | source/src/protocols/bootcamp/fold_tree_from_ss.cc:101-104 | for first ≤ second the center lies in [first, second] and is the upper middle (first + second ≤ 2·center ≤ first + second + 1) |
| FoldTreeFromSs.EmptyLoopCenter | source/src/protocols/bootcamp/fold_tree_from_ss.cc:73-75 | for an empty loop (first = second + 1) the unsigned subtraction wraps and the center is second + 2^63 + 1 |
| FoldTreeFromSs.Outward | source/src/protocols/bootcamp/fold_tree_from_ss.cc:78-83 | a peptide edge from a midpoint is added for each endpoint that differs from the midpoint, and only then |
| FoldTreeFromSs.SpansFitSize | source/src/protocols/bootcamp/fold_tree_from_ss.cc:106-128 | for a string shorter than 2^64 - 1 all spans (and their loop ends) fit in a Size |
| FoldTreeFromSs.GroupAppended | source/src/protocols/bootcamp/fold_tree_from_ss.cc:72-96 | the edges one loop iteration appends, in order, are the span's group: loop jump, loop peptides, span jump, span peptides |
| FoldTreeFromSs.AddSpanGroup | source/src/protocols/bootcamp/fold_tree_from_ss.cc:72-96 | one iteration for span i appends that span's edge group and advances the jump counter by two |
| FoldTreeFromSs.FoldTreeFromDsspString | source/src/protocols/bootcamp/fold_tree_from_ss.cc:52-99 | the builder fails exactly when the string has no span; otherwise it returns the fold tree of the spans (root peptides, then one group per later span) |
| FoldTreeShape.Interval | source/src/protocols/bootcamp/fold_tree_from_ss.cc:78-96 | the residues a peptide edge between lo and hi covers: exactly lo..hi |
| FoldTreeShape.OutwardGrows | source/src/protocols/bootcamp/fold_tree_from_ss.cc:78-83 | the peptide edges out of a placed midpoint reach each residue of the range once and add no jump |
| FoldTreeShape.JumpThenOutward | source/src/protocols/bootcamp/fold_tree_from_ss.cc:76-83 | a jump from the root to a new midpoint followed by its peptide edges reaches exactly the new range, with one jump label |
| FoldTreeShape.SpanGroupGrows | source/src/protocols/bootcamp/fold_tree_from_ss.cc:72-96 | the group for span i extends the reached residues from 1..end(i-1) to 1..end(i), entering each residue once, with jump labels 2i-1 then 2i |
| FoldTreeShape.GroupsGrow | source/src/protocols/bootcamp/fold_tree_from_ss.cc:69-97 | the groups for spans 2..n reach residues 1..end(n) from the first span, each residue entered once |
| FoldTreeShape.GroupsLabels | source/src/protocols/bootcamp/fold_tree_from_ss.cc:69-97 | the jump labels of groups 2..n are 1..2(n-1) in order |
| FoldTreeShape.FoldTreeIsTree | source/src/protocols/bootcamp/fold_tree_from_ss.cc:52-99 | with spans separated by at least one coil residue, the edges form a fold tree over residues 1..end of the last span rooted at the first span's center, and the jump labels are 1..2(k-1) in order |
| FoldTreeShape.FoldTreeReaches | source/src/protocols/bootcamp/fold_tree_from_ss.cc:59-97 | the edges, in order, enter every residue of 1..end of the last span exactly once, each from an already reached residue, never entering the root |
| FoldTreeShape.FoldTreeLabels | source/src/protocols/bootcamp/fold_tree_from_ss.cc:69-97 | exactly 2(k-1) jumps, labelled 1..2(k-1) in construction order |
| FoldTreeShape.FoldTreeParents | source/src/protocols/bootcamp/fold_tree_from_ss.cc:52-99 | in such a tree no residue is entered twice, the root is never entered, every other residue in 1..n has an incoming edge, and all edge ends are in 1..n |
| FoldTreeShape.GroupsCount | source/src/protocols/bootcamp/fold_tree_from_ss.cc:69-97 | with spans and loops of length ≥ 3, each later span contributes six edges |
| FoldTreeShape.EdgeCount | source/src/protocols/bootcamp/fold_tree_from_ss.cc:61-97 | with spans and loops of length ≥ 3, k spans give 6k - 4 edges |
| FoldTreeShape.AdjacentSpansJumpOutside | source/src/protocols/bootcamp/fold_tree_from_ss.cc:73-76 | when two spans touch (H directly followed by E), the loop jump targets residue end + 2^63 + 1, outside every pose |
| FoldTreeShape.NoDirectSwitchSeparated | source/src/protocols/bootcamp/fold_tree_from_ss.cc:110-124 | if H and E never touch, consecutive spans are separated by at least one residue |
| FoldTreeShape.TrailingCoil | source/src/protocols/bootcamp/fold_tree_from_ss.cc:125-128 | every residue after the last span's end is coil (that no edge reaches them is stated by DsspFoldTree and FoldTreeParents) |
| FoldTreeShape.DsspFoldTree | source/src/protocols/bootcamp/fold_tree_from_ss.cc:52-128 | for any DSSP string with a span and no direct H/E switch, the builder's edges form a fold tree over 1..end of the last span, and the residues after it are coil that no edge reaches |
| FoldTreeFixtures.SpansSplit | source/src/protocols/bootcamp/fold_tree_from_ss.cc:110-128 | cutting a DSSP string where no run continues cuts its span list at the same place (shifted by the prefix length) |
| FoldTreeFixtures.DsspString1Spans | source/test/protocols/bootcamp/FoldTreeFromSS.cxxtest.hh:164-178 | the first fixture string has the 7 spans 4-8, 12-19, 22-26, 36-41, 45-55, 58-62, 65-68 |
| FoldTreeFixtures.DsspString2Spans | source/test/protocols/bootcamp/FoldTreeFromSS.cxxtest.hh:165-179 | the second fixture string has 7 spans (adjacent H and E runs split) |
| FoldTreeFixtures.DsspString3Spans | source/test/protocols/bootcamp/FoldTreeFromSS.cxxtest.hh:166-180 | the third fixture string has 9 spans |
| FoldTreeFixtures.TestDsspSpans | source/test/protocols/bootcamp/FoldTreeFromSS.cxxtest.hh:191-193 | the fold-tree test string has the 7 spans 4-10, 15-21, 31-39, 44-53, 57-62, 72-80, 90-94 |
| FoldTreeFixtures.TestDsspFoldTree | source/test/protocols/bootcamp/FoldTreeFromSS.cxxtest.hh:191-195 | the test string's fold tree has 38 edges, root 7, and is a fold tree over residues 1..94 |
| SecStructFinding.AlphaToBeta | source/src/protocols/ncbb/SecStructFinder.cc:164-208 | every result is "B3" followed by one letter |
| SecStructFinding.AlphaToBetaListed | source/src/protocols/ncbb/SecStructFinder.cc:164-206 | each of the 20 listed three-letter codes maps to "B3" plus its one-letter code |
| SecStructFinding.AlphaToBetaUnlisted | source/src/protocols/ncbb/SecStructFinder.cc:207 | any other input maps to "B3A" |
| SecStructFinding.ExpandPatternToFit | source/src/protocols/ncbb/SecStructFinder.cc:210-225 | for length < \|p\| the result is the suffix p[length..]; otherwise it has exactly length letters and cycles through p (r[i] = p[i mod \|p\|]) |
| SecStructFinding.CyclesAt | source/src/protocols/ncbb/SecStructFinder.cc:217-222 | in a cycled pattern, letter k is p[k mod \|p\|] |
| SecStructFinding.FirstOccurrencesProperties | source/src/protocols/ncbb/SecStructFinder.cc:227-246 | the unique letters are pairwise distinct, exactly the letters of the pattern, and listed in first-occurrence order |
| SecStructFinding.CountUniqChar | source/src/protocols/ncbb/SecStructFinder.cc:227-246 | num is the number of letters put in uniqs (at least one); for a non-empty pattern uniqs is the first-occurrence list, for an empty one the single '\0' read at pattern[0] |
| SecStructFinding.WeightSumOfClassPattern | source/src/protocols/ncbb/SecStructFinder.cc:306-328 | with a class pattern of A, P and B letters, each unique letter weighs 2 or 3, so the count lies between 2\|uniqs\| and 3\|uniqs\| |
| SecStructFinding.SecStructFinder.GetNumberDihedrals | source/src/protocols/ncbb/SecStructFinder.cc:306-328 | the count is the sum over unique letters of the weight at their first occurrence: 2 for A or P, 3 for B, 0 otherwise |
| SecStructFinding.SecStructFinder.AddWeight | source/src/protocols/ncbb/SecStructFinder.cc:313-325 | the inner scan adds the weight of the letter's first occurrence and stops there |
| SecStructFinding.SecStructFinder.GiveDihedralIndex | source/src/protocols/ncbb/SecStructFinder.cc:330-354 | the index of letter n is 1 plus the weights of letters 1..n-1 |
| SecStructFinding.DihedralIndexEnds | source/src/protocols/ncbb/SecStructFinder.cc:330-354 | give_dihedral_index(1) = 1 and give_dihedral_index(\|uniqs\|+1) = get_number_dihedrals + 1 |
| SecStructFinding.DihedralSlots | source/src/protocols/ncbb/SecStructFinder.cc:330-354 | the slots of the letters do not overlap and all lie within 1..get_number_dihedrals |
| SecStructFinding.UniqRefersToBeta | source/src/protocols/ncbb/SecStructFinder.cc:248-259 | as written: the scan runs from position 1 to the length inclusive and answers for the first match there |
| SecStructFinding.RefersToBetaSkipsFirstPosition | source/src/protocols/ncbb/SecStructFinder.cc:252-255 | for dihedral "AB" and class "BA", letter A is a beta (weight 3) at position 0, but the as-written scan reports it as not beta |
| SecStructFinding.RefersToBetaAgreesWithWeight | source/src/protocols/ncbb/SecStructFinder.cc:248-259 | the scan from position 0 says beta exactly when the letter weighs 3, and not beta exactly when it weighs 2 |
| SecStructFinding.SecStructFinder.Default | source/src/protocols/ncbb/SecStructFinder.cc:103-122 | the default settings: ALA, lengths 5, bin 10, dump -10000, dihedrals -180..180, patterns "AAAAA", dissimilarity 10 |
| SecStructFinding.SecStructFinder.Full | source/src/protocols/ncbb/SecStructFinder.cc:124-162 | construction keeps the arguments but clamps max_length ≥ min_length, dihedral_max ≥ dihedral_min and dissimilarity ≥ bin_size; each pattern becomes its suffix after min_length letters when longer than min_length, and otherwise the pattern repeated to min_length letters |
| SecStructFinding.SecStructFinder.ParseMyTag | source/src/protocols/ncbb/SecStructFinder.cc:717-782 | each option takes the tag's value or its default, then the length and dissimilarity clamps are applied again; each pattern (the tag's or "A") becomes its suffix after min_length letters when longer, and otherwise the pattern repeated to min_length letters |
| DihedralOdometer.DigitsInjective | source/src/protocols/ncbb/SecStructFinder.cc:636-641 | two counter values below k^n never give the same tuple of bin counts |
| DihedralOdometer.DigitsSurjective | source/src/protocols/ncbb/SecStructFinder.cc:636-641 | every tuple of bin counts below k is the tuple of some counter value below k^n |
| DihedralOdometer.DigitsSucc | source/src/protocols/ncbb/SecStructFinder.cc:636-641 | adding one to the counter resets the low digits at k-1 to 0, raises the next digit by one and keeps the rest |
| DihedralOdometer.Advance | source/src/protocols/ncbb/SecStructFinder.cc:636-641 | one turn of the odometer (bump the first entry, carry every entry at max back to min) takes the grid point of counter t to that of t + 1 |
| DihedralOdometer.EnumerateDihedralGrid | source/src/protocols/ncbb/SecStructFinder.cc:526-530 | starting at all-min, the loop visits exactly k^n tuples, the t-th being the grid point of t's bin counts: every grid tuple once, in counter order |
| DihedralOdometer.GridPointOnGrid | source/src/protocols/ncbb/SecStructFinder.cc:526-530 | every visited entry is one of min, min + bin, …, max - bin |
| SecStructMinimize.Width | source/src/protocols/ncbb/SecStructMinimizeMultiFunc.cc:83 | with the corrected beta test (scan from position 0), each unique letter owns three variables when it refers to beta and two otherwise |
| SecStructMinimize.Starters | source/src/protocols/ncbb/SecStructMinimizeMultiFunc.cc:76-84 | with the corrected beta test, starters[i] is 1 plus the widths of the letters before i |
| SecStructMinimize.CountVars | source/src/protocols/ncbb/SecStructMinimizeMultiFunc.cc:86-93 | with the corrected beta test, nvar_ is the sum of the widths |
| SecStructMinimize.StartersTile | source/src/protocols/ncbb/SecStructMinimizeMultiFunc.cc:79-93 | the letters' variable blocks tile 1..nvar_: each block ends just before the next starter, and the last ends at nvar_ |
| SecStructMinimize.WidthSumBounds | source/src/protocols/ncbb/SecStructMinimizeMultiFunc.cc:86-93 | nvar_ lies between 2 and 3 per unique letter |
| SecStructMinimize.WidthSumIsDihedralCount | source/src/protocols/ncbb/SecStructMinimizeMultiFunc.cc:86-93 | with an A/P/B class pattern and the corrected beta test, nvar_ equals the finder's get_number_dihedrals; the as-written nvar_ does not (AsWrittenVarCountDiffers) |
| SecStructMinimize.AsWrittenVarCountDiffers | source/src/protocols/ncbb/SecStructMinimizeMultiFunc.cc:79-93 | as written, dihedral "AB" with class "BA" gives starters [1, 3] and nvar_ 4 while get_number_dihedrals is 5; the corrected widths give [1, 4] and 5 |
| SecStructMinimize.TorsionTable | source/src/protocols/ncbb/SecStructMinimizeMultiFunc.cc:96-119 | a torsion is listed under a variable exactly when that variable drives it: torsions 1 and 2 of every residue of the letter, and torsion 3 where the class letter is B |
| SecStructMinimize.TableUnique | source/src/protocols/ncbb/SecStructMinimizeMultiFunc.cc:96-119 | no torsion is listed under two variables |
| SecStructMinimize.FindTorsion | source/src/protocols/ncbb/SecStructMinimizeMultiFunc.cc:306-317 | the scan over a variable's torsions finds the node's torsion exactly when it is listed |
| SecStructMinimize.MatchingDofsMembers | source/src/protocols/ncbb/SecStructMinimizeMultiFunc.cc:298-318 | a DOF position is matched to a variable exactly when its node's torsion is one of the variable's |
| SecStructMinimize.ClaimDof | source/src/protocols/ncbb/SecStructMinimizeMultiFunc.cc:301-318 | one pass over the variables for a DOF node: every variable driving the node records the DOF index, and the index maps back to the last such variable |
| SecStructMinimize.MinimizeMultiFunc.GetDofsMap | source/src/protocols/ncbb/SecStructMinimizeMultiFunc.cc:287-321 | as written: every variable records DOF index 1 once per node it drives, and the DOF-to-var map holds at most key 1 |
| SecStructMinimize.AsWrittenExampleLists | source/src/protocols/ncbb/SecStructMinimizeMultiFunc.cc:296-314 | with two nodes driven by variables 1 and 2, the as-written lists are 1 ↦ [1] and 2 ↦ [1] |
| SecStructMinimize.AsWrittenMapBreaksRoundTrip | source/src/protocols/ncbb/SecStructMinimizeMultiFunc.cc:224-262 | writing variables (1.0, 2.0) through those lists and reading variable 1 back gives 2.0, not 1.0 |
| SecStructMinimize.MinimizeMultiFunc.GetDofsMapNumbered | source/src/protocols/ncbb/SecStructMinimizeMultiFunc.cc:287-321 | corrected: each variable lists the positions of the nodes it drives, and each position maps back to the last variable driving it |
| SecStructMinimize.NumberedListsValid | source/src/protocols/ncbb/SecStructMinimizeMultiFunc.cc:287-321 | the corrected lists address the DOF vector, and only variables 1..nvar_ with at least one DOF are listed |
| SecStructMinimize.NumberedListsDisjoint | source/src/protocols/ncbb/SecStructMinimizeMultiFunc.cc:287-321 | when no torsion is shared, no DOF is listed under two variables |
| SecStructMinimize.MinimizeMultiFunc.constructor | source/src/protocols/ncbb/SecStructMinimizeMultiFunc.cc:59-123 | the constructor sets nvar_, the torsion table, the corrected variable↔DOF maps and the starting DOFs, with no DOF shared between variables |
| SecStructMinimize.MinimizeMultiFunc.VarsToDofs | source/src/protocols/ncbb/SecStructMinimizeMultiFunc.cc:224-241 | the result is the starting DOFs with each variable in turn written over its DOFs |
| SecStructMinimize.ImposeUntouched | source/src/protocols/ncbb/SecStructMinimizeMultiFunc.cc:227-237 | a DOF no variable lists keeps its starting value |
| SecStructMinimize.ImposeLastWriter | source/src/protocols/ncbb/SecStructMinimizeMultiFunc.cc:229-237 | a DOF shared by several variables ends with the value of the last one |
| SecStructMinimize.MinimizeMultiFunc.DofsToVars | source/src/protocols/ncbb/SecStructMinimizeMultiFunc.cc:243-262 | nvar_ values: a variable with DOFs gets their mean, any other gets 0 |
| SecStructMinimize.DofMeanInvertsImpose | source/src/protocols/ncbb/SecStructMinimizeMultiFunc.cc:224-262 | with no DOF shared, reading the variables back from the DOFs they were written to gives the variables again |
| SecStructMinimize.NumberedRoundTrip | source/src/protocols/ncbb/SecStructMinimizeMultiFunc.cc:224-321 | with the corrected map and no shared torsion, dofs_to_vars after vars_to_dofs returns each mapped variable's value |
| SecStructMinimize.MinimizeMultiFunc.DEddofsToDEdvars | source/src/protocols/ncbb/SecStructMinimizeMultiFunc.cc:264-285 | nvar_ derivatives: a variable with DOFs gets the sum of their derivatives, any other gets 0 |
| SecStructMinimize.DofSumIsScaledMean | source/src/protocols/ncbb/SecStructMinimizeMultiFunc.cc:258-281 | the derivative is the mean scaled by the number of DOFs, because the division is commented out |
| Text.WordEnd | source/src/core/chemical/Patch.cc:217-223 | the end of the word starting at i: no whitespace inside, whitespace or the end of the line after |
| Text.Words | source/src/core/chemical/Patch.cc:217-223 | the words `>>` extracts from a line, each non-empty and free of whitespace |
| Text.FirstWord | source/src/core/chemical/Patch.cc:217-223 | the first whitespace-delimited word of a line is empty exactly when the line is blank |
| Text.WordsBlank | source/src/core/chemical/Patch.cc:217-223 | a line has no words exactly when every character is whitespace |
| Text.FirstWordOf | source/src/core/chemical/Patch.cc:217-223 | a word preceded only by whitespace and followed by whitespace or the end is the line's first word |
| Text.ReadLong | source/src/core/scoring/methods/AACompositionEnergySetup.cc:425-434 | `>> long` succeeds exactly when a digit follows the optional sign; a negative value needs a leading minus |
| Text.ReadRealPrefix | source/src/core/scoring/methods/AACompositionEnergySetup.cc:444-448 | `>> double` reads a non-empty numeral free of blanks and not followed by a digit; a mantissa or an exponent without a digit fails |
| Text.ReadExponent | source/src/core/scoring/methods/AACompositionEnergySetup.cc:444-448 | an exponent is a mark, an optional sign and at least one digit, with no blank and no digit after it |
| Text.ReadReal | source/src/core/scoring/methods/AACompositionEnergySetup.cc:438-442 | a word that reads entirely as one numeral is a word (non-empty, no blanks) |
| Text.SpaceEnd | source/src/core/scoring/methods/AACompositionEnergySetup.cc:439 | the white space `>>` skips before a value: blanks up to the first non-blank or the end |
| Text.KeywordEnd | source/src/core/scoring/methods/AACompositionEnergySetup.cc:393-396 | the read position after the keyword lies within the line |
| Text.KeywordEndOf | source/src/core/scoring/methods/AACompositionEnergySetup.cc:393-396 | the characters between the skipped blanks and that position are exactly the first word Words reads |
| Text.RealsToEnd | source/src/core/scoring/methods/AACompositionEnergySetup.cc:435-443 | the eof loop of a PENALTIES line reads no value exactly at the end of the line, and fails on trailing white space |
| Text.ReadRealPrefixBeforeBlank | source/src/core/scoring/methods/AACompositionEnergySetup.cc:438-442 | a numeral followed by a blank or the end reads the same as the numeral alone |
| Text.RealsToEndRead | source/src/core/scoring/methods/AACompositionEnergySetup.cc:438-442 | one successful extraction gives its value, then the loop goes on after the numeral |
| Text.RealsToEndNumeral | source/src/core/scoring/methods/AACompositionEnergySetup.cc:435-443 | when the rest of the line starts with blanks and a whole-numeral word, that word gives the next value and reading resumes after it |
| Text.TwoValuesInOneWord | source/src/core/scoring/methods/AACompositionEnergySetup.cc:438-442 | the word "1-2" gives the two values 1 and -2 |
| Text.TwoValuesFromPoints | source/src/core/scoring/methods/AACompositionEnergySetup.cc:438-442 | the word "0.5.5" gives the two values 0.5 and 0.5: one numeral takes at most one point |
| Text.ExponentWithoutDigitsFails | source/src/core/scoring/methods/AACompositionEnergySetup.cc:438-442 | "1e" fails as a double, and so does a PENALTIES line holding it |
| Text.TrailingBlankFails | source/src/core/scoring/methods/AACompositionEnergySetup.cc:438-440 | a blank after the last value makes one more extraction fail |
| AACompositionDefinitions.NonEmpty | source/src/core/scoring/methods/AACompositionEnergySetup.cc:119-121 | the names kept are exactly the non-empty ones |
| AACompositionDefinitions.Record | source/src/core/scoring/methods/AACompositionEnergySetup.cc:399-405 | only a TYPE line sets the type code, to the word after TYPE; every other line leaves it as it was |
| AACompositionDefinitions.RecordFound | source/src/core/scoring/methods/AACompositionEnergySetup.cc:399-458 | a readable keyword line marks its own keyword as found and leaves the found flag of every other keyword as it was |
| AACompositionDefinitions.StepOk | source/src/core/scoring/methods/AACompositionEnergySetup.cc:392-458 | a line is accepted exactly when its arguments parse and its keyword is neither found already nor in conflict |
| AACompositionDefinitions.ScanAllFound | source/src/core/scoring/methods/AACompositionEnergySetup.cc:366-458 | after a successful scan a keyword is marked found exactly when some line starts with it |
| AACompositionDefinitions.ScanAllOk | source/src/core/scoring/methods/AACompositionEnergySetup.cc:392-458 | the block's lines are accepted exactly when each keyword starts at most one line, TYPE excludes PROPERTIES and NOT_PROPERTIES, FRACTION excludes ABSOLUTE, and every keyword line parses |
| AACompositionDefinitions.DefinitionRequires | source/src/core/scoring/methods/AACompositionEnergySetup.cc:461-464 | an accepted block has TYPE or a properties line, DELTA_START and DELTA_END, PENALTIES, and exactly one of FRACTION and ABSOLUTE |
| AACompositionDefinitions.TypeDefinitionAccepted | source/src/core/scoring/methods/AACompositionEnergySetup.cc:399-478 | conversely, a block meeting those rules with a TYPE line is accepted as a type definition |
| AACompositionDefinitions.DefinitionValues | source/src/core/scoring/methods/AACompositionEnergySetup.cc:403-456 | a type code has 1-3 letters; FRACTION gives fraction ≥ 0 and absolute -1, ABSOLUTE gives absolute ≥ 0 and fraction 0; a property block has duplicate-free property lists |
| AACompositionDefinitions.IgnoredLine | source/src/core/scoring/methods/AACompositionEnergySetup.cc:392-458 | a line that starts with no keyword does not change the result |
| AACompositionDefinitions.ParseAll | source/src/core/scoring/methods/AACompositionEnergySetup.cc:350 | one definition per block |
| AACompositionDefinitions.BlocksArePlain | source/src/core/scoring/methods/AACompositionEnergySetup.cc:337-356 | the lines passed on for a block are never block markers |
| AACompositionDefinitions.BlocksOfRender | source/src/core/scoring/methods/AACompositionEnergySetup.cc:330-359 | wrapping blocks of plain lines in PENALTY_DEFINITION / END_PENALTY_DEFINITION and splitting the result gives the blocks back |
| AACompositionDefinitions.UnterminatedBlockDropped | source/src/core/scoring/methods/AACompositionEnergySetup.cc:342-356 | a final block with no END_PENALTY_DEFINITION is dropped without error |
| AACompositionDefinitions.NestedBlockRejected | source/src/core/scoring/methods/AACompositionEnergySetup.cc:348 | a PENALTY_DEFINITION inside a block is an error |
| AACompositionDefinitions.BlockErrPersists | source/src/core/scoring/methods/AACompositionEnergySetup.cc:350 | a malformed block makes the whole file fail |
| AACompositionDefinitions.ScanIgnores | source/src/core/scoring/methods/AACompositionEnergySetup.cc:392-458 | a line starting with no keyword does not change the keyword scan |
| AACompositionDefinitions.ScanAllValues | source/src/core/scoring/methods/AACompositionEnergySetup.cc:399-458 | every successful scan holds values meeting the keyword rules (type code length, non-negative FRACTION and ABSOLUTE) |
| AACompositionDefinitions.SplitErrPersists | source/src/core/scoring/methods/AACompositionEnergySetup.cc:342-356 | once a prefix of the file is malformed, the whole file is |
| AACompositionDefinitions.SplitRunKeepsBlocks | source/src/core/scoring/methods/AACompositionEnergySetup.cc:337-356 | blocks already collected are never lost by later lines |
| AACompositionDefinitions.ParseAllErrPersists | source/src/core/scoring/methods/AACompositionEnergySetup.cc:350 | once one collected block is malformed, any longer list of blocks fails |
| AACompositionDefinitions.ScanReached | source/src/core/scoring/methods/AACompositionEnergySetup.cc:392-459 | the state the loop stops in is the full scan whenever the scan succeeds |
| AACompositionDefinitions.ReachedTypeCode | source/src/core/scoring/methods/AACompositionEnergySetup.cc:399-406 | a TYPE line that reads keeps its code in the scan whatever fails after it |
| AACompositionSetup.PropertiesSet.constructor | source/src/core/scoring/methods/AACompositionEnergySetup.cc:59-62 | both property lists start empty |
| AACompositionSetup.PropertiesSet.FromLists | source/src/core/scoring/methods/AACompositionEnergySetup.cc:66-75 | the lists are the non-empty names given |
| AACompositionSetup.PropertiesSet.AddIncluded | source/src/core/scoring/methods/AACompositionEnergySetup.cc:98-102 | succeeds exactly when the property is absent, and then appends it, so the list stays duplicate-free |
| AACompositionSetup.PropertiesSet.AddExcluded | source/src/core/scoring/methods/AACompositionEnergySetup.cc:106-110 | the same for the excluded list |
| AACompositionSetup.PropertiesSet.ParseIncluded | source/src/core/scoring/methods/AACompositionEnergySetup.cc:115-123 | clears the list, skips empty names, and succeeds exactly when the non-empty names are distinct, leaving them in order |
| AACompositionSetup.PropertiesSet.ParseExcluded | source/src/core/scoring/methods/AACompositionEnergySetup.cc:128-136 | the same for the excluded list |
| AACompositionSetup.DuplicateFound | source/src/core/scoring/methods/AACompositionEnergySetup.cc:99 | a name already seen makes the list fail the no-repeats test |
| AACompositionSetup.NonEmptyAppend | source/src/core/scoring/methods/AACompositionEnergySetup.cc:119-121 | skipping empty names distributes over concatenation |
| AACompositionSetup.PropertiesSet.CloneAsWritten | source/src/core/scoring/methods/AACompositionEnergySetup.cc:79-94 | as written: the copy's excluded list is the source's included list |
| AACompositionSetup.CopiedAsWritten | source/src/core/scoring/methods/AACompositionEnergySetup.cc:79-83 | the as-written copy keeps the included list, and equals the original exactly when the two lists were already equal |
| AACompositionSetup.PropertiesSet.Clone | source/src/core/scoring/methods/AACompositionEnergySetup.cc:79-94 | corrected: the copy has both lists of the original |
| AACompositionSetup.CloneAll | source/src/core/scoring/methods/AACompositionEnergySetup.cc:193-196 | with the corrected clone, the cloned property sets are fresh objects holding the same lists |
| AACompositionSetup.CloneAllAsWritten | source/src/core/scoring/methods/AACompositionEnergySetup.cc:193-196 | as written, every cloned property set is a fresh object whose excluded list is the original's included list |
| AACompositionSetup.CopiedTablesAsWritten | source/src/core/scoring/methods/AACompositionEnergySetup.cc:180-197 | the as-written copy of the setup keeps the number of property sets |
| AACompositionSetup.CopyAsWrittenDiffers | source/src/core/scoring/methods/AACompositionEnergySetup.cc:79-83 | as soon as one property set has different lists, the as-written copy of the setup differs from the original |
| AACompositionSetup.Append | source/src/core/scoring/methods/AACompositionEnergySetup.cc:466-478 | a type definition adds one entry to the type tables and leaves the property tables; a property definition does the reverse |
| AACompositionSetup.LoadedTypes | source/src/core/scoring/methods/AACompositionEnergySetup.cc:404-405 | after loading, the type map's keys are the type codes and the k-th entries of the four type vectors are those of the k-th type definition |
| AACompositionSetup.LoadedProperties | source/src/core/scoring/methods/AACompositionEnergySetup.cc:472-477 | the k-th entries of the five property vectors are those of the k-th property definition |
| AACompositionSetup.TypeIndexLocates | source/src/core/scoring/methods/AACompositionEnergySetup.cc:404-405 | with distinct type codes, the k-th code maps to index k+1 |
| AACompositionSetup.LoadedConsistent | source/src/core/scoring/methods/AACompositionEnergySetup.cc:485-512 | the loaded tables pass check_data exactly when every range is covered by its penalties and no type code repeats |
| AACompositionSetup.BeforePound | source/src/core/scoring/methods/AACompositionEnergySetup.cc:252-257 | the line is cut at its first '#' |
| AACompositionSetup.Uncommented | source/src/core/scoring/methods/AACompositionEnergySetup.cc:249-258 | one kept line per non-empty raw line: a comment-only line survives as an empty string |
| AACompositionSetup.StripComments | source/src/core/scoring/methods/AACompositionEnergySetup.cc:249-258 | the getline loop keeps order, drops empty lines and cuts each line at its first '#' |
| AACompositionSetup.CompositionSetup.constructor | source/src/core/scoring/methods/AACompositionEnergySetup.cc:165-176 | all ten tables start empty |
| AACompositionSetup.CompositionSetup.Copy | source/src/core/scoring/methods/AACompositionEnergySetup.cc:180-197 | with the corrected clone, the copy holds the same tables, with fresh property sets |
| AACompositionSetup.CompositionSetup.CopyAsWritten | source/src/core/scoring/methods/AACompositionEnergySetup.cc:180-197 | as written, the copy holds the same tables except that every property set's excluded list is its included list (CopiedTablesAsWritten), with fresh property sets |
| AACompositionSetup.CompositionSetup.Reset | source/src/core/scoring/methods/AACompositionEnergySetup.cc:211-223 | reset empties all ten tables |
| AACompositionSetup.CompositionSetup.ParseADefinition | source/src/core/scoring/methods/AACompositionEnergySetup.cc:363-481 | succeeds exactly when the block is valid, and then stores its definition; on failure the tables are what the source leaves behind (`AfterFailure`) |
| AACompositionSetup.CompositionSetup.ScanLines | source/src/core/scoring/methods/AACompositionEnergySetup.cc:392-459 | the loop over the lines ends in the state ScanReached names, succeeds exactly when the scan does, and has mapped the TYPE code it read |
| AACompositionSetup.CompositionSetup.StoreDefinition | source/src/core/scoring/methods/AACompositionEnergySetup.cc:461-478 | after the loop: succeeds exactly when the final asserts hold and a property block names no property twice, and then appends the block's definition to the tables; a failed final assert leaves the tables as the loop left them, and a repeated property leaves only the pushed deviation range |
| AACompositionSetup.CompositionSetup.StorePropertyDefinition | source/src/core/scoring/methods/AACompositionEnergySetup.cc:470-478 | a property block pushes its deviation range first; building the properties set then fails on a repeated property, and otherwise the set and its penalties, fraction and absolute value are appended |
| AACompositionSetup.CompositionSetup.AddTypeVectors | source/src/core/scoring/methods/AACompositionEnergySetup.cc:466-470 | a type block appends its range, penalties, fraction and absolute count to the four type vectors |
| AACompositionSetup.CompositionSetup.AddPropertySet | source/src/core/scoring/methods/AACompositionEnergySetup.cc:473-477 | a property block appends a new properties set holding its non-empty names, and its penalties, fraction and absolute count |
| AACompositionSetup.FailedTypeBlockKeepsCode | source/src/core/scoring/methods/AACompositionEnergySetup.cc:399-406 | a block that fails after its TYPE line has read leaves that code mapped to the next index and nothing else changed |
| AACompositionSetup.FailedPropertyBlockKeepsRange | source/src/core/scoring/methods/AACompositionEnergySetup.cc:471-473 | a property block that passes the final asserts fails only on a repeated property name, leaving its range pushed and nothing else changed |
| AACompositionSetup.ScanReachedPersists | source/src/core/scoring/methods/AACompositionEnergySetup.cc:392-459 | once a prefix of the block has failed, the loop has stopped where it stopped for that prefix |
| AACompositionSetup.StopsAt | source/src/core/scoring/methods/AACompositionEnergySetup.cc:392-459 | a failing line ends the scan, in the state before that line |
| AACompositionSetup.CompositionSetup.ParsePenaltyDefinitions | source/src/core/scoring/methods/AACompositionEnergySetup.cc:330-359 | succeeds exactly when the lines split into valid blocks, then appends their definitions in order |
| AACompositionSetup.CompositionSetup.CheckData | source/src/core/scoring/methods/AACompositionEnergySetup.cc:485-512 | passes exactly when the tables have matching lengths and every range has first ≤ second and second - first + 1 penalties |
| AACompositionSetup.CompositionSetup.InitializeFromLines | source/src/core/scoring/methods/AACompositionEnergySetup.cc:227-267 | succeeds exactly when the stripped lines parse, every range is covered and no type repeats; the tables then hold exactly those definitions |
| Patches.TagOfMarker | source/src/core/chemical/Patch.cc:217-223 | a single-word line is its own tag |
| Patches.Significants | source/src/core/chemical/Patch.cc:565-568 | every kept line has a tag that does not start with '#' |
| Patches.KeepSignificant | source/src/core/chemical/Patch.cc:564-568 | the getline loop keeps exactly the significant lines, in order |
| Patches.SignificantsKeep | source/src/core/chemical/Patch.cc:564-568 | a line is kept exactly when it is in the file and significant |
| Patches.IsMetapatchName | source/src/core/chemical/Patch.cc:578 | a name is a metapatch name exactly when it starts with "MP-" |
| Patches.ReadHeader | source/src/core/chemical/Patch.cc:571-589 | the header loop computes the NAME, TYPES and REPLACE_RES_TYPE effects of every line in order |
| Patches.MetapatchFollowsName | source/src/core/chemical/Patch.cc:576-579 | after a NAME line the metapatch flag says whether the name starts with "MP-"; with none it is unchanged |
| Patches.ReadSelector | source/src/core/chemical/Patch.cc:591-608 | the selector loop collects the lines inside selector blocks before the first BEGIN_CASE |
| Patches.SelectorBeforeCases | source/src/core/chemical/Patch.cc:596-597 | nothing after the first BEGIN_CASE reaches the patch selector |
| Patches.SelectorBlockRead | source/src/core/chemical/Patch.cc:598-606 | a BEGIN_SELECTOR / END_SELECTOR block contributes exactly its inner lines |
| Patches.CaseFromLines | source/src/core/chemical/Patch.cc:312-350 | case_from_lines computes the case the reader defines |
| Patches.CaseReadsSelector | source/src/core/chemical/Patch.cc:335-336 | inside a selector block, plain lines go to the case's selector |
| Patches.CaseReadsOperations | source/src/core/chemical/Patch.cc:337-347 | outside it, plain lines become operations where the factory builds one |
| Patches.CaseOfBlocks | source/src/core/chemical/Patch.cc:326-348 | a selector block followed by operation lines gives the case with exactly that selector and those operations |
| Patches.CasesOf | source/src/core/chemical/Patch.cc:610-628 | one case per block, in file order |
| Patches.CaseBlocksOfText | source/src/core/chemical/Patch.cc:610-628 | writing blocks of plain lines between BEGIN_CASE and END_CASE and reading them back gives the blocks, in order |
| Patches.StrayEndCaseAddsEmptyCase | source/src/core/chemical/Patch.cc:620-624 | an END_CASE outside a case still adds a case, made of the lines collected so far |
| Patches.AnyGeneratesBaseAppend | source/src/core/chemical/Patch.cc:952-959 | after adding a case the patch generates a base type exactly when it did before or the new case does |
| Patches.WithItemIdempotent | source/src/core/chemical/Patch.cc:634-647 | adding a type twice is adding it once, a duplicate-free list stays so, and the new list holds the old types plus the new one |
| Patches.Patch.constructor | source/src/core/chemical/Patch.cc:201 | a new patch is empty |
| Patches.Patch.AddType | source/src/core/chemical/Patch.cc:634-638 | appends a type only when it is absent |
| Patches.Patch.AddCustomType | source/src/core/chemical/Patch.cc:643-647 | appends a custom type only when it is absent |
| Patches.Patch.AddCase | source/src/core/chemical/Patch.cc:952-959 | appends the case and sets the generates-base flag when the case generates one |
| Patches.Patch.ReadCases | source/src/core/chemical/Patch.cc:610-628 | the case loop, which consumes lines from the front, adds one case per block |
| Patches.Patch.ReadLines | source/src/core/chemical/Patch.cc:546-629 | reading a patch file sets the name, metapatch flag, types, replace flag, selector and cases from its significant lines |
| Patches.FirstDecisive | source/src/core/chemical/Patch.cc:666-731 | the first case that is not passed over, every earlier case being passed over |
| Patches.FirstSuccessIsFirstDecisive | source/src/core/chemical/Patch.cc:666-741 | the case loop's result is decided by the first case not passed over: its residue, a rethrow, or null when there is none |
| Patches.PatchedFromValidCase | source/src/core/chemical/Patch.cc:666-731 | a patched result comes from a case that applies, produced that residue type and validates, all earlier cases being passed over |
| Patches.NotPatchedWhenAllSkip | source/src/core/chemical/Patch.cc:666-741 | the loop returns null exactly when every case is passed over (does not apply, yields null, throws a Rosetta exception or fails validation) |
| Patches.Patch.Apply | source/src/core/chemical/Patch.cc:660-742 | null when the patch does not apply; otherwise the first successful case's result, renamed by patched_name unless the patch replaces the residue type |
| PatchNaming.Find | source/src/core/chemical/Patch.cc:228-235 | the position of the first linker from a start, or the length when there is none |
| PatchNaming.BaseName | source/src/core/chemical/Patch.cc:225-230 | the base name is a prefix of the name without the linker |
| PatchNaming.AllPatchesName | source/src/core/chemical/Patch.cc:232-238 | the patches suffix is empty or starts with the linker, and base name plus suffix is the name |
| PatchNaming.UnpatchedName | source/src/core/chemical/Patch.cc:225-238 | a name without the linker is its own base name, with an empty suffix |
| PatchNaming.LinkedName | source/src/core/chemical/Patch.cc:225-238 | appending a linker-led suffix keeps the base name and extends the patches suffix |
| PatchNaming.GetPatchNames | source/src/core/chemical/Patch.cc:240-248 | the getline loop splits the patches suffix on ':' and keeps the non-empty items |
| PatchNaming.PatchNamesSimple | source/src/core/chemical/Patch.cc:244-245 | no patch name is empty or contains ':' |
| PatchNaming.PatchNamesAppend | source/src/core/chemical/Patch.cc:240-248 | appending ":p" appends p to the patch names |
| PatchNaming.PatchNamesOfLinked | source/src/core/chemical/Patch.cc:240-248 | joining simple names with ':' and splitting again gives the names back |
| PatchNaming.NameOfPatches | source/src/core/chemical/Patch.cc:225-248 | a base name followed by linked patches gives back that base name and those patches |
| PatchNaming.PatchedNameAddsPatch | source/src/core/chemical/Patch.cc:765-766 | an ordinary patch keeps the base name and is read back as the last patch |
| PatchNaming.ChiralFlipKeepsPatches | source/src/core/chemical/Patch.cc:748-751 | D and L put their letter before the base name and keep the patches suffix |
| PatchNaming.PeptoidKeepsPatches | source/src/core/chemical/Patch.cc:752-760 | RPEPTOID gives the new base name and keeps the patches suffix |
| EnergyMap.Zeros | source/src/core/scoring/EnergyMap.hh:136-140 | n entries, all 0 |
| EnergyMap.ZeroedEntries | source/src/core/scoring/EnergyMap.hh:102-108 | zeroing a list sets exactly the listed entries to 0 and keeps the rest |
| EnergyMap.AccumulatedUnlisted | source/src/core/scoring/EnergyMap.hh:255-261 | accumulating leaves every unlisted entry unchanged |
| EnergyMap.AccumulatedListedOnce | source/src/core/scoring/EnergyMap.hh:255-261 | a type listed once gains the source's entry |
| EnergyMap.AccumulatedAppend | source/src/core/scoring/EnergyMap.hh:255-261 | accumulating over two lists is accumulating over one then the other, so a type listed twice gains twice |
| EnergyMap.DotOverAppend | source/src/core/scoring/EnergyMap.hh:165-173 | the dot over two lists is the sum of the dots, so duplicates count twice |
| EnergyMap.DotOverAllTypes | source/src/core/scoring/EnergyMap.hh:153-173 | the dot over the list 1..n is the full dot product |
| EnergyMap.DotSymmetric | source/src/core/scoring/EnergyMap.hh:153-161 | the dot product is symmetric |
| EnergyMap.SumPlus | source/src/core/scoring/EnergyMap.hh:176-183 | the sum of a += result is the sum of the sums |
| EnergyMap.SumScaled | source/src/core/scoring/EnergyMap.hh:196-203 | scaling by c scales the sum by c |
| EnergyMap.SumProduct | source/src/core/scoring/EnergyMap.hh:206-213 | the sum of the entrywise product is the dot product |
| EnergyMap.PlusMinus | source/src/core/scoring/EnergyMap.hh:176-193 | -= undoes += |
| EnergyMap.EMapVector.constructor | source/src/core/scoring/EnergyMap.hh:52-55 | a new vector has every entry 0 |
| EnergyMap.EMapVector.Copy | source/src/core/scoring/EnergyMap.hh:220 | the copy is a fresh array with the same entries |
| EnergyMap.EMapVector.Clear | source/src/core/scoring/EnergyMap.hh:120-140 | clear and zero set every entry to 0 |
| EnergyMap.EMapVector.Set | source/src/core/scoring/EnergyMap.hh:85-92 | set returns the value, get then reads it, and every other entry is unchanged |
| EnergyMap.EMapVector.ZeroTypes | source/src/core/scoring/EnergyMap.hh:102-108 | zero(l) zeroes the listed entries in place |
| EnergyMap.EMapVector.DotWith | source/src/core/scoring/EnergyMap.hh:153-161 | the loop computes the sum of entrywise products |
| EnergyMap.EMapVector.DotWithOver | source/src/core/scoring/EnergyMap.hh:165-173 | the loop sums the products over the listed types |
| EnergyMap.EMapVector.AddAssign | source/src/core/scoring/EnergyMap.hh:176-183 | += adds entrywise |
| EnergyMap.EMapVector.SubtractAssign | source/src/core/scoring/EnergyMap.hh:186-193 | -= subtracts entrywise |
| EnergyMap.EMapVector.ScaleAssign | source/src/core/scoring/EnergyMap.hh:196-203 | scalar *= scales every entry |
| EnergyMap.EMapVector.MultiplyAssign | source/src/core/scoring/EnergyMap.hh:206-213 | vector *= multiplies entrywise |
| EnergyMap.EMapVector.TimesScalar | source/src/core/scoring/EnergyMap.hh:217-223 | returns a new scaled vector and leaves the receiver unchanged |
| EnergyMap.EMapVector.TimesVector | source/src/core/scoring/EnergyMap.hh:226-232 | returns a new entrywise product and leaves the receiver unchanged |
| EnergyMap.EMapVector.Equals | source/src/core/scoring/EnergyMap.hh:236-240 | true exactly when all entries agree |
| EnergyMap.EMapVector.NotEquals | source/src/core/scoring/EnergyMap.hh:243-247 | true exactly when some entry differs |
| EnergyMap.EMapVector.Accumulate | source/src/core/scoring/EnergyMap.hh:255-261 | adds the source's entry for each listed type |
| EnergyMap.EMapVector.AccumulateWeighted | source/src/core/scoring/EnergyMap.hh:264-270 | adds wt times the source's entry for each listed type |
| EnergyMap.EMapVector.SumEntries | source/src/core/scoring/EnergyMap.hh:282-290 | the loop computes the total of all entries |
| EnergyMap.EMapVector.NormSquared | source/src/core/scoring/EnergyMap.hh:293-303 | the loop computes the sum of squares over the listed types |
| BootCamp.RandomResidue | source/src/protocols/bootcamp/BootCampMover.cc:119 | for uniform in [0, 1), ⌊uniform·num_res⌋ + 1 lies in 1..num_res |
| BootCamp.Perturbed | source/src/protocols/bootcamp/BootCampMover.cc:122-125 | the chosen residue's phi and psi gain the two deltas, and no other torsion changes |
| BootCamp.Moved | source/src/protocols/bootcamp/BootCampMover.cc:119-131 | perturbing, repacking and minimizing keep the number of residues |
| BootCamp.Run | source/src/protocols/bootcamp/BootCampMover.cc:117-143 | k cycles record one verdict each and keep the pose's size |
| BootCamp.RejectedKeepsPose | source/src/protocols/bootcamp/BootCampMover.cc:135 | while no cycle is accepted the pose is the one the run started from |
| BootCamp.AcceptedCount | source/src/protocols/bootcamp/BootCampMover.cc:137-139 | the accepted count never exceeds the number of cycles |
| BootCamp.AcceptedCountPrefix | source/src/protocols/bootcamp/BootCampMover.cc:137-139 | the count only grows as cycles run |
| BootCamp.AllAcceptedCounted | source/src/protocols/bootcamp/BootCampMover.cc:137-139 | when every cycle is accepted the count is the number of cycles |
| BootCamp.Quotient | source/src/protocols/bootcamp/BootCampMover.cc:146-147 | the division is defined exactly for a positive divisor, and the quotient times the divisor is the dividend |
| BootCamp.ReportedOneCyclePerIteration | source/src/protocols/bootcamp/BootCampMover.cc:145-147 | with one cycle per iteration, the reported fraction lies in [0, 1] and the average times the iterations is the score total |
| BootCamp.ReportedNoIterations | source/src/protocols/bootcamp/BootCampMover.cc:146-147 | with zero iterations there is no fraction and no average (division by zero) |
| BootCamp.AsWrittenFractionAboveOne | source/src/protocols/bootcamp/BootCampMover.cc:117-146 | as written, N + 1 cycles all accepted report N + 1 accepted and a fraction above 1 |
| BootCamp.AsWrittenAverageDoubles | source/src/protocols/bootcamp/BootCampMover.cc:136-147 | as written, two cycles scoring 1.0 with one iteration report an average of 2.0 |
| BootCamp.Pose.constructor | source/src/protocols/bootcamp/BootCampMover.cc:88 | a pose holds its torsions and secondary structure, with an empty fold tree |
| BootCamp.Pose.SetPhi | source/src/protocols/bootcamp/BootCampMover.cc:124 | set_phi changes one phi and nothing else |
| BootCamp.Pose.SetPsi | source/src/protocols/bootcamp/BootCampMover.cc:125 | set_psi changes one psi and nothing else |
| BootCamp.Pose.SetTorsions | source/src/protocols/bootcamp/BootCampMover.cc:129-131 | copying the minimized pose back replaces the torsions and nothing else |
| BootCamp.ScoreFunction.constructor | source/src/protocols/bootcamp/BootCampMover.cc:96 | a score function with the given linear_chainbreak weight |
| BootCamp.PerturbPose | source/src/protocols/bootcamp/BootCampMover.cc:119-125 | the perturb step picks the residue from the uniform draw and adds the two deltas to its phi and psi only |
| BootCamp.MonteCarloCycle | source/src/protocols/bootcamp/BootCampMover.cc:119-142 | one cycle: the pose becomes the moved pose when accepted and stays when rejected |
| BootCamp.MonteCarloCycles | source/src/protocols/bootcamp/BootCampMover.cc:115-143 | the loop's pose, accepted count and running score are those of the run: the count of accepted verdicts and the total of all scores, accepted or not |
| BootCamp.BootCampMover.constructor | source/src/protocols/bootcamp/BootCampMover.cc:72-76 | a mover with the given score function and iteration count |
| BootCamp.BootCampMover.SetScoreFunction | source/src/protocols/bootcamp/BootCampMover.cc:150-163 | set then get returns the score function, and the iteration count is unchanged |
| BootCamp.BootCampMover.SetNumIterations | source/src/protocols/bootcamp/BootCampMover.cc:155-168 | set then get returns the count, and the score function is unchanged |
| BootCamp.BootCampMover.ApplyAsWritten | source/src/protocols/bootcamp/BootCampMover.cc:87-148 | as written: fails without changing the pose exactly when the DSSP string has no span; otherwise installs the fold tree from the spans, sets linear_chainbreak to 1.0, leaves the pose of num_iterations + 1 cycles, and reports those cycles divided by num_iterations |
| BootCamp.BootCampMover.Apply | source/src/protocols/bootcamp/BootCampMover.cc:87-148 | corrected: fails exactly when the DSSP string has no span; otherwise installs the string's fold tree, sets linear_chainbreak to 1, runs num_iterations cycles and reports them |
| BootCamp.BootCampMover.Sample | source/src/protocols/bootcamp/BootCampMover.cc:87-148 | the shared body of both loops for any number of cycles: fold tree, weight, the run and a report over num_iterations |

## Left out

- `FoldTreeFromSs.IdentifySecondaryStructureSpans`: does not model the narrowing `int( strand_start ) == -1` at fold_tree_from_ss.cc:112, 119 and 125. It only matters for strings of more than 2^32 - 1 residues. In the source, a run opened at a 0-based index congruent to 2^32 - 1 modulo 2^32 is taken for "no run open", so that residue drops out of its span (and a one-residue run disappears). `Spans` keeps it.
- fold_tree_from_ss(pose) and the Dssp class: the DSSP string is the pose's `secStruct`, and Dssp is not part of this model.
- FoldTree itself and check_fold_tree are not part of this model. The model's own predicate (`FoldTreeShape.IsFoldTree`) states what a valid tree is: one root, every other residue entered exactly once, each edge starting from a residue already reached.
- `FoldTreeFromSs.FoldTreeFromDsspString`: requires the string to be shorter than 2^64 - 1, which a `Size`-indexed string always is. A string without spans gives `Err`, where the source reads `ss_bounds[1]` out of range (undefined behaviour).
- `SecStructFinding.ExpandPatternToFit`: requires a non-empty pattern when length > 0. With an empty pattern and a positive length the source's loop never ends.
- `SecStructFinding.SecStructFinder.Full` and `SecStructFinding.SecStructFinder.ParseMyTag`: require the same of the patterns they expand.
- The rest of SecStructFinder: too_similar, make_filename, initialize_rtype_vector, the pose building, constraints, scoring, minimization and PDB dumps of apply, and the XML schema. These are floating-point geometry, file output and calls into other parts of Rosetta. Only the odometer of apply is modelled.
- `DihedralOdometer.EnumerateDihedralGrid`: works on integer dihedrals whose range is a multiple of the bin, at least two bins wide. The source's real-valued grid with arbitrary bins is not modelled.
- SecStructMinimizeMultiFunc: setup_minimization_graph, operator(), dfunc and the debugging block are left out (scoring and atom-tree calls). The minimizer map and pose are replaced by the list of DOF-node torsions and the starting DOF values.
- `SecStructMinimize.MinimizeMultiFunc.constructor`: builds the corrected DOF map (numbered DOFs) and the corrected beta test. The as-written variants are the separate members named under Findings.
- `SecStructMinimize.Width`: decides three or two variables with the corrected beta test (scan from position 0), where SecStructMinimizeMultiFunc.cc:83 calls the as-written scan from position 1 (:44-55).
- `SecStructMinimize.Starters`: the starters follow the corrected widths; as written, dihedral "AB" with class "BA" gives [1, 3], not [1, 4] (AsWrittenVarCountDiffers).
- `SecStructMinimize.CountVars`: nvar_ is the sum of the corrected widths; as written the same input gives 4, not 5.
- `SecStructMinimize.WidthSumIsDihedralCount`: the equality with get_number_dihedrals holds for the corrected beta test only; the source's nvar_ differs from it on inputs such as "AB"/"BA" (4 against 5), as AsWrittenVarCountDiffers states.
- ResidueProperty parsing (`parse_property`) is not modelled: property names stay strings.
- File opening, the `.comp` extension and the database fallback of initialize_from_file are left out. `InitializeFromLines` starts from the file's lines.
- `AACompositionSetup.CloneAll`: clones with the corrected `PropertiesSet.Clone`, which keeps the excluded list. The source's clone loop (AACompositionEnergySetup.cc:193-196) goes through the copy constructor at :79-83, so each copy's excluded list is its included list; `CloneAllAsWritten` states that.
- `AACompositionSetup.CompositionSetup.Copy`: promises an exact copy of every property set. The source's copy constructor gives each copied set excluded = included; `CompositionSetup.CopyAsWritten` states that, and `CopyAsWrittenDiffers` shows the two differ.
- `AACompositionSetup.PropertiesSet.FromLists` and `AACompositionSetup.CompositionSetup.AddPropertySet`: require duplicate-free property names. In the source a duplicate aborts inside the AACompositionPropertiesSet constructor. `AACompositionSetup.CompositionSetup.ParseADefinition` checks the lists at that same point, after the deviation range has been pushed, and keeps that push.
- `AACompositionSetup.PropertiesSet.ParseIncluded` and `AACompositionSetup.PropertiesSet.ParseExcluded`: do not state the list's contents after a failure. The source has already appended the names before the duplicate when it aborts.
- `AACompositionSetup.CompositionSetup.ParsePenaltyDefinitions` and `AACompositionSetup.CompositionSetup.InitializeFromLines`: do not state the tables after a failure. The source has stored the blocks before the bad one when it aborts.
- Numeric parsing follows libstdc++'s `operator>>` for `long` and `double` in the "C" locale. Out-of-range values (overflow of a `long`, a `double` beyond its range) are not modelled: they fail in the source and read as exact numbers here. So are hexadecimal floats, `inf` and `nan`, which libstdc++'s `num_get` does not accept either.
- report, one_line_report, show and the tracer output are text output and are left out.
- Patch.cc: PATCH_LINKER is taken to be ':' (it is declared in a header that is not part of this model).
- Patch.cc: the PatchOperationFactory, the case selectors, PatchCase::apply and validate_residue_type are not modelled in themselves. They enter as the `build` and `Judge` functions.
- Patch.cc: get_variant_from_string is not modelled, so types stay strings.
- Patch.cc: setup_patch_atomic_charge_reassignments_from_commandline is left out (global options).
- Patch.cc: adds_atoms, deletes_atoms, changes_connections_on, applies_to, replaces and the other query functions after line 773 are left out. The patch's own applies_to enters as a boolean.
- `Patches.Patch.Apply`: does not model adding the variant types to the patched residue type or enable_custom_variant_types. It models the case choice and the renaming.
- `Patches.Patch.ReadLines`: like the source, does not reset the metapatch and generates-base flags before reading.
- The serialization blocks of Patch.cc and EnergyMap.hh are left out.
- EMapVector is_finite (IEEE infinities and NaN), print, show_nonzero and the other show functions are left out. n_score_types is the array length given to the constructor.
- `EnergyMap.EMapVector.Accumulate` and `EnergyMap.EMapVector.AccumulateWeighted`: require a source other than the target, so `v.accumulate(v, l)` is not modelled.
- Values of type Real are exact reals, so doubles' rounding and overflow are not modelled.
- `BootCamp.BootCampMover.Apply`: follows the corrected loop (num_iterations cycles); the as-written loop is `BootCamp.BootCampMover.ApplyAsWritten`.
- `BootCamp.BootCampMover.Apply`, `BootCamp.BootCampMover.ApplyAsWritten` and `BootCamp.BootCampMover.Sample`: require a non-null score function and a DSSP string shorter than 2^64 - 1.
- BootCampMover: correctly_add_cutpoint_variants, the PyMOL observer, the packer task, the AtomTreeMinimizer options and the standard-output lines are left out. Packing and minimization are one size-keeping `relax` function; MonteCarlo::boltzmann and last_score are the `judge` function.
- BootCampMover: the random draws are a given sequence.
- BootCampMover: dividing by zero iterations is `None` rather than an infinite or NaN double.
- The defaults of BootCampMover.hh are constructor parameters. parse_my_tag, provide_xml_schema, clone, fresh_instance and the creator of BootCampMover are left out.

## Findings

| source | as written | input that shows it | evidently intended | confidence | as-written member | corrected member |
|---|---|---|---|---|---|---|
| source/src/protocols/ncbb/SecStructFinder.cc:248-259 (same code at source/src/protocols/ncbb/SecStructMinimizeMultiFunc.cc:44-55) | uniq_refers_to_beta scans positions 1..length of a 0-based string, so it never looks at position 0 (and reads the terminator at `length`) | dihedral pattern "AB", class pattern "BA", letter 'A': position 0 is a B, but the scan finds no 'A' from position 1 and answers "not beta" | scan from position 0, agreeing with get_number_dihedrals' weight | not executed | SecStructFinding.UniqRefersToBeta, SecStructFinding.RefersToBetaSkipsFirstPosition, SecStructMinimize.AsWrittenVarCountDiffers | SecStructFinding.RefersToBetaAgreesWithWeight, SecStructMinimize.WidthSumIsDihedralCount |
| source/src/protocols/ncbb/SecStructMinimizeMultiFunc.cc:296-314 | get_dofs_map records `imap` but never advances it, so every variable lists DOF 1 and the DOF-to-var map has only key 1 | two DOF nodes, residue 1 torsions 1 and 2, driven by variables 1 and 2: writing (1.0, 2.0) and reading variable 1 back gives 2.0 | advance imap once per DOF node, so that dofs_to_vars inverts vars_to_dofs | not executed | SecStructMinimize.MinimizeMultiFunc.GetDofsMap, SecStructMinimize.AsWrittenMapBreaksRoundTrip | SecStructMinimize.MinimizeMultiFunc.GetDofsMapNumbered, SecStructMinimize.NumberedRoundTrip |
| source/src/core/scoring/methods/AACompositionEnergySetup.cc:79-83 | the copy constructor (and so clone) initializes excluded_properties_ from src.included_properties_ | any property set whose included and excluded lists differ, e.g. included [AROMATIC], excluded [] | copy excluded_properties_ from src.excluded_properties_ | not executed | AACompositionSetup.PropertiesSet.CloneAsWritten, AACompositionSetup.CloneAllAsWritten, AACompositionSetup.CompositionSetup.CopyAsWritten, AACompositionSetup.CopyAsWrittenDiffers | AACompositionSetup.PropertiesSet.Clone, AACompositionSetup.CloneAll, AACompositionSetup.CompositionSetup.Copy |
| source/src/protocols/bootcamp/BootCampMover.cc:117 | the loop runs `i = 0 .. num_iterations_` inclusive, num_iterations_ + 1 cycles, while lines 145-147 divide by num_iterations_ | num_iterations_ = 1 with both cycles accepted: fraction 2.0 | run num_iterations_ cycles (`i < num_iterations_`), so the fraction lies in [0, 1] | not executed | BootCamp.BootCampMover.ApplyAsWritten, BootCamp.AsWrittenFractionAboveOne | BootCamp.BootCampMover.Apply, BootCamp.ReportedOneCyclePerIteration |

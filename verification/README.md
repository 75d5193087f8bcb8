# iaco search engine core in Dafny

This project models the deterministic core of the iaco interactive ant
colony engine for software design search. Ants walk a graph of attribute and
method vertices. A walk is a path that starts at the Nest and is cut into
classes by EndOfClass markers. The engine does five things with these paths:

- it scores each path for coupling (CBO) and for two elegance measures,
  NAC (spread of class sizes) and ATMR (spread of attribute/method ratios);
- it evaporates and deposits pheromone on an N x N table;
- it may freeze chosen classes by overwriting their table entries;
- its controller tracks the best paths, an elite archive, retry statistics
  and the interval between designer interactions;
- it keeps three objective weights that must sum to one.

Modules, one per file:

- `Results`, `Numerics`: the error type, the NaN-aware `Double`, and powers,
  rounding, sums and variance.
- `Graph`, `Config`: vertices, paths and their objectives; the run settings
  and the MAX-MIN Ant System constants.
- `Design`: `constructDesignFromPath`, cutting a path into classes.
- `Daemon`: `calculateDesignSolutionPathFitness(Path, ProblemController)`.
- `Pheromone`: `evaporate`, `layPheromoneForWholePathSolution` and
  `freezeUpdate` on the table.
- `PheromoneUpdate`: `update`, `calculateDelta`,
  `calculateRawFactorWithWeights`, and the MMAS choice of the path that
  deposits (`performMMASUpdate`, `performParetoDominationBasedUpdate`,
  `performCBOUpdate`, `performNACUpdate`).
- `Weighting`: the `Weights` record, its two constructors and `checkSum`.
- `Controller`: `initialiseLists`, the retry loop of `generateSolutions`,
  best tracking in `daemonActions`, `checkForInteraction`, `elitistInsert`,
  `updateEliteArchive`, `calculateWeights`, and the front walk and weight
  reset of `performInteraction`.

Modelling choices:

- Every Java `assert` and every out-of-bounds index becomes an `Err` value
  of a `Result`; the engine treats both as fatal.
- Doubles are Dafny `real`s. NaN is a separate constructor of
  `Numerics.Double`, used only where the source tests for NaN: the weights
  and the regression coefficients.
- Randomness is a `draw: nat` parameter; index `draw % n` stands for the
  uniform choice among n candidates.

Things the code does that its comments and documentation do not say:

- **Numbering conflict.** `initialiseLists` numbers attributes from 0 and
  methods from A. The daemon subtracts a Nest offset of 1 before indexing
  the use matrix, and it indexes the matrix only for a class that has both
  attributes and methods. With the controller's numbering, scoring fails
  exactly when some class holds the attribute numbered 0 or the method
  numbered A together with at least one element of the other kind
  (`Daemon.ZeroBasedNumberingRejected`). In every other class each use is
  read one row and one column before its own entry
  (`Daemon.ZeroNumberedClass`). With numbering from the Nest the lookups
  are in range (`Daemon.NestNumberingAccepted`). The ant code that builds paths is
  not part of this model, so which numbering reaches the daemon is left
  open. The offset is the explicit constant `Daemon.NEST_OFFSET`.
- **Elitist evaporation** scales entries above the median by
  (1 - rho)(1 - 0.02 d) and entries below it by (1 - rho)(1 + 0.02 d). The
  comments beside the code say the opposite: that entries above the median
  decay less. In fact they decay at least as fast as under uniform
  evaporation. The model follows the code.
- **The maximised NAC and ATMR** equal min(x, s)/s. They grow with the raw
  metric, although both metrics are to be minimised.
- **Interaction never changes the weights.** The `OK_OPTION` branch of
  `performInteraction` (src/java/engine/Controller.java:1107, marked as the
  designer clicking "next") runs `doRegression` and then `calculateWeights`.
  But `performInteraction` hard-codes the user action to 1, while
  `JOptionPane.OK_OPTION` is 0. So the regression and `calculateWeights` are
  never reached from there. The weights are always
  reset to (1, 0, 0), and the model follows the code. `calculateWeights` is
  still modelled on its own.
- **The default `Weights()` constructor** sets all three weights to 0.0.
  Its comment promises "100% CBO".

## Model

| member | source | states |
|---|---|---|
| Design.ScanUnmarked | src/java/daemonActions/DaemonOperators.java:126-161 | scanning a stretch without markers ignores the Nest and adds its attributes and methods, in order, to the open class |
| Design.ConstructDesignClosesClass | src/java/daemonActions/DaemonOperators.java:122-167 | each EndOfClass marker closes exactly one class, holding the attributes and methods met since the previous marker |
| Design.ConstructDesignDropsTrailing | src/java/daemonActions/DaemonOperators.java:122-167 | vertices after the last marker form no class |
| Design.ConstructDesignCount | src/java/daemonActions/DaemonOperators.java:142-155 | the design has as many classes as the path has EndOfClass markers |
| Design.ConstructDesignElements | src/java/daemonActions/DaemonOperators.java:134-155 | on a path ending with a marker, the class sizes add up to the number of attribute and method vertices: nothing lost, nothing duplicated |
| Design.ConstructDesignKinds | src/java/daemonActions/DaemonOperators.java:134-141 | every class holds only attribute vertices of the path as attributes and only method vertices of the path as methods |
| Daemon.CountInternalUses | src/java/daemonActions/DaemonOperators.java:338-350 | the nested loops count exactly the (method, attribute) pairs of the class whose use-matrix entry is 1, or fail on an index outside the matrix |
| Daemon.CloseClassStep | src/java/daemonActions/DaemonOperators.java:310-370 | the work at one marker (method-number assertions, use count, writes at classCounter) agrees with the functional class closing |
| Daemon.EvaluatePath | src/java/daemonActions/DaemonOperators.java:259-413 | the single pass over the path computes the same fitness or error as the class-by-class definition |
| Daemon.TallyOfSucceedsIff | src/java/daemonActions/DaemonOperators.java:280-286 | the per-class totals succeed exactly when the design has at most numberOfClasses classes and each passes its method-number and index checks |
| Daemon.TallyOfValues | src/java/daemonActions/DaemonOperators.java:338-366 | elementCounts[k] is the size of class k, ratios[k] its ratio, and internalUses the sum of the classes' internal uses |
| Daemon.TallyOfKeepsError | src/java/daemonActions/DaemonOperators.java:310-371 | once a class fails, later classes do not change the reported error |
| Daemon.RowUsesCharacterised | src/java/daemonActions/DaemonOperators.java:343-349 | one method's count is at most the number of attributes; 0 iff it uses none, full iff it uses all |
| Daemon.PairUsesAtMost | src/java/daemonActions/DaemonOperators.java:341-350 | a class's internal uses are at most #methods x #attributes |
| Daemon.PairUsesNoneIff | src/java/daemonActions/DaemonOperators.java:341-350 | a class's internal uses are 0 exactly when none of its pairs has a use |
| Daemon.PairUsesAllIff | src/java/daemonActions/DaemonOperators.java:341-350 | a class's internal uses reach #methods x #attributes exactly when every pair has a use |
| Daemon.EvaluateSucceedsIff | src/java/daemonActions/DaemonOperators.java:262-398 | scoring succeeds exactly when the problem sizes are positive, the path has one marker per class, every class passes its checks and internal uses do not exceed the total |
| Daemon.EvaluateArrays | src/java/daemonActions/DaemonOperators.java:282-366 | one entry per class; elementCounts[k] = #attributes + #methods even when a kind is missing; ratios[k] = #attributes/#methods with both kinds, else it stays 0.0 |
| Daemon.EvaluateElementTotal | src/java/daemonActions/DaemonOperators.java:361-366 | the element counts add up to the number of attribute and method vertices of the path |
| Daemon.EvaluateScores | src/java/daemonActions/DaemonOperators.java:391-412 | CBO = 1 - internal/total lies in [0,1], is 0 iff every use is internal and 1 iff none is; NAC and ATMR are the deviations of the two arrays, zero-ratio classes included, and are never negative |
| Daemon.EvaluateNacZeroIffBalanced | src/java/daemonActions/DaemonOperators.java:403-406 | NAC is 0 exactly when all classes have the same number of elements |
| Daemon.NestNumberingAccepted | src/java/daemonActions/DaemonOperators.java:249-254 | with vertices numbered from the Nest (attributes 1..A, methods A+1..A+M), an M x A matrix and one marker per class, the only possible failure is internal uses exceeding the total |
| Daemon.ZeroNumberedClass | src/java/daemonActions/DaemonOperators.java:320-350 | a class numbered from 0 passes the method-number assertions; it is accepted exactly when it does not have both kinds with the attribute numbered 0 or the method numbered A; any pair it can look up is read at row number - A - 1 and column number - 1 |
| Daemon.TallyOfOnlyIndexError | src/java/daemonActions/DaemonOperators.java:310-371 | when every class passes the method-number assertions and there are at most numberOfClasses classes, the only error the per-class work can raise is an index outside the use matrix |
| Daemon.ZeroBasedNumberingRejected | src/java/daemonActions/DaemonOperators.java:310-350 | with the controller's numbering from 0 (attributes 0..A-1, methods A..A+M-1), an M x A matrix and one marker per class, scoring fails on the use matrix exactly when some class has both kinds and holds the attribute numbered 0 or the method numbered A; otherwise the only possible failure is internal uses exceeding the total |
| Daemon.NestNumberingExample | src/java/daemonActions/DaemonOperators.java:320-336 | a one-class design numbered from the Nest, whose one use is internal, scores CBO 0 |
| Pheromone.SetEntries | src/java/pheromone/PheromoneOperators.java:272-275 | a table write changes exactly one entry |
| Pheromone.TableLowest | src/java/pheromone/PheromoneOperators.java:61-85 | the scan's lowest value is at most its start and every entry, and equals one of them |
| Pheromone.TableHighest | src/java/pheromone/PheromoneOperators.java:61-85 | the scan's highest value is at least its start and every entry, and equals one of them |
| Pheromone.EvaporateFailsIff | src/java/pheromone/PheromoneOperators.java:57-96 | evaporation fails exactly when rho is outside [0,1], or in elitist mode when highest equals lowest |
| Pheromone.UniformEvaporation | src/java/pheromone/PheromoneOperators.java:94-131 | uniform evaporation sets every entry to old x (1 - rho): non-negative entries stay non-negative and never grow, and symmetry is kept |
| Pheromone.RepeatedUniformEvaporation | src/java/pheromone/PheromoneOperators.java:94-131 | n rounds of uniform evaporation scale every entry by (1 - rho)^n |
| Pheromone.EvaporateUniformlyIsRepeatedEvaporate | src/java/pheromone/PheromoneOperators.java:53-134 | for rho in [0,1], n evaporate calls in uniform mode, chained one after another, all succeed and leave the table that n rounds of uniform evaporation describe, so the (1 - rho)^n scaling holds for evaporate itself |
| Pheromone.ElitistEvaporation | src/java/pheromone/PheromoneOperators.java:67-131 | every entry is scaled by its elitist multiplier around median = lowest + (highest - lowest)/2; the table stays square and non-negative |
| Pheromone.ElitistEntry | src/java/pheromone/PheromoneOperators.java:105-124 | above the median an entry keeps at most the uniform share, below it at least that share, and at the median it is unchanged |
| Pheromone.LayPheromoneLoop | src/java/pheromone/PheromoneOperators.java:221-281 | the vertex loop (Nest starts the first step, each middle vertex ends one step and starts the next, the final marker receives nothing) equals depositing along the path's steps |
| Pheromone.DepositEdgeEntries | src/java/pheromone/PheromoneOperators.java:246-278 | one step writes Clamp(entry(from,to) + delta) to (from,to) and (to,from) and leaves every other entry unchanged |
| Pheromone.DepositUntouched | src/java/pheromone/PheromoneOperators.java:229-281 | an entry no step touches keeps its value |
| Pheromone.DepositUnchangedOrBounded | src/java/pheromone/PheromoneOperators.java:252-267 | under MMAS every entry is left alone or ends within [0.5, 3.5] |
| Pheromone.DepositTouchedBounded | src/java/pheromone/PheromoneOperators.java:252-267 | under MMAS every entry some step touches ends within [0.5, 3.5] |
| Pheromone.DepositTouchedOnce | src/java/pheromone/PheromoneOperators.java:246-275 | an entry touched by exactly one step ends as Clamp(old entry + delta) |
| Pheromone.DepositKeepsSymmetry | src/java/pheromone/PheromoneOperators.java:272-275 | both orientations are written, so a symmetric table stays symmetric |
| Pheromone.DepositNeverLowers | src/java/pheromone/PheromoneOperators.java:246-275 | without the clamp a non-negative delta on a symmetric table lowers no entry |
| Pheromone.LayPheromoneEntries | src/java/pheromone/PheromoneOperators.java:210-282 | on success, entries off the path's steps are unchanged and, under MMAS, touched ones lie within [0.5, 3.5] |
| Pheromone.LayPheromoneFailsIff | src/java/pheromone/PheromoneOperators.java:233-248 | depositing fails exactly when a step before the final vertex leaves the table or the path does not end with a marker |
| Pheromone.ClassPairsMembers | src/java/pheromone/PheromoneOperators.java:669-680 | the pairs written for a class are exactly its (method, attribute) pairs |
| Pheromone.FreezePairsMembers | src/java/pheromone/PheromoneOperators.java:664-682 | the pairs written are exactly the (method, attribute) pairs of the classes of the freeze list |
| Pheromone.OverwriteEntries | src/java/pheromone/PheromoneOperators.java:677-679 | after the overwrite an entry is 1,000,000 exactly when some pair touches it in either orientation; all others are unchanged |
| Pheromone.FreezeUpdateEntries | src/java/pheromone/PheromoneOperators.java:637-686 | freezeUpdate sets each frozen (method, attribute) entry and its mirror to 1,000,000, changes nothing else, and fails exactly when a pair leaves the table |
| PheromoneUpdate.ScalesFor | src/java/pheromone/PheromoneOperators.java:302-321 | the NAC/ATMR scales are 6/4 for CBS, 10/5.5 for TEST and GDP, 11/7 for SC, and any other problem number fails |
| PheromoneUpdate.MaximisedCBOReverses | src/java/pheromone/PheromoneOperators.java:337-340 | lower coupling gives a higher maximised CBO: 1 for no coupling, 0 for total coupling |
| PheromoneUpdate.MaximisedEleganceIsFraction | src/java/pheromone/PheromoneOperators.java:346-372 | the maximised NAC/ATMR equals min(x, s)/s: within [0,1], 0 iff x = 0, 1 iff x >= s |
| PheromoneUpdate.MaximisedEleganceGrows | src/java/pheromone/PheromoneOperators.java:350-372 | a larger raw metric never gives a smaller maximised value |
| PheromoneUpdate.Maximise | src/java/pheromone/PheromoneOperators.java:329-375 | selected objectives lie in [0,1] and unselected ones are 0.0 |
| PheromoneUpdate.MaximiseFailsIff | src/java/pheromone/PheromoneOperators.java:333-375 | normalisation fails exactly when no objective is selected or a selected one is outside its asserted range |
| PheromoneUpdate.RawFactor | src/java/pheromone/PheromoneOperators.java:528-532 | the raw factor succeeds exactly when all three inputs lie in [0,1] and the weights pass checkSum |
| PheromoneUpdate.RawFactorBounds | src/java/pheromone/PheromoneOperators.java:537-543 | with non-negative weights the weighted sum lies in [0, sum of weights]: below 1 + 1e-6, at most 1 when the weights sum to at most 1, and 0 for all-zero weights |
| PheromoneUpdate.RawFactorSingleObjective | src/java/pheromone/PheromoneOperators.java:772-792 | weights (1,0,0) pick out the maximised CBO and (0,1,0) the maximised NAC |
| PheromoneUpdate.DeltaBounds | src/java/pheromone/PheromoneOperators.java:389-395 | delta = raw^mu lies in [0,1]; mu = 0 gives 1; a larger mu never gives more |
| PheromoneUpdate.CalculateDeltaFailsIff | src/java/pheromone/PheromoneOperators.java:291-396 | computing delta fails exactly when the problem is unknown, normalisation fails or the weights fail checkSum |
| PheromoneUpdate.WithDominationCount | src/java/pheromone/PheromoneOperators.java:742 | a path is in the front for count d exactly when it is in the colony with domination count d |
| PheromoneUpdate.ParetoChoiceIsNonDominated | src/java/pheromone/PheromoneOperators.java:737-768 | the path chosen by the front walk is in the colony and no colony path has a lower domination count |
| PheromoneUpdate.ParetoChoiceReachesFront | src/java/pheromone/PheromoneOperators.java:749-754 | every member of the first non-empty front is chosen by some draw |
| PheromoneUpdate.ParetoWalk | src/java/pheromone/PheromoneOperators.java:737-769 | counting up from domination count 0 until a front is non-empty ends, and picks the drawn member of the lowest non-empty front |
| PheromoneUpdate.MMASChoice | src/java/pheromone/PheromoneOperators.java:695-792 | Pareto mode deposits for a non-dominated colony path with the run's weights; SO-CBO for the best CBO path and SO-NAC for the best NAC path, with single-objective weights that pass checkSum |
| PheromoneUpdate.Update | src/java/pheromone/PheromoneOperators.java:157-198 | an empty colony and mu > 10 fail; a successful update keeps the table N x N |
| PheromoneUpdate.MMASUpdateTouchesOnePath | src/java/pheromone/PheromoneOperators.java:168-172 | under MMAS only the entries on the steps of the one chosen path change, and each ends within [0.5, 3.5] |
| PheromoneUpdate.SimpleACONeverLowers | src/java/pheromone/PheromoneOperators.java:173-196 | under Simple-ACO with non-negative weights a symmetric table stays symmetric and no entry decreases |
| PheromoneUpdate.DepositColonyLoop | src/java/pheromone/PheromoneOperators.java:175-196 | the loop over the colony gives the same table or error as depositing path by path |
| Weighting.Make | src/java/myUtils/Weights.java:35-44 | the three-argument constructor succeeds exactly when each weight lies in [0,1] and stores the values unchanged |
| Weighting.CheckSum | src/java/myUtils/Weights.java:49-76 | no check with a NaN weight; no check when all three are 0.0; otherwise the sum must lie strictly within 1 +- 1e-6 |
| Weighting.CheckSumAsserts | src/java/myUtils/Weights.java:64-75 | checkSum fails only when the sum is checked and off, and leaves the weights as they were |
| Weighting.DefaultIsUninitialised | src/java/myUtils/Weights.java:27-33 | the default weights are all 0.0, not (1,0,0), and checkSum skips them |
| Weighting.ExactSumPasses | src/java/myUtils/Weights.java:64-75 | weights without NaN summing to exactly 1 pass checkSum |
| Weighting.CheckSumCatches | src/java/myUtils/Weights.java:57-75 | a sum outside the tolerance is caught unless all weights are 0.0 |
| Controller.NumberedEntries | src/java/engine/Controller.java:248-255 | the k-th vertex carries the k-th name and the number start + k |
| Controller.InitialiseLists | src/java/engine/Controller.java:240-277 | the lists succeed exactly when their sizes match the problem's unique data and action counts, and an attribute mismatch is reported as such |
| Controller.ContiguousNumbering | src/java/engine/Controller.java:243-276 | attributes are numbered 0..A-1 in input order, then methods A..A+M-1; the combined list has A+M vertices, vertex k numbered k |
| Controller.InitialiseListsLoop | src/java/engine/Controller.java:240-277 | the two loops with one shared counter give the same lists or error as the definition |
| Controller.FirstValidCharacterised | src/java/engine/Controller.java:619-625 | every solution before the first valid one is invalid, and the one reached is valid unless the cap of 50 was hit |
| Controller.RunAntRetries | src/java/engine/Controller.java:603-633 | with constraint handling an ant calls generateSolution at most 51 times and keeps the first valid solution, or the 51st; without it, the first solution and 0 attempts |
| Controller.RunAntLoop | src/java/engine/Controller.java:603-633 | the retry loop as written gives the same path and attempt count as the definition |
| Controller.GenerateCharacterised | src/java/engine/Controller.java:529-640 | each ant adds exactly one path, so the colony has one path per ant, in ant order; retries count the ants that retried, retries <= attemptTotal <= 50 retries; without constraint handling both are 0 |
| Controller.GenerateLoop | src/java/engine/Controller.java:526-640 | the ant loop gives the same colony and statistics as the definition |
| Controller.RecordStatistics | src/java/engine/Controller.java:642-646 | recording fails exactly when the iteration is outside the retry array, or outside the average array when some ant retried |
| Controller.RecordedStatistics | src/java/engine/Controller.java:642-646 | only the iteration's entries change; the average is recorded only when some ant retried, and it then lies in [1, 50] |
| Controller.TrackBest | src/java/engine/Controller.java:705-709 | the tracked best is at most the start and every value, and its index is the previous one or a colony index |
| Controller.TrackBestCharacterised | src/java/engine/Controller.java:669-717 | when some value beats the start, the best is the minimum found at the FIRST index holding it; otherwise the start value and the previous index are kept |
| Controller.DaemonActions | src/java/engine/Controller.java:678-770 | it fails exactly when the colony does not hold NUMBER_OF_ANTS paths, the CBO total is negative, a tracker finds nothing below its start and keeps a previous index outside the colony, or a domination count is not 0; on success the three best indices lie in the colony |
| Controller.DaemonActionsAccepts | src/java/engine/Controller.java:678-770 | a colony of NUMBER_OF_ANTS paths with CBOs in [0,1], domination counts reset and previous best indices inside the colony is accepted |
| Controller.DaemonActionsBestCBO | src/java/engine/Controller.java:665-754 | bestSoFarCBO = min(1.0, min CBO) at the first index achieving it, or 1.0 and the previous index when nothing beats 1.0; the average CBO lies in [0,1] |
| Controller.DaemonActionsBestNAC | src/java/engine/Controller.java:670-716 | the NAC tracker works the same way from the start value 100.0 |
| Controller.TrackColony | src/java/engine/Controller.java:682-739 | the single loop updating three trackers and the running total agrees with the three separate scans and the total |
| Controller.ThresholdWithin | src/java/engine/Controller.java:827-836 | for a best CBO in [0,1] the interval threshold max(1, round(CBO^2 x 200)) lies in [1, 200]; it is 200 at CBO 1 and 1 at CBO 0 |
| Controller.CheckForInteraction | src/java/engine/Controller.java:824-849 | the interval stays in [0, t]; interaction is signalled exactly when the interval had reached t, and then the interval resets to 0 |
| Controller.ChecksCountUp | src/java/engine/Controller.java:838-842 | from interval i, the next k checks with i + k <= t count up without signalling |
| Controller.InteractionPeriod | src/java/engine/Controller.java:824-849 | with the best CBO fixed, a reset interval signals once every t + 1 checks: t checks without, then one with, back at 0 |
| Controller.ElitistInsert | src/java/engine/Controller.java:854-866 | the colony keeps its size; each entry is its old path or an archive path; it fails exactly when a non-empty archive meets an empty colony |
| Controller.ElitistInsertPlacement | src/java/engine/Controller.java:858-865 | the bottom of the archive, popped last, always survives at the last drawn index; indices no draw picks keep their paths |
| Controller.ElitistInsertLoop | src/java/engine/Controller.java:854-866 | the pop loop gives the same colony as the definition and leaves the archive empty |
| Controller.UpdateEliteArchive | src/java/engine/Controller.java:872-937 | the archive holds one path per enabled objective among CBO and NAC, at most 2, each with domination count 0 |
| Controller.EliteArchiveHoldsBest | src/java/engine/Controller.java:874-921 | the rebuild fails exactly when some objective has no value below 100; otherwise it holds the first least-CBO path and, on top, the first least-NAC path |
| Controller.CalculateWeights | src/java/engine/Controller.java:1184-1201 | any coefficient equal to 0.0 resets the weights to (1,0,0); otherwise any NaN leaves them unchanged |
| Controller.CalculateWeightsNormalises | src/java/engine/Controller.java:1202-1213 | for finite non-zero coefficients the weights become the shares |c_i| / sum |c_j|, which sum to 1, so checkSum passes |
| Controller.CalculateWeightsKeepsUsable | src/java/engine/Controller.java:1179-1218 | non-negative weights summing to at most 1 stay so through calculateWeights, on every branch |
| Controller.InteractionResetsWeights | src/java/engine/Controller.java:1055-1122 | whatever the coefficients, an interaction returns action 1, leaves the weights at (1,0,0), and shows a path of the first non-empty Pareto front |

## Left out

- Randomness: `Utility.getRandomInRange` is a `draw` parameter. Front selection uses `draw % n`, and `elitistInsert` takes one draw per popped path.
- Ant construction: `HeuristicAnt2`, `generateSolution` and `isValidPath` are not part of this model. An ant is given as the solutions its successive calls would produce, with their validity.
- Domination counts: `ParetoOperators` is not part of this model. Counts are inputs carried by each path, and `getPathsWithDomCount` is taken to keep colony order. `calculateDominationCount2` at the end of `daemonActions` is not modelled.
- Fitness inside the controller: `daemonActions` calls the daemon for every path. `Controller.DaemonActions` takes the paths with their scores already set, and `Daemon.Evaluate` models the scoring itself.
- Standard deviation: `Math.sqrt` is left out, and NAC and ATMR are kept as population variances. Zero, non-negativity and ordering carry over; the numeric values do not.
- `Math.pow`: mu is a natural-number exponent, which covers the configured value 3.0. A fractional mu is not modelled.
- `Math.round`: modelled as floor(x + 0.5). The saturation of `long` for huge values is not modelled; CBO lies in [0,1], so it cannot arise.
- NaN and infinities in path objectives and in pheromone entries are not modelled. NaN is modelled only in the weights and the regression coefficients.
- PheromoneUpdate.RawFactor, PheromoneUpdate.CalculateDelta, PheromoneUpdate.Update: require weights without NaN. `checkSum` skips NaN weights and the sum would then be NaN. `Controller.CalculateWeightsKeepsUsable` shows that weights never become NaN on the modelled paths.
- Pheromone.Evaporate (elitist mode): requires a non-negative table. The bound lemmas need it, and deposits and uniform evaporation keep non-negative tables non-negative.
- The pheromone table is an N x N sequence of reals. Java reads outside it are modelled as `VertexOutOfRange` errors.
- Partial (single-class) paths: `layPheromoneForCohesion` and `calculateClassPartialSolutionFitness` are not modelled. Under Simple-ACO the source adds each such path's cohesion to its step entries (src/java/pheromone/PheromoneOperators.java:186-189 and 588-629). The model deposits nothing for them instead; `PheromoneUpdate.PartialPathsDepositNothing` states only this stand-in, not the source's behaviour.
- `doRegression`: the OpenForecast regression is not part of this model. Its coefficients are inputs to `Controller.CalculateWeights`.
- Aliasing: `updateEliteArchive` resets the domination count of path objects the colony shares. The model resets copies in the archive and leaves the colony as it was.
- `performInteraction`: a colony is required to be non-empty, since the front walk never ends on an empty colony. The servlet hand-off and the commented-out dialog are not modelled.
- `performInteraction`, `elitistInsert` and `generateSolutions` are modelled for one call each. The surrounding `run` loop, its timing and its result reporting are not modelled.
- `calculateRawFactorWithFixedCBOWeight`, `calculateRawValueTest` and `calculateDelta2` are unused by the modelled operations and are not modelled. So is the `useTable` overload of `calculateDesignSolutionPathFitness`.
- Console output is not modelled, including `pt.show()`, `showLists` and `doMultiObjectiveValues`; nor are the web front end, the servlet and session classes, and `BatchMain`.
- Configuration: the `AlgorithmParameters` and `Parameters` values are the `Config.Settings` record and constants. The run does not change them.

# Information dynamics of ensemble simulations, modelled in Dafny

The repository estimates information-theoretic measures on the states of
simulated networks. These measures are entropy, mutual information, transfer
entropy and multiple mutual information.

A model subclass defines a network of nodes and links and a dynamics. The
ensemble driver then works in four steps:
- it starts many replicates from random states;
- it runs each replicate up to a time `t`;
- it feeds the states of the last step into an estimator, either a histogram
  (binning) or the k-nearest-neighbour (KSG) source;
- it turns the estimator's statistics into the measures of every node and link,
  and appends them as time-stamped, `|`-separated records to result files.

A separate reader parses those files back for plotting.

This project models, as Dafny modules:

- **Histogram statistics** (`Histogram`, `FromSimpleBin`, `SimpleBinning`):
  - the `Q^Dimension` count table and the one-cell update per replicate;
  - the marginal tables `Meshed_for_`, with the total they preserve;
  - the probability table and its failure on a zero total.
- **The entropy engine** (`SimpleBinning`, `Entropy`):
  - entropy from a table;
  - conditional entropy, mutual information and the recursive multiple mutual
    information, which fails to terminate with fewer than three variables.
- **Additional information variables** (`SeveralVariables`, `AbnSeveralVariables`):
  - the `H_XYZ`, `H_XYZW` and `T2` variables: their names, their activation
    flags, their statistics and their compositions.
- **The information network** (`InformationNetwork`, `AbnInformationNetwork`):
  - nodes and links, with two-way neighbour lists;
  - the `Calculate` methods that fill the measure tables of a node or a link;
  - `Set_from_List`.
- **The ensemble drivers** of both library revisions (`ModelBasics`,
  `AbnModelBasics`, with `Driver`, `Records`, `Text`):
  - the time window;
  - drawing the initial states and committing the update buffer;
  - feeding the source on the last step;
  - the schedule of ensembles over links and nodes;
  - the records saved, the properties file, the file headers and the snapshot
    lines;
  - the E estimation and its guard;
  - the post-analysis replay.
- **The figure-8 gene regulatory network** (`AbnMain`):
  - the topology `A`, `B1 .. Bn`, `C1 .. Cm`;
  - the Boolean shift-register update;
  - the estimator it selects.
- **The KSG source bookkeeping** (`Ksg`): the interleaved names, the rows
  collected or read back from a snapshot file, the tests of shape and rank, the
  conditional-entropy composition and the clamp of neighbour counts.
- **The result-file reader** (`PlotResults`):
  - time-stamped records, the properties file, and the per-key series of a link
    or a node;
  - round-trip lemmas: what the drivers write reads back as the values printed.

Python dictionaries keep insertion order, and the sources depend on it: the key
order decides the order of columns, variables and neighbours. So they are
association lists (`Dicts`). Exceptions are `Result`/`Outcome` values
(`Wrappers`). Each exception is named after the Python exception it stands for.

In a few places the two library revisions disagree with each other, or a code
path raises whatever its input. The model keeps the code's behaviour, and lemmas
state the consequence:
- The root revision's `Calculate` stores one float per measure, but its
  `Save_Info_Vars` indexes the stored value by time. So every record after time 1
  raises a TypeError (`ModelBasics`).
- `Estimate_E` reads `Var_["H0'"]`, a key that no `Calculate` stores, so it always
  raises.
- The binning source orders its variables `[X, Y, X', Y']` and the KSG source
  orders them `[X, X', Y, Y']`.
- The additional variables of the root revision set `self.Analysis` rather than
  `self.Source.Analysis`, so their sources stay out of realtime mode.

## Model

| member | source | states |
|---|---|---|
| Histogram.Increment | on_Model/InfoDyn_lib/Estimators/Simple_Binning.py:40 | `t[k] += 1` fails with KeyError exactly when `k` is not a cell; otherwise the keys stay, `k` gains one, every other cell keeps its count, and the total grows by one |
| Histogram.Accumulate | on_Model/004_ABN_for_GRN/InfoDyn_lib/From_Simple_Bin.py:51-54 | adding `c` into a cell: a present cell grows by `c`, a new one is appended with `c`; other cells are unchanged and the total grows by `c` |
| Histogram.GridMembers | on_Model/InfoDyn_lib/Estimators/Simple_Binning.py:24-29 | the cells visited by the nested `range` loops are exactly the tuples with one in-range value per coordinate |
| Histogram.GridDistinct | on_Model/InfoDyn_lib/Estimators/Simple_Binning.py:24-29 | the nested loops never visit a cell twice |
| Histogram.IndexOf | on_Model/004_ABN_for_GRN/InfoDyn_lib/From_Simple_Bin.py:46 | `list.index`: the first position of the name, or the ValueError exactly when the name is absent |
| Histogram.Project | on_Model/004_ABN_for_GRN/InfoDyn_lib/From_Simple_Bin.py:57-61 | `Mesh_Tuple`: one coordinate per index, in index order; it fails with IndexError exactly when an index is past the tuple |
| Histogram.MarginalDefined | on_Model/004_ABN_for_GRN/InfoDyn_lib/From_Simple_Bin.py:48-55 | marginalising fails exactly when some cell does not project |
| Histogram.MarginalError | on_Model/004_ABN_for_GRN/InfoDyn_lib/From_Simple_Bin.py:48-55 | the only failure of a marginal is the IndexError of a projection |
| Histogram.MarginalTotal | on_Model/004_ABN_for_GRN/InfoDyn_lib/From_Simple_Bin.py:48-55 | a marginal keeps the grand total and has no repeated cell |
| Histogram.MarginalCounts | on_Model/004_ABN_for_GRN/InfoDyn_lib/From_Simple_Bin.py:48-55 | a marginal cell exists exactly when some cell projects onto it, and its count is the sum of the counts of those cells |
| Histogram.Pdf | on_Model/004_ABN_for_GRN/InfoDyn_lib/From_Simple_Bin.py:63-68 | the distribution fails with the zero-total ValueError exactly when the total is zero |
| Histogram.PdfProperties | on_Model/004_ABN_for_GRN/InfoDyn_lib/From_Simple_Bin.py:63-68 | with a non-zero total: the cells of the histogram, each count over the total, each in [0, 1], summing to 1 |
| Histogram.MassNormalized | on_Model/004_ABN_for_GRN/InfoDyn_lib/From_Simple_Bin.py:66-67 | the probabilities sum to the table's total over the divisor |
| Histogram.ZeroedTotal | on_Model/InfoDyn_lib/Estimators/Simple_Binning.py:24-29 | re-zeroing every cell of a histogram over its own grid leaves a total of zero |
| Histogram.MarginalSwapped | on_Model/004_ABN_for_GRN/InfoDyn_lib/From_Simple_Bin.py:48-55 | the marginal over exchanged coordinates is the marginal with every cell's coordinates exchanged, in the same order |
| Histogram.PdfSwapped | on_Model/004_ABN_for_GRN/InfoDyn_lib/From_Simple_Bin.py:63-68 | the distribution of the exchanged histogram is the exchanged distribution |
| FromSimpleBin.MeshIndices | on_Model/004_ABN_for_GRN/InfoDyn_lib/From_Simple_Bin.py:44-46 | the coordinates of the requested names, one per name, naming that name; success exactly when every name is known (no names means no lookups) |
| FromSimpleBin.MeshTuple | on_Model/004_ABN_for_GRN/InfoDyn_lib/From_Simple_Bin.py:57-61 | the loop computes the projection `Project` |
| FromSimpleBin.ResolveNames | on_Model/004_ABN_for_GRN/InfoDyn_lib/From_Simple_Bin.py:44-46 | the loop computes `MeshIndices` |
| FromSimpleBin.CountProjections | on_Model/004_ABN_for_GRN/InfoDyn_lib/From_Simple_Bin.py:48-55 | the loop computes the marginal `Marginal` |
| FromSimpleBin.AddCount | on_Model/004_ABN_for_GRN/InfoDyn_lib/From_Simple_Bin.py:51-54 | the branch computes `Accumulate` |
| FromSimpleBin.MeshedFor | on_Model/004_ABN_for_GRN/InfoDyn_lib/From_Simple_Bin.py:40-55 | computes `Meshed`: the histogram itself for no names, else its marginal |
| FromSimpleBin.CalculateTotalOccurance | on_Model/004_ABN_for_GRN/InfoDyn_lib/From_Simple_Bin.py:73-79 | the sum of the counts, and the ValueError exactly when it is zero |
| FromSimpleBin.GeneratePdf | on_Model/004_ABN_for_GRN/InfoDyn_lib/From_Simple_Bin.py:63-68 | the loop computes `Pdf` |
| FromSimpleBin.GenerateDesiredPdf | on_Model/004_ABN_for_GRN/InfoDyn_lib/From_Simple_Bin.py:70-71 | computes `DesiredPdf`, the distribution of the marginal |
| FromSimpleBin.MeshedProperties | on_Model/004_ABN_for_GRN/InfoDyn_lib/From_Simple_Bin.py:48-55 | the marginal keeps the total, has no repeated cell, one coordinate per name, and counts in each cell exactly the cells projecting onto it |
| FromSimpleBin.UnknownNameFails | on_Model/004_ABN_for_GRN/InfoDyn_lib/From_Simple_Bin.py:46 | a name the source lacks makes the marginal fail |
| FromSimpleBin.DesiredPdfProperties | on_Model/004_ABN_for_GRN/InfoDyn_lib/From_Simple_Bin.py:63-79 | the zero-total ValueError exactly when the marginal's total is zero; otherwise the marginal's cells, summing to 1 |
| FromSimpleBin.MeshIndicesFirst | on_Model/004_ABN_for_GRN/InfoDyn_lib/From_Simple_Bin.py:46 | each coordinate is the first position of its name |
| FromSimpleBin.MeshedSwapped | on_Model/004_ABN_for_GRN/InfoDyn_lib/From_Simple_Bin.py:40-55 | naming the first two variables the other way round gives the marginal with those coordinates exchanged |
| SimpleBinning.Coordinate | on_Model/InfoDyn_lib/Estimators/Simple_Binning.py:36-39 | a primed name reads the buffer under the name without its prime, any other name reads the state; fails exactly for an empty name (IndexError) or a missing key (KeyError) |
| SimpleBinning.CellOf | on_Model/InfoDyn_lib/Estimators/Simple_Binning.py:34-39 | the cell succeeds exactly when every name is readable, and then holds one coordinate per name, in name order |
| SimpleBinning.ReadCell | on_Model/InfoDyn_lib/Estimators/Simple_Binning.py:34-39 | the loop computes `CellOf` |
| SimpleBinning.ReadCoordinate | on_Model/InfoDyn_lib/Estimators/Simple_Binning.py:36-39 | computes `Coordinate` |
| SimpleBinning.CellOfFirstError | on_Model/InfoDyn_lib/Estimators/Simple_Binning.py:35-39 | the update fails with the error of the first name that cannot be read |
| SimpleBinning.UpdateOneCell | on_Model/InfoDyn_lib/Estimators/Simple_Binning.py:40 | an update succeeds exactly when the replicate's cell is in the histogram; then keys stay, that cell gains one, others are unchanged and the total grows by one |
| SimpleBinning.InitialTableCells | on_Model/InfoDyn_lib/Estimators/Simple_Binning.py:24-29 | after the first initialisation the cells are exactly the tuples of `{0..Q-1}^Dimension`, each once, each zero, total zero |
| SimpleBinning.Source.constructor | on_Model/InfoDyn_lib/Estimators/Simple_Binning.py:6-12 | realtime, pairwise, the given Q and Dimension, an empty histogram, no names yet |
| SimpleBinning.Source.InitSourceRealtime | on_Model/InfoDyn_lib/Estimators/Simple_Binning.py:14-22 | outside realtime nothing changes; a pairwise source names `[X, Y, X', Y']`; a name count other than Dimension is the ValueError; otherwise every grid cell is set to zero |
| SimpleBinning.Source.RecursiveInitStatistics | on_Model/InfoDyn_lib/Estimators/Simple_Binning.py:24-29 | the cells set to zero are those of the grid below the index, in loop order |
| SimpleBinning.Source.InitCellsBelow | on_Model/InfoDyn_lib/Estimators/Simple_Binning.py:25-29 | one iteration of the loop: the cells below `Index_List + [i]` |
| SimpleBinning.Source.UpdateSourceRealtime | on_Model/InfoDyn_lib/Estimators/Simple_Binning.py:31-40 | outside realtime nothing changes; otherwise the histogram becomes `Updated` of the old one, or stays as it was on the exception |
| SimpleBinning.Source.MeshedFor | on_Model/InfoDyn_lib/Estimators/Simple_Binning.py:43-58 | the marginal of the current histogram, as `FromSimpleBin.Meshed` |
| SimpleBinning.Source.GenerateDesiredPdf | on_Model/InfoDyn_lib/Estimators/Simple_Binning.py:73-74 | the distribution of the current marginal, as `FromSimpleBin.DesiredPdf` |
| SimpleBinning.Estimator.constructor | on_Model/InfoDyn_lib/Estimators/Simple_Binning.py:85-88 | the name of the method and a fresh realtime pairwise source |
| SimpleBinning.Estimator.Entropy | on_Model/InfoDyn_lib/Estimators/Simple_Binning.py:90-97 | the entropy `H` of the source's current distribution of the names |
| EntropyMeasures.H | on_Model/004_ABN_for_GRN/InfoDyn_lib/Entropy.py:5-9 | the entropy fails exactly when the distribution does |
| EntropyMeasures.SumEntropy | on_Model/004_ABN_for_GRN/InfoDyn_lib/Entropy.py:11-17 | the loop computes `-Σ p ln p` over the nonzero cells |
| EntropyMeasures.Entropy.FromPdf | on_Model/004_ABN_for_GRN/InfoDyn_lib/Entropy.py:5-9 | the object keeps the distribution and its entropy |
| EntropyMeasures.Entropy.CalculateEntropy | on_Model/004_ABN_for_GRN/InfoDyn_lib/Entropy.py:11-17 | the value is recomputed from the distribution |
| EntropyMeasures.NewEntropy | on_Model/004_ABN_for_GRN/InfoDyn_lib/Entropy.py:5-9 | the object exists exactly when the distribution does, and then holds `H` |
| EntropyMeasures.ZeroCellContributesNothing | on_Model/004_ABN_for_GRN/InfoDyn_lib/Entropy.py:15 | a cell of probability zero adds nothing, wherever it sits |
| EntropyMeasures.EntropySumAppend | on_Model/004_ABN_for_GRN/InfoDyn_lib/Entropy.py:13-16 | the sum over two runs of cells is the sum of their sums |
| EntropyMeasures.EntropyNonNegative | on_Model/004_ABN_for_GRN/InfoDyn_lib/Entropy.py:13-16 | with probabilities in [0, 1] and `ln` not positive on (0, 1], the entropy is not negative |
| EntropyMeasures.CertainOutcome | on_Model/004_ABN_for_GRN/InfoDyn_lib/Entropy.py:13-16 | probabilities all 0 or 1 give entropy 0 when `ln 1 = 0` |
| EntropyMeasures.HNonNegative | on_Model/004_ABN_for_GRN/InfoDyn_lib/Entropy.py:5-17 | the entropy of any marginal is not negative when `ln` is not positive on (0, 1] |
| EntropyMeasures.ConditionalEntropyUnconditioned | on_Model/004_ABN_for_GRN/InfoDyn_lib/Entropy.py:21-22 | with no condition the conditional entropy is the entropy |
| EntropyMeasures.ChainRule | on_Model/004_ABN_for_GRN/InfoDyn_lib/Entropy.py:23-26 | `CE(A|B) + H(B) = H(A+B)`; it fails exactly when one of the two entropies does, and with `H(B)`'s error first |
| EntropyMeasures.MutualInformationCases | on_Model/004_ABN_for_GRN/InfoDyn_lib/Entropy.py:28-33 | `CE(x|K) + CE(y|K) - CE(xy|K)`, failing exactly when one does; with fewer than two names the IndexError of `For[1]` unless an earlier step failed |
| EntropyMeasures.MutualInformationSymmetric | on_Model/004_ABN_for_GRN/InfoDyn_lib/Entropy.py:28-33 | `I(X;Y|K) = I(Y;X|K)`, both in whether it can be computed and in its value |
| EntropyMeasures.HSwapped | on_Model/004_ABN_for_GRN/InfoDyn_lib/Entropy.py:5-17 | the joint entropy does not depend on the order of the first two names |
| EntropyMeasures.MultipleMutualInformationShort | on_Model/004_ABN_for_GRN/InfoDyn_lib/Entropy.py:36-46 | with fewer than three names the recursion never reaches order 2 and ends in the RecursionError |
| EntropyMeasures.MultipleMutualInformationBase | on_Model/004_ABN_for_GRN/InfoDyn_lib/Entropy.py:43-44 | three names: `MI(For[:-1], K) - MI(For[:-1], K + [For[-1]])` |
| EntropyMeasures.MultipleMutualInformationStep | on_Model/004_ABN_for_GRN/InfoDyn_lib/Entropy.py:39-46 | above three names each step drops the last name and lowers the order by one, keeping `len(For) = Order + 1` |
| EntropyMeasures.RecursionTerminates | on_Model/004_ABN_for_GRN/InfoDyn_lib/Entropy.py:42-46 | from order 2 upwards the recursion reaches its base case |
| EntropyMeasures.MultipleMutualInformationTerminates | on_Model/004_ABN_for_GRN/InfoDyn_lib/Entropy.py:36-46 | with three or more names the multiple mutual information terminates |
| Histogram.AccumulateHit | on_Model/004_ABN_for_GRN/InfoDyn_lib/From_Simple_Bin.py:51-52 | accumulating into a cell leaves it present with its old count plus `c` |
| Histogram.AccumulateMiss | on_Model/004_ABN_for_GRN/InfoDyn_lib/From_Simple_Bin.py:51-54 | accumulating into one cell leaves every other cell as it was |
| FromSimpleBin.MeshIndicesSwapped | on_Model/004_ABN_for_GRN/InfoDyn_lib/From_Simple_Bin.py:44-46 | naming the first two variables the other way round exchanges the first two coordinates and nothing else |
| FromSimpleBin.MeshIndicesPrefixError | on_Model/004_ABN_for_GRN/InfoDyn_lib/From_Simple_Bin.py:44-46 | the first name that fails to resolve decides the error of the whole lookup |
| EntropyMeasures.HNotRecursion | on_Model/004_ABN_for_GRN/InfoDyn_lib/Entropy.py:5-17 | an entropy never fails with the recursion error |
| EntropyMeasures.MutualInformationNotRecursion | on_Model/004_ABN_for_GRN/InfoDyn_lib/Entropy.py:28-33 | a mutual information never fails with the recursion error |
| EntropyMeasures.EntropySumSwapped | on_Model/004_ABN_for_GRN/InfoDyn_lib/Entropy.py:13-16 | exchanging the first two coordinates of every cell keeps the entropy sum |
| SeveralVariables.CoordinateNames | on_Model/InfoDyn_lib/Estimators/Several_Information_Variables.py:33-34 | three names for `H_XYZ`, four for `H_XYZW`, and for `T2` the triple followed by the primed X and Y (line 61) |
| SeveralVariables.EstimateKeys | on_Model/InfoDyn_lib/Estimators/Several_Information_Variables.py:14-15 | only the base class writes no key |
| SeveralVariables.EstimateResults | on_Model/InfoDyn_lib/Estimators/Several_Information_Variables.py:36-72 | one value per key written |
| SeveralVariables.AdditionalVariable.Plain | on_Model/InfoDyn_lib/Estimators/Several_Information_Variables.py:6-12 | a binning estimator of that size whose source is taken out of realtime mode, with no name and no values |
| SeveralVariables.AdditionalVariable.OfKind | on_Model/InfoDyn_lib/Estimators/Several_Information_Variables.py:27-61 | `Dimension` from the names, the name, `Analysis = "Realtime"` on the estimator itself, a `not_Pairwise` source holding the names and still outside realtime mode |
| SeveralVariables.AdditionalVariable.EstimateTheVariable | on_Model/InfoDyn_lib/Estimators/Several_Information_Variables.py:36-72 | the kind's values written into `Value` key by key until the first estimator exception, which is the outcome; name and flag unchanged |
| SeveralVariables.AdditionalVariable.SavedVariable | on_Model/InfoDyn_lib/Estimators/Several_Information_Variables.py:17-25 | nothing outside realtime mode; otherwise `Name.txt` gains the time as `%03d: `, each value as `%0.3f|` and the line end, and no other file changes |
| SeveralVariables.JointIsEntropy | on_Model/InfoDyn_lib/Estimators/Several_Information_Variables.py:37-51 | the joint entropies are the conditional entropy with nothing known, that is the entropy of all the names |
| SeveralVariables.ThreeWay | on_Model/InfoDyn_lib/Estimators/Several_Information_Variables.py:70-72 | an MMI of three variables is `MI(first two | K) - MI(first two | K + [third])` and never hits the recursion limit |
| SeveralVariables.TransferTerminates | on_Model/InfoDyn_lib/Estimators/Several_Information_Variables.py:70-72 | none of the three transfer entropies fails with the recursion error |
| SeveralVariables.EmptyEntropy | on_Model/InfoDyn_lib/Estimators/Several_Information_Variables.py:9 | an empty histogram gives the zero-total ValueError for every entropy over known names |
| SeveralVariables.EmptyConditional | on_Model/InfoDyn_lib/Estimators/Several_Information_Variables.py:9 | the same for every conditional entropy |
| SeveralVariables.EmptyMutual | on_Model/InfoDyn_lib/Estimators/Several_Information_Variables.py:9 | the same for every mutual information |
| SeveralVariables.EmptyMultiple | on_Model/InfoDyn_lib/Estimators/Several_Information_Variables.py:9 | the same for every multiple mutual information of three or more variables |
| SeveralVariables.UnfedEstimate | on_Model/InfoDyn_lib/Estimators/Several_Information_Variables.py:9-72 | a subclass's source is never fed (the flag sits on the estimator, not on the source), so estimation fails with the zero-total error at its first value and leaves `Value` unchanged |
| SeveralVariables.InertVariable | on_Model/InfoDyn_lib/Estimators/Several_Information_Variables.py:9-19 | a subclass's source stays empty through initialisation and updates, and saving it writes nothing |
| AbnSeveralVariables.DimensionOf | on_Model/004_ABN_for_GRN/InfoDyn_lib/Several_Information_Variables.py:11-98 | the base class alone has dimension 0 |
| AbnSeveralVariables.TransferKeys | on_Model/004_ABN_for_GRN/InfoDyn_lib/Several_Information_Variables.py:97 | the three keys of a `T2` value |
| AbnSeveralVariables.CoordinateNames | on_Model/004_ABN_for_GRN/InfoDyn_lib/Several_Information_Variables.py:51-104 | one coordinate name per dimension |
| AbnSeveralVariables.Lookup | on_Model/004_ABN_for_GRN/InfoDyn_lib/Several_Information_Variables.py:48 | `d[k]`: the value exactly when the key is present, otherwise the KeyError |
| AbnSeveralVariables.Readings | on_Model/004_ABN_for_GRN/InfoDyn_lib/Several_Information_Variables.py:48-101 | one lookup per coordinate |
| AbnSeveralVariables.CellOfKind | on_Model/004_ABN_for_GRN/InfoDyn_lib/Several_Information_Variables.py:48-101 | the key succeeds exactly when every lookup does and then holds their values in order; a failure is the KeyError |
| AbnSeveralVariables.EstimateResults | on_Model/004_ABN_for_GRN/InfoDyn_lib/Several_Information_Variables.py:50-108 | nine measures for `H_XYZ`, one for `H_XYZW`, three for `T2`, none for the base class |
| AbnSeveralVariables.BlockStep | on_Model/004_ABN_for_GRN/InfoDyn_lib/Several_Information_Variables.py:27-29 | one more turn of the loop adds the cells under `Index + [i]` after those already set |
| AbnSeveralVariables.LeafGrid | on_Model/004_ABN_for_GRN/InfoDyn_lib/Several_Information_Variables.py:24-26 | with no sizes left the index itself becomes the one cell, set to 0 |
| AbnSeveralVariables.InformationVariable.constructor | on_Model/004_ABN_for_GRN/InfoDyn_lib/Several_Information_Variables.py:6-98 | an empty histogram, the class's initial value, name and dimension |
| AbnSeveralVariables.InformationVariable.InitializeStatistics | on_Model/004_ABN_for_GRN/InfoDyn_lib/Several_Information_Variables.py:13-19 | every cell of `{0..Size-1}^Dimension` set to 0 in lexicographic order; name, value and dimension unchanged |
| AbnSeveralVariables.InformationVariable.RecurrInitializeStatistics | on_Model/004_ABN_for_GRN/InfoDyn_lib/Several_Information_Variables.py:21-29 | the cells set are the grid of `Size_List` behind the positions already fixed, which stay as they were |
| AbnSeveralVariables.InformationVariable.InitializeBelow | on_Model/004_ABN_for_GRN/InfoDyn_lib/Several_Information_Variables.py:27-29 | one turn of the loop: `Index[dl - l] = i`, then the cells below it |
| AbnSeveralVariables.InformationVariable.UpdateStatistics | on_Model/004_ABN_for_GRN/InfoDyn_lib/Several_Information_Variables.py:31-101 | the histogram becomes `UpdatedHistogram` of the old one, or stays as it was with the KeyError |
| AbnSeveralVariables.InformationVariable.EstimateTheVariable | on_Model/004_ABN_for_GRN/InfoDyn_lib/Several_Information_Variables.py:34-108 | the outcome is the first failing measure; `T2` stores its three values in turn under their keys; the joint entropies store the entropy when every measure succeeds and otherwise keep the old value |
| AbnSeveralVariables.InformationVariable.SavedLines | on_Model/004_ABN_for_GRN/InfoDyn_lib/Several_Information_Variables.py:37-118 | the base class writes nothing; the others append exactly one line to `Name.txt` |
| AbnSeveralVariables.InitialHistogram | on_Model/004_ABN_for_GRN/InfoDyn_lib/Several_Information_Variables.py:13-29 | initialisation from empty creates exactly one zero cell for each tuple of `{0..Size-1}^Dimension`, each once, in grid order |
| AbnSeveralVariables.BaseHistogram | on_Model/004_ABN_for_GRN/InfoDyn_lib/Several_Information_Variables.py:11-26 | the base class's histogram is the single cell `()` |
| AbnSeveralVariables.CellContents | on_Model/004_ABN_for_GRN/InfoDyn_lib/Several_Information_Variables.py:48-101 | the cell holds the states of the named nodes, and for `T2` then the buffered states of X and Y |
| AbnSeveralVariables.UpdateOneCell | on_Model/004_ABN_for_GRN/InfoDyn_lib/Several_Information_Variables.py:48-101 | an update succeeds exactly when the lookups do and the cell exists; then keys stay, that cell gains one, others are unchanged and the total grows by one |
| AbnSeveralVariables.UpdateInGrid | on_Model/004_ABN_for_GRN/InfoDyn_lib/Several_Information_Variables.py:13-101 | a replicate whose states lie in `0..Size-1` always finds its cell in the initialised histogram |
| AbnSeveralVariables.JointOfThreeKept | on_Model/004_ABN_for_GRN/InfoDyn_lib/Several_Information_Variables.py:53-64 | `H_XYZ` keeps the joint entropy of its three coordinates |
| AbnSeveralVariables.JointOfFourKept | on_Model/004_ABN_for_GRN/InfoDyn_lib/Several_Information_Variables.py:84 | `H_XYZW` computes only the joint entropy of its four coordinates |
| AbnSeveralVariables.TransferTerminates | on_Model/004_ABN_for_GRN/InfoDyn_lib/Several_Information_Variables.py:106-108 | none of the three transfer entropies is a RecursionError, given any estimator that terminates from three variables on |
| InformationNetwork.Zip | on_Model/InfoDyn_lib/Information_Network.py:8-20 | a dictionary display: exactly those keys, in order, with those values |
| InformationNetwork.Zeros | on_Model/InfoDyn_lib/Information_Network.py:8-20 | the initial tables: the fixed keys, every entry zero |
| InformationNetwork.NodeResults | on_Model/InfoDyn_lib/Information_Network.py:12-13 | the two node measures, in assignment order |
| InformationNetwork.LinkResults | on_Model/InfoDyn_lib/Information_Network.py:28-41 | the thirteen link measures, in assignment order |
| InformationNetwork.FirstFailure | on_Model/InfoDyn_lib/Information_Network.py:11-41 | a run of assignments raises nothing exactly when every value is there |
| InformationNetwork.AssignEntries | on_Model/InfoDyn_lib/Information_Network.py:28-41 | the loop of assignments computes `Assigned` and the first exception |
| InformationNetwork.AssignTables | on_Model/InfoDyn_lib/Information_Network.py:28-41 | the `Var_` assignments, then the `Alpha_` ones only if none raised; the outcome is the first exception; tables that already hold the assigned keys keep their keys |
| InformationNetwork.AssignNode | on_Model/InfoDyn_lib/Information_Network.py:11-13 | the node's two assignments, as `NodeAssignment`, keeping the fixed keys |
| InformationNetwork.AssignLink | on_Model/InfoDyn_lib/Information_Network.py:23-41 | the link's thirteen assignments, as `LinkAssignment`, keeping the fixed keys |
| InformationNetwork.FirstFailureAppend | on_Model/InfoDyn_lib/Information_Network.py:28-41 | the exception of two runs is that of the first run if it raised, else that of the second |
| InformationNetwork.AssignedKeys | on_Model/InfoDyn_lib/Information_Network.py:12-41 | assigning keys a dictionary already has keeps its keys and their order |
| InformationNetwork.AssignedOther | on_Model/InfoDyn_lib/Information_Network.py:28-41 | a key that is not assigned keeps its value |
| InformationNetwork.AssignedGet | on_Model/InfoDyn_lib/Information_Network.py:28-41 | when every value is there and no key repeats, each key holds its own value afterwards |
| InformationNetwork.NodeAssignmentStores | on_Model/InfoDyn_lib/Information_Network.py:11-13 | a node calculation without exception leaves `H0` and `partial1` holding its two results |
| InformationNetwork.AssignedAll | on_Model/InfoDyn_lib/Information_Network.py:28-41 | assigning all of a table's keys in its own order gives the table of those keys and values |
| InformationNetwork.PutExisting | on_Model/InfoDyn_lib/Information_Network.py:12 | in a dictionary without repeated keys, assigning an existing key replaces that entry in place |
| InformationNetwork.Node.constructor | on_Model/InfoDyn_lib/Information_Network.py:4-9 | `A_Node(k)`: the index, no neighbours, `Var_ = {"H0": 0}`, `Alpha_ = {"1": 0, "partial1": 0}` |
| InformationNetwork.Node.Calculate | on_Model/InfoDyn_lib/Information_Network.py:11-13 | `H0 = H(i)`, then `partial1 = H(i' | i)`, as `NodeAssignment`; the neighbours and the keys stay |
| InformationNetwork.NodeVarsCalculated | on_Model/InfoDyn_lib/Information_Network.py:12 | a calculation without exception leaves `Var_ = {"H0": H(i)}` |
| InformationNetwork.NodeAlphasCalculated | on_Model/InfoDyn_lib/Information_Network.py:13 | and `Alpha_` with `"1"` unchanged and `partial1 = H(i' | i)` |
| InformationNetwork.Link.constructor | on_Model/InfoDyn_lib/Information_Network.py:17-20 | `A_Link(pair)`: the pair and the zeroed tables of the fixed keys |
| InformationNetwork.Link.Calculate | on_Model/InfoDyn_lib/Information_Network.py:23-41 | the thirteen measures of `(X, Y)` assigned in order, as `LinkAssignment`; the keys stay |
| InformationNetwork.LinkCalculated | on_Model/InfoDyn_lib/Information_Network.py:23-41 | a calculation without exception leaves exactly the link measures, keyed in their fixed order |
| InformationNetwork.LinkKeysDistinct | on_Model/InfoDyn_lib/Information_Network.py:19-20 | the fixed keys of a link do not repeat |
| InformationNetwork.ZipGet | on_Model/InfoDyn_lib/Information_Network.py:19-20 | in a zipped table without repeated keys each key holds its own value |
| InformationNetwork.LinkVarEntries | on_Model/InfoDyn_lib/Information_Network.py:24-32 | the `Var_` table entry by entry: `MI = I(x;y)`, `TE1 = I(y;x'|x)`, `rTE1 = I(y';x|x')`, `TE2 = I(x;y'|y)`, `rTE2 = I(x';y|y')` |
| InformationNetwork.LinkAlphaEntries | on_Model/InfoDyn_lib/Information_Network.py:34-41 | the `Alpha_` table entry by entry, each the measure or difference of measures the source names |
| InformationNetwork.ListedValuesRestore | on_Model/InfoDyn_lib/Information_Network.py:19-20 | listing a link's values in table order and assigning them back in that order restores the tables |
| InformationNetwork.Network.constructor | on_Model/InfoDyn_lib/Information_Network.py:44-46 | no nodes and no links |
| InformationNetwork.Network.SetNodes | on_Model/InfoDyn_lib/Information_Network.py:48-51 | a fresh new node for every name, in order; other names keep their node; links unchanged |
| InformationNetwork.Network.SetNode | on_Model/InfoDyn_lib/Information_Network.py:50-51 | `Nodes[k] = A_Node(k)`: only `k` changes, to a fresh new node |
| InformationNetwork.Network.AddALink | on_Model/InfoDyn_lib/Information_Network.py:53-57 | the pair gets a fresh new link (kept in place if present, else appended), then `b` is appended to `a`'s neighbours and `a` to `b`'s; a missing endpoint is the KeyError after the link was stored; the tables do not change |
| InformationNetwork.Network.JoinEndpoints | on_Model/InfoDyn_lib/Information_Network.py:56-57 | the two neighbour appends, `a` first, stopping at the first missing node |
| InformationNetwork.Network.Neighborhoods | on_Model/InfoDyn_lib/Information_Network.py:6 | one neighbour list per node, in node order |
| InformationNetwork.Network.Tables | on_Model/InfoDyn_lib/Information_Network.py:8-9 | one pair of measure tables per node, in node order |
| InformationNetwork.Network.AppendNeighbor | on_Model/InfoDyn_lib/Information_Network.py:56-57 | only that node's neighbour list grows, by that name |
| InformationNetwork.Network.StoreLink | on_Model/InfoDyn_lib/Information_Network.py:54-55 | `Links[pair] = A_Link(pair)`, nodes untouched |
| InformationNetwork.Joined | on_Model/InfoDyn_lib/Information_Network.py:56-57 | one neighbour list per node |
| InformationNetwork.JoinedNone | on_Model/InfoDyn_lib/Information_Network.py:56 | a missing first endpoint changes no neighbour list |
| InformationNetwork.JoinedFirst | on_Model/InfoDyn_lib/Information_Network.py:56-57 | a missing second endpoint: only the first endpoint gains a neighbour |
| InformationNetwork.JoinedBoth | on_Model/InfoDyn_lib/Information_Network.py:56-57 | both present: `b` appended to `a`'s list, then `a` to `b`'s (the same list twice for a self-loop) |
| InformationNetwork.PutNewNode | on_Model/InfoDyn_lib/Information_Network.py:51 | storing a fresh node keeps the node objects distinct |
| AbnInformationNetwork.EndVariable | on_Model/004_ABN_for_GRN/InfoDyn_lib/Information_Network.py:14-17 | `"X"` exactly for end 0, `"Y"` for any other |
| AbnInformationNetwork.PairNodeResults | on_Model/004_ABN_for_GRN/InfoDyn_lib/Information_Network.py:13-19 | the two node measures of the end's variable over the link histogram |
| AbnInformationNetwork.PairLinkResults | on_Model/004_ABN_for_GRN/InfoDyn_lib/Information_Network.py:43-58 | the thirteen link measures over the link histogram |
| AbnInformationNetwork.Node.constructor | on_Model/004_ABN_for_GRN/InfoDyn_lib/Information_Network.py:6-10 | `A_Node()`: no neighbours, `Var_ = {"H0": 0}`, `Alpha_ = {"1": 0, "partial1": 0}` |
| AbnInformationNetwork.Node.Calculate | on_Model/004_ABN_for_GRN/InfoDyn_lib/Information_Network.py:12-19 | `H0 = H(v)`, then `partial1 = H(v' | v)` for the end's variable `v`, as `NodeAssignment`; neighbours unchanged, keys kept |
| AbnInformationNetwork.Link.constructor | on_Model/004_ABN_for_GRN/InfoDyn_lib/Information_Network.py:23-25 | `A_Link()`: the zeroed tables of the fixed keys |
| AbnInformationNetwork.Link.SetFromList | on_Model/004_ABN_for_GRN/InfoDyn_lib/Information_Network.py:28-40 | a list of the wrong length changes nothing; otherwise `Var_` takes the first five items and `Alpha_` the next eight, in key order |
| AbnInformationNetwork.Link.Calculate | on_Model/004_ABN_for_GRN/InfoDyn_lib/Information_Network.py:42-58 | the thirteen measures of `(X, Y)` assigned in order, as `LinkAssignment`; keys kept |
| AbnInformationNetwork.AssignInOrder | on_Model/004_ABN_for_GRN/InfoDyn_lib/Information_Network.py:33-39 | each key of the table, in order, takes the next item: the table of its keys and those items |
| AbnInformationNetwork.Network.constructor | on_Model/004_ABN_for_GRN/InfoDyn_lib/Information_Network.py:61-63 | no nodes and no links |
| AbnInformationNetwork.Network.SetNodes | on_Model/004_ABN_for_GRN/InfoDyn_lib/Information_Network.py:65-68 | a fresh new node for every name, in order; other names keep their node; links unchanged |
| AbnInformationNetwork.Network.SetNode | on_Model/004_ABN_for_GRN/InfoDyn_lib/Information_Network.py:67-68 | `Nodes[k] = A_Node()`: only `k` changes, to a fresh new node |
| AbnInformationNetwork.Network.AddALink | on_Model/004_ABN_for_GRN/InfoDyn_lib/Information_Network.py:70-74 | the pair gets a fresh new link, then the two neighbour appends; a missing endpoint is the KeyError after the link was stored; tables unchanged |
| AbnInformationNetwork.Network.JoinEndpoints | on_Model/004_ABN_for_GRN/InfoDyn_lib/Information_Network.py:73-74 | the two neighbour appends, stopping at the first missing node |
| AbnInformationNetwork.Network.Neighborhoods | on_Model/004_ABN_for_GRN/InfoDyn_lib/Information_Network.py:7 | one neighbour list per node, in node order |
| AbnInformationNetwork.Network.Tables | on_Model/004_ABN_for_GRN/InfoDyn_lib/Information_Network.py:9-10 | one pair of measure tables per node, in node order |
| AbnInformationNetwork.Network.AppendNeighbor | on_Model/004_ABN_for_GRN/InfoDyn_lib/Information_Network.py:73-74 | only that node's neighbour list grows, by that name |
| AbnInformationNetwork.Network.StoreLink | on_Model/004_ABN_for_GRN/InfoDyn_lib/Information_Network.py:71-72 | `Links[pair] = A_Link()`, nodes untouched |
| ModelBasics.LinkKey | on_Model/InfoDyn_lib/Model_Basics.py:62-199 | only a link `Simulation_Nodes` is a key of `Links` |
| ModelBasics.LinkName | on_Model/InfoDyn_lib/Model_Basics.py:61 | only a pair fills `"Link_%s_%s.txt"` |
| ModelBasics.FirstMember | on_Model/InfoDyn_lib/Model_Basics.py:64-201 | `Simulation_Nodes[0]` exists exactly when there is a member, and is the first |
| ModelBasics.Column | on_Model/InfoDyn_lib/Model_Basics.py:241-243 | one value per node name |
| ModelBasics.RunUnfold | on_Model/InfoDyn_lib/Model_Basics.py:179-191 | the steps of `Simulate_Model`: the first step, then the rest, stopping at the first exception |
| ModelBasics.Drawing | on_Model/InfoDyn_lib/Model_Basics.py:170-178 | `Init_State_Space()` and an empty `Previous_States` leave the histograms and files alone and count one more replicate |
| ModelBasics.ReplicatorReplicates | on_Model/InfoDyn_lib/Model_Basics.py:169-171 | a replicate is `Init_State_Space()` then `Simulate_Model(T)` |
| ModelBasics.EnsembleSnoc | on_Model/InfoDyn_lib/Model_Basics.py:169-171 | `c + 1` replicates are `c` replicates and then one more |
| ModelBasics.EnsembleStops | on_Model/InfoDyn_lib/Model_Basics.py:169-171 | once a replicate raises, no later one runs |
| ModelBasics.StepTotal | on_Model/InfoDyn_lib/Model_Basics.py:180-191 | a step counts one observation exactly when it is the last step in realtime mode; it keeps the cells, and outside post-analysis the files |
| ModelBasics.RunCounts | on_Model/InfoDyn_lib/Model_Basics.py:179-191 | `Simulate_Model(T)` counts one observation in realtime mode when `T >= 1` |
| ModelBasics.ReplicateTotal | on_Model/InfoDyn_lib/Model_Basics.py:170-171 | one replicate counts one observation in realtime mode, over the same cells |
| ModelBasics.EnsembleCounts | on_Model/InfoDyn_lib/Model_Basics.py:169-171 | replicates that each count `w` observations count `c * w` after `c` of them |
| ModelBasics.EnsembleTotal | on_Model/InfoDyn_lib/Model_Basics.py:169-171 | `Size_of_Ensemble` replicates of `T >= 1` steps leave that many more counts in realtime mode, none otherwise; cells kept; no file written outside post-analysis |
| ModelBasics.SnapshotFiles | on_Model/InfoDyn_lib/Model_Basics.py:185-248 | in post-analysis a step appends one snapshot line exactly at the nonzero multiples of `Save_Interval` |
| ModelBasics.SnapshotPrevious | on_Model/InfoDyn_lib/Model_Basics.py:185-189 | at every multiple of `Save_Interval` the previous states become the current ones; otherwise they stay |
| ModelBasics.ZeroedWithin | on_Model/InfoDyn_lib/Estimators/Simple_Binning.py:24-29 | zeroing the cells of the grid keeps a dictionary over the grid with nothing counted |
| ModelBasics.SnapshotData | on_Model/InfoDyn_lib/Model_Basics.py:240-244 | the snapshot line: previous and current state of every node as `%0.4f|` pairs, the final `|` replaced by the newline; a node missing from either is the KeyError |
| ModelBasics.SaveStatesIn | on_Model/InfoDyn_lib/Model_Basics.py:239-248 | the line appended to `at_time%03d.txt`, or the KeyError with no file touched |
| ModelBasics.ZeroAll | on_Model/InfoDyn_lib/Model_Basics.py:126-128 | every key set to 0 |
| ModelBasics.CalculateThenEstimate | on_Model/InfoDyn_lib/Model_Basics.py:198-203 | the subject's `Calculate`, then the additional variable's estimate unless it raised; the subject's tables hold what its measures assign |
| ModelBasics.EstimateBeside | on_Model/InfoDyn_lib/Model_Basics.py:203 | `Estimate_the_Variable()` alone: the network is unchanged |
| ModelBasics.CalculateSubject | on_Model/InfoDyn_lib/Model_Basics.py:199-201 | only the subject's tables change, to what its `Calculate` assigns; a subject missing from the network is the KeyError |
| ModelBasics.CalculateLink | on_Model/InfoDyn_lib/Model_Basics.py:199 | `Links[l].Calculate(Estimator)`: only that link changes; a missing link is the KeyError |
| ModelBasics.CalculateNode | on_Model/InfoDyn_lib/Model_Basics.py:201 | `Nodes[n].Calculate(Estimator)`: only that node changes; a missing node is the KeyError |
| ModelBasics.SubjectTablesFilled | on_Model/InfoDyn_lib/Model_Basics.py:70-71 | every table of a valid network has an entry, so a record always reaches its first value |
| ModelBasics.Pairs | on_Model/InfoDyn_lib/Model_Basics.py:145-146 | the `Simulation_Nodes` of every selected link |
| ModelBasics.NodeTargets | on_Model/InfoDyn_lib/Model_Basics.py:153-154 | the `Simulation_Nodes` of every selected node: the node followed by its neighbours |
| ModelBasics.AllKnownEach | on_Model/InfoDyn_lib/Model_Basics.py:154 | every selected node was found in the network |
| ModelBasics.SimulatedRealtime | on_Model/InfoDyn_lib/Model_Basics.py:144-159 | what the two realtime loops make is the realtime schedule |
| ModelBasics.SimulatedOther | on_Model/InfoDyn_lib/Model_Basics.py:161-162 | post-analysis makes one ensemble over the whole time limit; the other modes make none |
| ModelBasics.SimulatedThen | on_Model/InfoDyn_lib/Model_Basics.py:164 | a failure after the simulations keeps what they made |
| ModelBasics.ScheduleCut | on_Model/InfoDyn_lib/Model_Basics.py:145-158 | a loop that stops at target `i` has made a prefix of the whole schedule |
| ModelBasics.HeaderSplits | on_Model/InfoDyn_lib/Model_Basics.py:40-44 | a header line splits back at its `|` into the table's keys, then the newline |
| ModelBasics.LinkTables | on_Model/InfoDyn_lib/Model_Basics.py:49-51 | the tables of every link, in link order |
| ModelBasics.HeaderWrites | on_Model/InfoDyn_lib/Model_Basics.py:37-54 | one header per node into `Node_%s.txt`, then one per link into `Link_%s_%s.txt`, in order |
| ModelBasics.OverwrittenAt | on_Model/InfoDyn_lib/Model_Basics.py:39 | with mode `'w'` a file holds what the last write to it wrote |
| ModelBasics.OverwrittenElsewhere | on_Model/InfoDyn_lib/Model_Basics.py:39-48 | a file no write names is as it was |
| ModelBasics.Overwrite | on_Model/InfoDyn_lib/Model_Basics.py:37-54 | the loop of writes computes `Overwritten` |
| ModelBasics.NodeHeaders | on_Model/InfoDyn_lib/Model_Basics.py:38-45 | after the headers, every node's file holds exactly its header |
| ModelBasics.EHeaders | on_Model/InfoDyn_lib/Model_Basics.py:208-210 | every selected node's E file, in order, with the line `E|` |
| ModelBasics.EstimateE | on_Model/InfoDyn_lib/Model_Basics.py:220-223 | `Estimate_E` always raises; on a valid network it is the KeyError of `Var_["H0'"]` |
| ModelBasics.Multiples | on_Model/InfoDyn_lib/Model_Basics.py:253-255 | the `k` multiples of `n`, from `n` up |
| ModelBasics.ReplayTimesSound | on_Model/InfoDyn_lib/Model_Basics.py:253-255 | every time read back is the next multiple of `Save_Interval`, and a whole interval still fits before the limit |
| ModelBasics.ReplayTimesComplete | on_Model/InfoDyn_lib/Model_Basics.py:253-255 | every positive multiple of the interval with a whole interval after it before the limit is read back |
| ModelBasics.LastSnapshotUnread | on_Model/InfoDyn_lib/Model_Basics.py:185-255 | with limit 10 and interval 3 the snapshots are taken at 3, 6 and 9, but only 3 and 6 are read back |
| ModelBasics.Model.constructor | on_Model/InfoDyn_lib/Model_Basics.py:89-113 | `Model_Basic()`: no properties, states, buffer or selection, the cut from 0 to -1, the empty `Simulation_Nodes`, an additional variable that does nothing |
| ModelBasics.Model.InitSpace | on_Model/InfoDyn_lib/Model_Basics.py:125-138 | every node at 0 in the states and the buffer; an empty selection takes all nodes or links |
| ModelBasics.Model.ZeroSpace | on_Model/InfoDyn_lib/Model_Basics.py:126-128 | every node at 0 in the states and the buffer |
| ModelBasics.Model.ResolveSelections | on_Model/InfoDyn_lib/Model_Basics.py:132-138 | an empty selection takes all nodes or links, in order |
| ModelBasics.Model.InitStateSpace | on_Model/InfoDyn_lib/Model_Basics.py:263-264 | the hook `init` sets the states; one more replicate started |
| ModelBasics.Model.UpdateStates | on_Model/InfoDyn_lib/Model_Basics.py:193-195 | every node takes its buffered value in node order; a node missing from the buffer is the KeyError |
| ModelBasics.Model.FeedSources | on_Model/InfoDyn_lib/Model_Basics.py:182-183 | both sources updated, as `FedReplica`; their modes and names unchanged |
| ModelBasics.Model.SaveStates | on_Model/InfoDyn_lib/Model_Basics.py:239-248 | the snapshot line appended to `at_time%03d.txt`, or the KeyError with no file touched |
| ModelBasics.Model.Snapshot | on_Model/InfoDyn_lib/Model_Basics.py:185-189 | the post-analysis part of a step, as `Snapshotted` |
| ModelBasics.Model.SimulationStep | on_Model/InfoDyn_lib/Model_Basics.py:180-191 | one step of `Simulate_Model`, as `StepOf` |
| ModelBasics.Model.RunSteps | on_Model/InfoDyn_lib/Model_Basics.py:179-191 | the steps in turn, as `Run` |
| ModelBasics.Model.SimulateModel | on_Model/InfoDyn_lib/Model_Basics.py:177-191 | `Previous_States = {}`, then `Run` |
| ModelBasics.Model.RunReplicate | on_Model/InfoDyn_lib/Model_Basics.py:170-171 | one replicate, as `Replicate` |
| ModelBasics.Model.NextReplicate | on_Model/InfoDyn_lib/Model_Basics.py:169-171 | one more replicate extends the ensemble, or ends it with the exception |
| ModelBasics.Model.RunReplicates | on_Model/InfoDyn_lib/Model_Basics.py:169-171 | `Size_of_Ensemble` replicates, as `EnsembleOf` |
| ModelBasics.Model.CalculateInfoVars | on_Model/InfoDyn_lib/Model_Basics.py:197-203 | the subject of the type (the link, the first node, or none) calculated with the estimator's measures, then the additional variable's estimate; the first exception ends it |
| ModelBasics.Model.SaveInfoVars | on_Model/InfoDyn_lib/Model_Basics.py:56-85 | nothing at time 1; otherwise the file and subject of the type, the stamp `%03d:` of `T - 1`, and on a valid network the TypeError of indexing a float |
| ModelBasics.Model.SaveRecord | on_Model/InfoDyn_lib/Model_Basics.py:67-85 | the record once file and subject are known: the KeyError for a missing subject, otherwise `Recorded`, which fails on a valid network |
| ModelBasics.Model.InitSources | on_Model/InfoDyn_lib/Model_Basics.py:167-168 | both `Init_Source_Realtime` calls: outside realtime nothing changes; a realtime success leaves nothing counted |
| ModelBasics.Model.ConstructEnsemble | on_Model/InfoDyn_lib/Model_Basics.py:166-175 | outside realtime the ensemble's result, as `Ensemble`; in realtime a success only at `T == 1`, with `Size_of_Ensemble` counts |
| ModelBasics.Model.RunEnsemble | on_Model/InfoDyn_lib/Model_Basics.py:167-171 | the setup and the replicates; outside realtime as `Ensemble`; in realtime one count per replicate |
| ModelBasics.Model.MeasureAndSave | on_Model/InfoDyn_lib/Model_Basics.py:173-175 | the measures and their record; a success only at `T == 1`, which writes nothing |
| ModelBasics.Model.WindowStep | on_Model/InfoDyn_lib/Model_Basics.py:148-150 | `Construct_Ensemble(t + 1)` exactly when `t` lies in the cut |
| ModelBasics.Model.SimulateTarget | on_Model/InfoDyn_lib/Model_Basics.py:146-158 | `Simulation_Nodes` and the type set, then one ensemble per time of the window, stopping at the first exception |
| ModelBasics.Model.RunWindow | on_Model/InfoDyn_lib/Model_Basics.py:148-150 | the loop over the time for the current target |
| ModelBasics.Model.SimulateLinks | on_Model/InfoDyn_lib/Model_Basics.py:145-151 | every selected link in turn over the window: the realtime schedule of the links, or a prefix of it on failure |
| ModelBasics.Model.SimulateNodes | on_Model/InfoDyn_lib/Model_Basics.py:153-159 | every selected node with its neighbours over the window; a missing node is the KeyError |
| ModelBasics.Model.NodeSteps | on_Model/InfoDyn_lib/Model_Basics.py:153-159 | the node loop, step by step, until one fails |
| ModelBasics.Model.NodeStep | on_Model/InfoDyn_lib/Model_Basics.py:154-158 | one more node done, or a prefix of the schedule on failure |
| ModelBasics.Model.SimulateNode | on_Model/InfoDyn_lib/Model_Basics.py:154-158 | a node missing from the network is the KeyError before anything runs; otherwise its window of ensembles |
| ModelBasics.Model.PostEstimationForE | on_Model/InfoDyn_lib/Model_Basics.py:205-218 | the ValueError unless every link is selected; then the E files with `E|`; with a time to estimate, the first `Estimate_E` raises after the first file is opened |
| ModelBasics.Model.ResolveCut | on_Model/InfoDyn_lib/Model_Basics.py:141-142 | `Cut_up = -1` becomes the time limit |
| ModelBasics.Model.Simulations | on_Model/InfoDyn_lib/Model_Basics.py:144-162 | the simulations of the mode, as `Simulated` |
| ModelBasics.Model.WholeEnsemble | on_Model/InfoDyn_lib/Model_Basics.py:161-162 | one ensemble over the whole time limit |
| ModelBasics.Model.RealtimeSimulations | on_Model/InfoDyn_lib/Model_Basics.py:144-159 | every selected link, then every selected node, over the window |
| ModelBasics.Model.GenerateData | on_Model/InfoDyn_lib/Model_Basics.py:140-164 | the cut resolved, the simulations of the mode made, then the E estimation; a success needs every link selected and no time or node to estimate E for, and in realtime that the window holds only time 1 |
| ModelBasics.Model.SimulateThenEstimate | on_Model/InfoDyn_lib/Model_Basics.py:144-164 | the simulations, then `Post_Estimation_for_E` |
| ModelBasics.Model.ReplayStep | on_Model/InfoDyn_lib/Model_Basics.py:255-258 | one time read back; only time 1 gets through |
| ModelBasics.Model.ReplayLink | on_Model/InfoDyn_lib/Model_Basics.py:252-258 | the link becomes `Simulation_Nodes`; a zero interval is the ZeroDivisionError; the replay times in order |
| ModelBasics.Model.PostAnalysis | on_Model/InfoDyn_lib/Model_Basics.py:250-258 | every selected link over the replay times, in order; the first exception ends it |
| ModelBasics.Model.RegisterTopology | on_Model/InfoDyn_lib/Model_Basics.py:23-29 | `Nodes` and `Links` reset to `""`, then the list of node names and of links |
| ModelBasics.Model.SaveProperties | on_Model/InfoDyn_lib/Model_Basics.py:31-35 | `Simulation_Properties.txt` holds one `key : value` line per property |
| ModelBasics.Model.CreateFileHeader | on_Model/InfoDyn_lib/Model_Basics.py:37-54 | every node's and then every link's file overwritten with its header |
| ModelBasics.Model.Initialize | on_Model/InfoDyn_lib/Model_Basics.py:115-123 | the space set up, the properties saved, the headers written |
| AbnModelBasics.RecordedOneCell | on_Model/004_ABN_for_GRN/InfoDyn_lib/Model_Basics.py:160 | the count fails only for a missing link, node or cell; otherwise it adds one to the cell `(State[a], State[b], Buffer[a], Buffer[b])` and to nothing else |
| AbnModelBasics.RecordedInGrid | on_Model/004_ABN_for_GRN/InfoDyn_lib/Model_Basics.py:115-160 | states of both ends in `0..Q-1` over a histogram holding the whole grid always find their cell |
| AbnModelBasics.Drawing | on_Model/004_ABN_for_GRN/InfoDyn_lib/Model_Basics.py:109-113 | `Init_State_Space()` draws one value per node and leaves the histogram alone |
| AbnModelBasics.ReplicatorReplicates | on_Model/004_ABN_for_GRN/InfoDyn_lib/Model_Basics.py:140-142 | a replicate is `Init_State_Space()` then `Simulate_Model(T)` |
| AbnModelBasics.EnsembleSnoc | on_Model/004_ABN_for_GRN/InfoDyn_lib/Model_Basics.py:140-142 | `c + 1` replicates are `c` replicates and then one more |
| AbnModelBasics.EnsembleStops | on_Model/004_ABN_for_GRN/InfoDyn_lib/Model_Basics.py:140-142 | once a replicate raises, no later one runs |
| AbnModelBasics.StepTotal | on_Model/004_ABN_for_GRN/InfoDyn_lib/Model_Basics.py:147-151 | only the last step counts, one observation; no step draws |
| AbnModelBasics.RunCounts | on_Model/004_ABN_for_GRN/InfoDyn_lib/Model_Basics.py:146-151 | `Simulate_Model(T)` counts exactly one observation when `T >= 1` and draws nothing |
| AbnModelBasics.ReplicateTotal | on_Model/004_ABN_for_GRN/InfoDyn_lib/Model_Basics.py:141-142 | a replicate of `T >= 1` steps adds one count and draws one value per node |
| AbnModelBasics.EnsembleCounts | on_Model/004_ABN_for_GRN/InfoDyn_lib/Model_Basics.py:140-142 | replicates that each add one count leave `c` more after `c` of them |
| AbnModelBasics.EnsembleTotal | on_Model/004_ABN_for_GRN/InfoDyn_lib/Model_Basics.py:139-142 | `Size_of_Ensemble` replicates of `T >= 1` steps leave exactly that many counts, and one draw per node and replicate |
| AbnModelBasics.StepSucceeds | on_Model/004_ABN_for_GRN/InfoDyn_lib/Model_Basics.py:147-151 | a step of closed dynamics from states in range succeeds and keeps them in range |
| AbnModelBasics.RunKeeps | on_Model/004_ABN_for_GRN/InfoDyn_lib/Model_Basics.py:146-151 | the whole simulation then succeeds and stays in range |
| AbnModelBasics.ReplicateSucceeds | on_Model/004_ABN_for_GRN/InfoDyn_lib/Model_Basics.py:109-142 | with draws in `0..Q-1` (as `randint(0, Q-1)` gives) a replicate over a complete histogram succeeds and keeps it complete |
| AbnModelBasics.EnsembleKeeps | on_Model/004_ABN_for_GRN/InfoDyn_lib/Model_Basics.py:140-142 | replicates that succeed on a complete histogram and keep it complete make the ensemble succeed |
| AbnModelBasics.EnsembleSucceeds | on_Model/004_ABN_for_GRN/InfoDyn_lib/Model_Basics.py:139-142 | draws in range, closed dynamics and a link between two nodes make every replicate of `Make_Ensemble` succeed |
| AbnModelBasics.ReplicatesSucceed | on_Model/004_ABN_for_GRN/InfoDyn_lib/Model_Basics.py:141-142 | every replicate of a safe simulation over a complete histogram succeeds and keeps it complete |
| AbnModelBasics.VariableWrites | on_Model/004_ABN_for_GRN/InfoDyn_lib/Model_Basics.py:70 | each line of the variable appended to `Save_Directory + Name + ".txt"` |
| AbnModelBasics.AppendedAllAt | on_Model/004_ABN_for_GRN/InfoDyn_lib/Model_Basics.py:44-53 | mode `'a'`: every file holds what it held followed by what was written to it |
| AbnModelBasics.AppendedAllElsewhere | on_Model/004_ABN_for_GRN/InfoDyn_lib/Model_Basics.py:44-53 | a file no append names is left as it was |
| AbnModelBasics.WrittenToConcat | on_Model/004_ABN_for_GRN/InfoDyn_lib/Model_Basics.py:42-70 | two runs of appends write each file the texts of both, in order |
| AbnModelBasics.WrittenToFour | on_Model/004_ABN_for_GRN/InfoDyn_lib/Model_Basics.py:42-68 | four appends write to a file what each of them writes to it, in turn |
| AbnModelBasics.WrittenToNone | on_Model/004_ABN_for_GRN/InfoDyn_lib/Model_Basics.py:42-70 | appends naming other files write nothing to a file |
| AbnModelBasics.SavingPasses | on_Model/004_ABN_for_GRN/InfoDyn_lib/Model_Basics.py:42-70 | `Save_Info_Vars` gets through exactly when both end nodes and the link exist and each end holds `H0` and `partial1` |
| AbnModelBasics.SavingWrites | on_Model/004_ABN_for_GRN/InfoDyn_lib/Model_Basics.py:42-70 | a save that gets through makes the two node lines, the link line in two writes, then the variable's lines |
| AbnModelBasics.WrittenBeforeVariable | on_Model/004_ABN_for_GRN/InfoDyn_lib/Model_Basics.py:42-70 | the variable's lines do not touch files it does not name |
| AbnModelBasics.SavedLink | on_Model/004_ABN_for_GRN/InfoDyn_lib/Model_Basics.py:53-68 | a save that gets through appends the whole link line: `%03d:` then every value with `+` before a non-negative one and `|` after each |
| AbnModelBasics.SavedNodes | on_Model/004_ABN_for_GRN/InfoDyn_lib/Model_Basics.py:43-51 | each end node's file gains its own `%03d:%0.3f|%0.3f|` line, or both in order when the two ends are one node |
| AbnModelBasics.ZeroedNodes | on_Model/004_ABN_for_GRN/InfoDyn_lib/Model_Basics.py:102-104 | every node at 0 |
| AbnModelBasics.NodeOf | on_Model/004_ABN_for_GRN/InfoDyn_lib/Model_Basics.py:154-155 | a node the network has is one of its node objects |
| AbnModelBasics.LinkOf | on_Model/004_ABN_for_GRN/InfoDyn_lib/Model_Basics.py:156 | a link the network has is one of its link objects |
| AbnModelBasics.CalculateAll | on_Model/004_ABN_for_GRN/InfoDyn_lib/Model_Basics.py:153-157 | the first end with index 0, the second with index 1, the link, then the variable, stopping at the first exception; on success the link and distinct ends hold what their estimates assign |
| AbnModelBasics.SaveNode | on_Model/004_ABN_for_GRN/InfoDyn_lib/Model_Basics.py:43-46 | a missing node is the KeyError before the file is opened; otherwise the node line, or the file opened with nothing written before the KeyError of a missing measure |
| AbnModelBasics.SaveLink | on_Model/004_ABN_for_GRN/InfoDyn_lib/Model_Basics.py:53-70 | the stamp written before the link is looked up, then the rest of the line and the variable's lines |
| AbnModelBasics.SaveTables | on_Model/004_ABN_for_GRN/InfoDyn_lib/Model_Basics.py:42-70 | the appends of `Save_Info_Vars` one by one, as `Saving` |
| AbnModelBasics.SingleAppend | on_Model/004_ABN_for_GRN/InfoDyn_lib/Model_Basics.py:44 | one append is one append to one file |
| AbnModelBasics.Model.constructor | on_Model/004_ABN_for_GRN/InfoDyn_lib/Model_Basics.py:74-92 | `Model_Basic()`: no properties, states, buffer, link or statistics; the cut from 0 to -1 |
| AbnModelBasics.Model.InitSpace | on_Model/004_ABN_for_GRN/InfoDyn_lib/Model_Basics.py:101-104 | every node at 0 in the states and the buffer |
| AbnModelBasics.Model.InitStateSpace | on_Model/004_ABN_for_GRN/InfoDyn_lib/Model_Basics.py:109-113 | every node in turn takes the next value drawn; one draw per node |
| AbnModelBasics.Model.InitStatistics | on_Model/004_ABN_for_GRN/InfoDyn_lib/Model_Basics.py:115-121 | every cell of `{0..Q-1}^4` set to 0 in lexicographic order, then the additional variable's grid |
| AbnModelBasics.Model.StatisticsInGrid | on_Model/004_ABN_for_GRN/InfoDyn_lib/Model_Basics.py:115-120 | zeroing the grid keeps a dictionary over cells of the grid |
| AbnModelBasics.Model.UpdateStatistics | on_Model/004_ABN_for_GRN/InfoDyn_lib/Model_Basics.py:159-161 | one more in the link's cell, then the variable's update; a missing node or cell is the KeyError, a missing link the IndexError |
| AbnModelBasics.Model.UpdateStates | on_Model/004_ABN_for_GRN/InfoDyn_lib/Model_Basics.py:163-166 | every node takes its buffered value in node order; a node missing from the buffer is the KeyError |
| AbnModelBasics.Model.SimulationStep | on_Model/004_ABN_for_GRN/InfoDyn_lib/Model_Basics.py:148-151 | one step, as `StepOf` |
| AbnModelBasics.Model.SimulateModel | on_Model/004_ABN_for_GRN/InfoDyn_lib/Model_Basics.py:146-151 | `T` steps, the last counted, as `Run` |
| AbnModelBasics.Model.RunReplicate | on_Model/004_ABN_for_GRN/InfoDyn_lib/Model_Basics.py:141-142 | one replicate, as `Replicate` |
| AbnModelBasics.Model.NextReplicate | on_Model/004_ABN_for_GRN/InfoDyn_lib/Model_Basics.py:140-142 | one more replicate extends the ensemble, or ends it with the exception |
| AbnModelBasics.Model.RunReplicates | on_Model/004_ABN_for_GRN/InfoDyn_lib/Model_Basics.py:140-142 | `Size_of_Ensemble` replicates, as `EnsembleOf` |
| AbnModelBasics.Model.RunEnsemble | on_Model/004_ABN_for_GRN/InfoDyn_lib/Model_Basics.py:139-142 | `Init_Statistics()`, then the replicates; after `T >= 1` steps each the histogram holds exactly one count per replicate |
| AbnModelBasics.Model.CalculateInfoVars | on_Model/004_ABN_for_GRN/InfoDyn_lib/Model_Basics.py:153-157 | the estimates of both ends, the link and the variable, ending as `Calculation` |
| AbnModelBasics.Model.SaveInfoVars | on_Model/004_ABN_for_GRN/InfoDyn_lib/Model_Basics.py:42-70 | no link is the IndexError with nothing written; otherwise the appends `Saving` lists |
| AbnModelBasics.Model.EstimateAndSave | on_Model/004_ABN_for_GRN/InfoDyn_lib/Model_Basics.py:143-144 | the estimates, then the save unless they raised |
| AbnModelBasics.Model.MakeEnsemble | on_Model/004_ABN_for_GRN/InfoDyn_lib/Model_Basics.py:138-144 | the replicates from zeroed histograms, then the estimates over the histograms they leave, then the save; the first exception ends it; `Size_of_Ensemble` counts after `T >= 1` steps |
| AbnModelBasics.Model.RegisterTopology | on_Model/004_ABN_for_GRN/InfoDyn_lib/Model_Basics.py:19-25 | `Nodes` and `Links` reset to `""`, then the list of node names and of links |
| AbnModelBasics.Model.SaveProperties | on_Model/004_ABN_for_GRN/InfoDyn_lib/Model_Basics.py:27-31 | `Simulation_Properties.txt` holds one `key : value` line per property |
| AbnModelBasics.Model.CreateFileHeader | on_Model/004_ABN_for_GRN/InfoDyn_lib/Model_Basics.py:33-39 | every node's and every link's file opened for writing, which leaves it empty |
| AbnModelBasics.Model.Initialize | on_Model/004_ABN_for_GRN/InfoDyn_lib/Model_Basics.py:94-99 | the space zeroed and the properties saved |
| AbnModelBasics.Model.WindowStep | on_Model/004_ABN_for_GRN/InfoDyn_lib/Model_Basics.py:133-135 | `Make_Ensemble(t + 1)` exactly when `t` lies in the cut |
| AbnModelBasics.Model.SimulateLink | on_Model/004_ABN_for_GRN/InfoDyn_lib/Model_Basics.py:132-135 | the link becomes `Simulation_Link` and one ensemble runs per time of the window, until the first exception |
| AbnModelBasics.Model.ResolveSelection | on_Model/004_ABN_for_GRN/InfoDyn_lib/Model_Basics.py:124-128 | `Cut_up = -1` becomes the time limit; an empty `Selected` takes every link |
| AbnModelBasics.Model.SimulateSelected | on_Model/004_ABN_for_GRN/InfoDyn_lib/Model_Basics.py:131-136 | every selected link over the whole window, in order, until the first exception |
| AbnModelBasics.Model.GenerateData | on_Model/004_ABN_for_GRN/InfoDyn_lib/Model_Basics.py:123-136 | the selection resolved, the headers written, every selected link simulated over the window |
| Driver.FileAppended | on_Model/004_ABN_for_GRN/InfoDyn_lib/Model_Basics.py:44-46 | appending to a file leaves the text at the end of its old contents and creates it if missing; every other file is unchanged and no other file appears |
| Driver.Stream | on_Model/004_ABN_for_GRN/InfoDyn_lib/Model_Basics.py:111-112 | the values drawn from a position of the random stream, one per position, in order |
| Driver.DrawStates | on_Model/004_ABN_for_GRN/InfoDyn_lib/Model_Basics.py:109-113 | the states after `Init_State_Space`: each node in turn takes the next value drawn |
| Driver.FilledOthers | on_Model/004_ABN_for_GRN/InfoDyn_lib/Model_Basics.py:111-113 | names that are not drawn for keep their value |
| Driver.FilledValue | on_Model/004_ABN_for_GRN/InfoDyn_lib/Model_Basics.py:111-113 | a name that is not drawn for again later keeps the value drawn for it |
| Driver.DrawnValue | on_Model/004_ABN_for_GRN/InfoDyn_lib/Model_Basics.py:109-113 | a node that is not repeated in the names holds the value drawn at its position; other names are left as they were |
| Driver.DrawnInRange | on_Model/004_ABN_for_GRN/InfoDyn_lib/Model_Basics.py:112 | when every draw lies in `0 .. Q - 1`, every node's state does too |
| Driver.FilledInRange | on_Model/004_ABN_for_GRN/InfoDyn_lib/Model_Basics.py:111-113 | values in `0 .. Q - 1` leave every node in range |
| Driver.Committed | on_Model/004_ABN_for_GRN/InfoDyn_lib/Model_Basics.py:163-166 | `Update_States` succeeds exactly when the buffer has every node; otherwise it raises the KeyError |
| Driver.CommitStates | on_Model/InfoDyn_lib/Model_Basics.py:193-195 | the loop of `Update_States` passes with the committed states, or fails with the KeyError the commit predicts |
| Driver.CopiedValues | on_Model/InfoDyn_lib/Model_Basics.py:193-195 | after the commit every node holds its buffered value |
| Driver.CopiedKey | on_Model/004_ABN_for_GRN/InfoDyn_lib/Model_Basics.py:164-166 | a node the buffer holds ends the copy with its buffered value, even when it is copied more than once |
| Driver.CopiedOthers | on_Model/004_ABN_for_GRN/InfoDyn_lib/Model_Basics.py:164-166 | the commit leaves the names it does not copy as they were |
| Driver.CommittedInRange | on_Model/004_ABN_for_GRN/InfoDyn_lib/Model_Basics.py:163-166 | a buffer whose values are all in `0 .. Q - 1` commits, and gives states in range |
| Driver.NodeFileInjective | on_Model/004_ABN_for_GRN/InfoDyn_lib/Model_Basics.py:35 | two node names share a node file only when they are the same name |
| Driver.NodeFileNotLinkFile | on_Model/004_ABN_for_GRN/InfoDyn_lib/Model_Basics.py:35-38 | a node file is never a link file |
| Driver.HeaderPaths | on_Model/004_ABN_for_GRN/InfoDyn_lib/Model_Basics.py:33-39 | `Create_File_Header` opens one file per node, in order, then one file per link |
| Driver.TruncatedSpec | on_Model/004_ABN_for_GRN/InfoDyn_lib/Model_Basics.py:33-39 | after the files are opened for writing, exactly the old files and the opened paths exist; every opened path is empty and every other file is unchanged |
| Driver.Truncate | on_Model/004_ABN_for_GRN/InfoDyn_lib/Model_Basics.py:34-39 | the loops that open the files return the truncated files |
| Driver.AppendedAllConcat | on_Model/004_ABN_for_GRN/InfoDyn_lib/Model_Basics.py:42-68 | two lists of appends made one after the other equal one append of the concatenated list |
| Driver.LinkPieces | on_Model/004_ABN_for_GRN/InfoDyn_lib/Model_Basics.py:24-25 | each link is written as `u,v|` |
| Driver.NodesTextSplits | on_Model/004_ABN_for_GRN/InfoDyn_lib/Model_Basics.py:22-23 | the Nodes entry, split on `|`, gives back the node names plus a last empty piece |
| Driver.PropertyLines | on_Model/004_ABN_for_GRN/InfoDyn_lib/Model_Basics.py:29-30 | each property is written as `key : value`, in order |
| Driver.PropertiesTextSplits | on_Model/004_ABN_for_GRN/InfoDyn_lib/Model_Basics.py:27-31 | the properties file, split at its newlines, gives back one line per property plus a last empty piece |
| Driver.WriteProperties | on_Model/004_ABN_for_GRN/InfoDyn_lib/Model_Basics.py:27-31 | `Save_Properties` replaces the properties file with the written lines and leaves every other file alone |
| Driver.AppendPieces | on_Model/004_ABN_for_GRN/InfoDyn_lib/Model_Basics.py:22-25 | appending the pieces to an empty entry one by one leaves each piece followed by its separator |
| Driver.RegisterTopologyOf | on_Model/InfoDyn_lib/Model_Basics.py:23-29 | `Register_Topology` empties the Nodes and Links entries, then fills them with the node and link texts |
| Driver.TopologyRegistered | on_Model/004_ABN_for_GRN/InfoDyn_lib/Model_Basics.py:19-25 | after `Register_Topology`, Nodes holds the node names and Links the links, each key appears once, and every other property is unchanged |
| Driver.WindowMembers | on_Model/004_ABN_for_GRN/InfoDyn_lib/Model_Basics.py:133-135 | a time gets an ensemble exactly when it is `t + 1` for a step `t` below the limit with `Cut_down <= t < Cut_up`; the times increase |
| Driver.WindowPrefix | on_Model/InfoDyn_lib/Model_Basics.py:148-150 | the window up to a step is a prefix of the whole window |
| Driver.Calls | on_Model/004_ABN_for_GRN/InfoDyn_lib/Model_Basics.py:133-135 | one link's ensemble calls pair that link with each time of the window, in order |
| Driver.CallsStep | on_Model/004_ABN_for_GRN/InfoDyn_lib/Model_Basics.py:133-135 | one more step of the time loop adds the call for `t + 1` exactly when `t` lies in the cut |
| Driver.CallsFailed | on_Model/004_ABN_for_GRN/InfoDyn_lib/Model_Basics.py:133-135 | when a call fails, the calls made so far are a start of that link's calls, and end with the failed one |
| Driver.SelectAll | on_Model/004_ABN_for_GRN/InfoDyn_lib/Model_Basics.py:126-128 | the empty selection becomes every link in network order |
| Driver.ScheduleMembers | on_Model/004_ABN_for_GRN/InfoDyn_lib/Model_Basics.py:131-135 | `Generate_Data` builds an ensemble for a link and a time exactly when the link is selected and the time is in the window; every link gets the whole window |
| Driver.SchedulePrefix | on_Model/004_ABN_for_GRN/InfoDyn_lib/Model_Basics.py:131-135 | the calls made up to any point are a prefix of the full schedule |
| Driver.ScheduleStep | on_Model/004_ABN_for_GRN/InfoDyn_lib/Model_Basics.py:131-135 | one more selected link appends that link's calls to the schedule |
| Driver.ScheduleFailed | on_Model/004_ABN_for_GRN/InfoDyn_lib/Model_Basics.py:131-135 | when a link's calls fail, at least one call has been made, and the calls so far are a start of the full schedule |
| Records.Stamp | on_Model/004_ABN_for_GRN/InfoDyn_lib/Model_Basics.py:45 | the `%03d` time stamp of a non-negative time reads back with `int()` as that time |
| Records.SignedBodies | on_Model/004_ABN_for_GRN/InfoDyn_lib/Model_Basics.py:55-66 | the link fields between the `|`, one per value, each `+%0.3f` or `%0.3f` according to the value's sign |
| Records.Printed | on_Model/004_ABN_for_GRN/InfoDyn_lib/Model_Basics.py:57-60 | the printed values, as the signed thousandths `%0.3f` shows |
| Records.StatePairsSnoc | on_Model/InfoDyn_lib/Model_Basics.py:241-243 | one more node adds its previous and current state, each printed `%0.4f|`, at the end of the snapshot line |
| Records.SignedFieldsAppend | on_Model/004_ABN_for_GRN/InfoDyn_lib/Model_Basics.py:55-60 | writing one more signed field extends the written fields by that field |
| Records.PlainFieldsAppend | on_Model/004_ABN_for_GRN/InfoDyn_lib/Model_Basics.py:45 | writing one more plain field extends the written fields by that field |
| Records.RenderShape | on_Model/004_ABN_for_GRN/InfoDyn_lib/Model_Basics.py:45 | a `%0.3f` text holds no `|` and no line break, starts with a minus sign or a digit, and ends with a digit |
| Records.SignedBodyShape | on_Model/004_ABN_for_GRN/InfoDyn_lib/Model_Basics.py:57-60 | a signed field is non-empty, has no `|` or line break, and does not start or end with white space |
| Records.SignedBodyValue | on_Model/004_ABN_for_GRN/InfoDyn_lib/Model_Basics.py:57-60 | a signed field reads back as the printed value, with or without its `+` |
| Records.SplitTerminated | on_Model/Utils/plot_results.py:34 | fields each followed by the separator split back into the fields, followed by whatever the rest splits into |
| Records.TerminatedSnoc | on_Model/004_ABN_for_GRN/InfoDyn_lib/Model_Basics.py:53-67 | one more field followed by `|` extends the written text by that field and `|` |
| Records.SignedFieldsTerminated | on_Model/004_ABN_for_GRN/InfoDyn_lib/Model_Basics.py:55-66 | a run of signed fields is its bodies, each followed by `|` |
| Records.SplitSignedFields | on_Model/Utils/plot_results.py:34 | a run of signed fields splits at `|` into exactly its bodies, then whatever follows |
| Records.PlainBodies | on_Model/004_ABN_for_GRN/InfoDyn_lib/Model_Basics.py:45 | the node fields between the `|`, one `%0.3f` per value |
| Records.PlainFieldsTerminated | on_Model/004_ABN_for_GRN/InfoDyn_lib/Model_Basics.py:45 | a run of plain fields is its bodies, each followed by `|` |
| Records.SignedBodyReadable | on_Model/Utils/plot_results.py:34-39 | a signed field survives `strip()`, is not skipped, and reads back as the printed value |
| Records.PlainBodyReadable | on_Model/Utils/plot_results.py:34-39 | a plain field survives `strip()`, is not skipped, and reads back as the printed value, whatever the rounding |
| Records.TerminatedEnds | on_Model/004_ABN_for_GRN/InfoDyn_lib/Model_Basics.py:53-67 | a record's fields end with `|` and start with the first field |
| Text.NatToString | on_Model/004_ABN_for_GRN/InfoDyn_lib/Model_Basics.py:45 | `%d` of a non-negative number: non-empty, all digits, with no leading zero, and denoting the number |
| Text.NatToStringLength | on_Model/004_ABN_for_GRN/InfoDyn_lib/Model_Basics.py:45 | a number below `10^p` prints in at most `p` digits |
| Text.LeadingZero | on_Model/Utils/plot_results.py:62 | `int()` ignores the zeros `%03d` adds in front |
| Text.ZeroPad | on_Model/004_ABN_for_GRN/InfoDyn_lib/Model_Basics.py:45 | zero padding gives at least the width, keeps a digit string all digits, and keeps its value |
| Text.Pad3 | on_Model/004_ABN_for_GRN/InfoDyn_lib/Model_Basics.py:45 | `%03d` gives at least three digits and denotes the number |
| Text.Pad3RoundTrip | on_Model/Utils/plot_results.py:62 | `int()` of a `%03d` stamp gives back the time |
| Text.ParseNat | on_Model/Utils/plot_results.py:62 | `int()` of the digit group succeeds exactly on a non-empty run of digits |
| Text.ParseFixedSign | on_Model/Utils/plot_results.py:39 | a `+` or `-` in front of a number only sets the sign of the value `float()` reads |
| Text.FractionDigits | on_Model/004_ABN_for_GRN/InfoDyn_lib/Model_Basics.py:45 | `%0.3f` prints exactly three decimals, and they denote the remainder |
| Text.FixedRoundTrip | on_Model/Utils/plot_results.py:39 | a `%0.<p>f` text, also with a leading `+`, reads back as the value printed |
| Text.RenderedUnits | on_Model/004_ABN_for_GRN/InfoDyn_lib/Model_Basics.py:45 | the whole and the decimal digits of a rendering together denote the magnitude rendered |
| Text.Split | on_Model/Utils/plot_results.py:34 | `str.split` on one separator gives at least one piece, and no piece holds the separator |
| Text.SplitAt | on_Model/Utils/plot_results.py:34 | a separator splits the text into the pieces of its two sides |
| Text.SplitNoSeparator | on_Model/Utils/plot_results.py:34 | text without the separator splits into itself |
| Text.SplitJoin | on_Model/Utils/plot_results.py:34 | joining pieces free of the separator and splitting again gives the pieces back |
| Text.LStrip | on_Model/Utils/plot_results.py:56 | `lstrip()`: a suffix that does not start with white space, and only white space is removed |
| Text.RStrip | on_Model/Utils/plot_results.py:56 | `rstrip()`: a prefix that does not end with white space, and only white space is removed |
| Text.StripUnspaced | on_Model/Utils/plot_results.py:56 | text that neither starts nor ends with white space is its own `strip()` |
| Text.StripTrailing | on_Model/Utils/plot_results.py:56 | stripping a line made of unspaced text and trailing white space gives back the text |
| Text.RStripTrailing | on_Model/Utils/plot_results.py:56 | `rstrip()` removes exactly the trailing white space after unspaced text |
| Text.LStripUnspaced | on_Model/Utils/plot_results.py:56 | text that does not start with white space is its own `lstrip()` |
| PlotResults.DigitRun | on_Model/Utils/plot_results.py:26 | the run of ASCII digits that starts a text (the other Unicode digits of `\d` are left out): all digits, and the character after it, if any, is not a digit |
| PlotResults.ParsePipeValues | on_Model/Utils/plot_results.py:29-40 | `_parse_pipe_values`: the pieces of the payload between `|`, stripped; empty ones are skipped, the others are read with `float()` in order, and the first one `float()` refuses is the ValueError |
| PlotResults.PipeValuesNext | on_Model/Utils/plot_results.py:36-39 | the reading of one more piece is one more step of the loop |
| PlotResults.PipeValuesPrefixError | on_Model/Utils/plot_results.py:39 | once a piece is refused, the whole payload is refused with that error |
| PlotResults.Gather | on_Model/Utils/plot_results.py:55-68 | the times and rows read: one row per time |
| PlotResults.LineRead | on_Model/Utils/plot_results.py:62-66 | one record appends one time and one row, keeping them the same in number |
| PlotResults.GatherPrefixError | on_Model/Utils/plot_results.py:64 | once a row is refused, the whole file is refused with that error |
| PlotResults.ReadTimeseriesGeneric | on_Model/Utils/plot_results.py:43-68 | `read_timeseries_generic`: a missing file is FileNotFoundError; otherwise the times and rows of its lines; one row per time |
| PlotResults.ReadLines | on_Model/Utils/plot_results.py:55-66 | the loop over the lines of the file gives the times and rows its lines hold |
| PlotResults.AddLine | on_Model/Utils/plot_results.py:62-66 | one loop step appends the line's time and row, or stops at the ValueError |
| PlotResults.ReadLine | on_Model/Utils/plot_results.py:56-64 | a stripped line that is blank or does not match is skipped; otherwise its time and values are read |
| PlotResults.FirstIndex | on_Model/Utils/plot_results.py:79 | the first `:` of a line: it is `:` and none comes before it |
| PlotResults.ReadProperties | on_Model/Utils/plot_results.py:71-81 | `read_properties`: a missing file gives no properties; otherwise every line with a `:` is split at its first `:`, both sides are stripped, and later keys overwrite earlier ones |
| PlotResults.ReadPropertyLine | on_Model/Utils/plot_results.py:77-80 | one line adds or overwrites one property, or is skipped when it has no `:` |
| PlotResults.DefaultLinkKeys | on_Model/Utils/plot_results.py:84-91 | the link columns: the five `Var_` keys then the eight `Alpha_` keys, all distinct |
| PlotResults.Column | on_Model/Utils/plot_results.py:103-105 | the series of a column: one entry per row, NaN where the row is too short |
| PlotResults.RowAppendedColumns | on_Model/Utils/plot_results.py:104-105 | one row with distinct keys appends to each key's series its entry of the row, and adds no key |
| PlotResults.RowAppendedOther | on_Model/Utils/plot_results.py:104-105 | a row leaves the series of a key it does not list unchanged |
| PlotResults.LoadedColumns | on_Model/Utils/plot_results.py:102-105 | with distinct keys, the series have exactly those keys, and each key's series is its column of the rows |
| PlotResults.ColumnAppend | on_Model/Utils/plot_results.py:103-105 | one more row adds that row's entry to the end of the column |
| PlotResults.PutAllKeys | on_Model/Utils/plot_results.py:102 | `{k: [] for k in keys}` over distinct keys has exactly those keys, in order |
| PlotResults.AppendRow | on_Model/Utils/plot_results.py:104-105 | the inner loop appends one value to each key's series |
| PlotResults.LoadSeries | on_Model/Utils/plot_results.py:102-105 | the loops over rows and keys give the series of the rows |
| PlotResults.LoadLinkSeries | on_Model/Utils/plot_results.py:94-107 | `load_link_series`: the times and series of `Link_u_v.txt`, with the link columns when no keys are given, or the error of reading the file |
| PlotResults.LoadNodeSeries | on_Model/Utils/plot_results.py:110-122 | `load_node_series`: the times and the H0 and partial1 series of `Node_<node>.txt`, or the error of reading the file |
| PlotResults.Thousandths | on_Model/Utils/plot_results.py:39 | printed thousandths as the reals they stand for |
| PlotResults.DigitRunPrefix | on_Model/Utils/plot_results.py:26 | a run of digits followed by a non-digit has exactly the run's length |
| PlotResults.MatchRecord | on_Model/Utils/plot_results.py:26 | a `%03d` stamp, a `:` and a payload that does not start with white space match with that time and that payload |
| PlotResults.MatchDigits | on_Model/Utils/plot_results.py:26 | digits, a `:` and an unspaced payload match with the value of the digits and that payload |
| PlotResults.LeadingDigit | on_Model/Utils/plot_results.py:26 | text starting with a digit has no leading white space to skip |
| PlotResults.DigitsThen | on_Model/Utils/plot_results.py:26 | after the digits, the match depends only on what follows them, white space skipped |
| PlotResults.ColonThen | on_Model/Utils/plot_results.py:26 | a `:` and an unspaced payload complete the match |
| PlotResults.PipeValuesRead | on_Model/Utils/plot_results.py:34-40 | readable pieces that `float()` reads are all read, in order |
| PlotResults.PipeValuesReadStep | on_Model/Utils/plot_results.py:36-39 | one more readable piece adds its value |
| PlotResults.PipeValuesBlankLast | on_Model/Utils/plot_results.py:37-38 | an empty last piece is skipped |
| PlotResults.PieceReadOk | on_Model/Utils/plot_results.py:37-39 | a readable piece that `float()` reads as `v` appends `v` |
| PlotResults.RecordRead | on_Model/Utils/plot_results.py:55-66 | a stamp of digits followed by readable fields, each ending in `|`, reads back as the stamp's time and the fields' values |
| PlotResults.MatchedLine | on_Model/Utils/plot_results.py:56-64 | a stripped line that matches holds its time and its payload's values |
| PlotResults.MatchTimeEmpty | on_Model/Utils/plot_results.py:57-61 | an empty line does not match |
| PlotResults.RecordUnspaced | on_Model/Utils/plot_results.py:56-63 | a record is its own strip, and its payload does not start with white space |
| PlotResults.PayloadRead | on_Model/Utils/plot_results.py:34-40 | a record's payload splits into its fields and a last empty piece, and reads back as the fields' values |
| PlotResults.ReadsPrinted | on_Model/Utils/plot_results.py:39 | when `float()` reads fixed-point texts faithfully, a printed text reads as the thousandths it denotes |
| PlotResults.LinkRecordRead | on_Model/Utils/plot_results.py:43-68 | a link record written by `Save_Info_Vars` reads back as its time and its printed values |
| PlotResults.SignedBodiesRead | on_Model/Utils/plot_results.py:34-39 | every signed field of a link record is readable and reads as its printed value |
| PlotResults.NodeRecordRead | on_Model/Utils/plot_results.py:43-68 | a node record written by `Save_Info_Vars` reads back as its time and its printed values |
| PlotResults.PlainBodiesRead | on_Model/Utils/plot_results.py:34-39 | every plain field of a node record is readable and reads as its printed value |
| Ksg.Interleaved | on_Model/InfoDyn_lib/Estimators/KSG.py:19-22 | the names are twice as many as the nodes |
| Ksg.InterleavedAt | on_Model/InfoDyn_lib/Estimators/KSG.py:20-22 | position `2i` names node `i` and position `2i + 1` its primed copy |
| Ksg.InterleaveNames | on_Model/InfoDyn_lib/Estimators/KSG.py:19-22 | the loop over the nodes builds exactly the interleaved names |
| Ksg.Each | on_Model/InfoDyn_lib/Estimators/KSG.py:29-33 | stepping over a sequence and stopping at the first exception gives one result per element |
| Ksg.EachValues | on_Model/InfoDyn_lib/Estimators/KSG.py:29-33 | a full result holds each element's value in its place; an exception is the exception of some element |
| Ksg.EachPrefixFails | on_Model/InfoDyn_lib/Estimators/KSG.py:29-33 | an exception part way through is the exception of the whole loop |
| Ksg.EachStops | on_Model/InfoDyn_lib/Estimators/KSG.py:29-33 | the first element that raises ends the loop with its exception |
| Ksg.Row | on_Model/InfoDyn_lib/Estimators/KSG.py:29-34 | a replicate's row has one value per name |
| Ksg.Reals | on_Model/InfoDyn_lib/Estimators/KSG.py:34 | the row's integer states as numbers, each in its place |
| Ksg.NextLine | on_Model/InfoDyn_lib/Estimators/KSG.py:45 | `readline()` splits the rest of the file into the line it returns and what follows, losing nothing |
| Ksg.NextLineOf | on_Model/InfoDyn_lib/Estimators/KSG.py:45 | a line ending in its only line break is what `readline()` returns |
| Ksg.Parsed | on_Model/InfoDyn_lib/Estimators/KSG.py:46-48 | a parsed line has one value per piece |
| Ksg.ParseRow | on_Model/InfoDyn_lib/Estimators/KSG.py:46-48 | the loop over the pieces of a line gives the parsed row or the first piece's error |
| Ksg.Loading | on_Model/InfoDyn_lib/Estimators/KSG.py:44-49 | reading the ensemble file gives at most `Ensemble_Size` rows |
| Ksg.LoadingUnfold | on_Model/InfoDyn_lib/Estimators/KSG.py:44-49 | one more `readline()` whose line parses adds its row in front of the rest of the reading; one that does not parse ends it |
| Ksg.ReadLines | on_Model/InfoDyn_lib/Estimators/KSG.py:44-49 | the reading loop gives the rows and outcome of the reading |
| Ksg.Source.constructor | on_Model/InfoDyn_lib/Estimators/KSG.py:9-14 | a new source is in post-analysis mode with the ensemble size given, no names and no rows |
| Ksg.Source.InitSourceRealtime | on_Model/InfoDyn_lib/Estimators/KSG.py:16-23 | in realtime mode the names become every node followed by its primed copy, and the rows are emptied; otherwise nothing changes |
| Ksg.Source.UpdateSourceRealtime | on_Model/InfoDyn_lib/Estimators/KSG.py:25-34 | in realtime mode exactly one row is appended, with every name's state and the buffered value for a primed name; a name that cannot be read raises and nothing is appended; otherwise nothing changes |
| Ksg.Source.InitSourcePostAnalysis | on_Model/InfoDyn_lib/Estimators/KSG.py:36-53 | the names are the interleaved nodes; a missing file raises before any row; otherwise `Ensemble_Size` lines are read as rows, then the row length must equal the number of names |
| Ksg.PairColumns | on_Model/InfoDyn_lib/Estimators/KSG.py:46-48 | a snapshot row holds two values per node |
| Ksg.PairFields | on_Model/InfoDyn_lib/Model_Basics.py:241-243 | a snapshot line holds two fields per node |
| Ksg.PairFieldsAt | on_Model/InfoDyn_lib/Model_Basics.py:241-243 | each field of a snapshot line is its column value printed `%0.4f` |
| Ksg.StatePairsTerminated | on_Model/InfoDyn_lib/Model_Basics.py:240-243 | the snapshot text is its fields, each followed by `|` |
| Ksg.StateFieldShape | on_Model/InfoDyn_lib/Model_Basics.py:242-243 | a `%0.4f` state field holds neither `|` nor a line break |
| Ksg.SnapshotLineSplits | on_Model/InfoDyn_lib/Estimators/KSG.py:46-47 | a snapshot line splits at `|` into its fields, the last one carrying the line break |
| Ksg.ParsedColumns | on_Model/InfoDyn_lib/Estimators/KSG.py:46-48 | pieces that each read as a column value parse into the row of those values |
| Ksg.SnapshotLineReads | on_Model/InfoDyn_lib/Estimators/KSG.py:45-48 | a line written by `Save_States` reads back as each node's previous and current state, interleaved |
| Ksg.SnapshotRows | on_Model/InfoDyn_lib/Estimators/KSG.py:44-49 | the rows of a snapshot file: one per replicate, each its pairs of states |
| Ksg.SnapshotLineBreak | on_Model/InfoDyn_lib/Estimators/KSG.py:45 | `readline()` on a snapshot line returns exactly that line |
| Ksg.TerminatedNoBreak | on_Model/InfoDyn_lib/Estimators/KSG.py:45 | fields without line breaks joined by `|` hold no line break |
| Ksg.SnapshotTextLoads | on_Model/InfoDyn_lib/Estimators/KSG.py:44-49 | reading as many lines as the snapshot file holds gives back every replicate's row, in order, with no exception |
| Ksg.SnapshotsLoad | on_Model/InfoDyn_lib/Estimators/KSG.py:36-53 | post-analysis reads back what the simulation saved: every row loads and the shape test passes |
| Ksg.As2D | on_Model/InfoDyn_lib/Estimators/KSG.py:125-131 | `_as_2D` succeeds exactly on rank 1 or 2; rank 1 becomes one column, rank 2 is returned unchanged, and the values are kept |
| Ksg.As2DIdempotent | on_Model/InfoDyn_lib/Estimators/KSG.py:125-131 | `_as_2D` changes nothing the second time |
| Ksg.Columns | on_Model/InfoDyn_lib/Estimators/KSG.py:97-100 | the `Variable_Names.index` lookups of the known names, left to right: success exactly when every name is a column, else the ValueError of the first one that is not |
| Ksg.MutualInformation | on_Model/InfoDyn_lib/Estimators/KSG.py:88-100 | no names is the IndexError; an unknown `For[0]` is its ValueError before `For[1]` is read; a known single name is the IndexError; then the ValueError of an unknown `For[1]` or of the first unknown known name; otherwise the estimate of the first two names given the known ones |
| Ksg.MutualInformationDefined | on_Model/InfoDyn_lib/Estimators/KSG.py:88-117 | the mutual information exists exactly when there are two names, both and every known name are columns and the estimate succeeds, and then it is that estimate |
| Ksg.MutualInformationUnknownKnown | on_Model/InfoDyn_lib/Estimators/KSG.py:97-100 | once both variables are found, the first unknown known name decides the ValueError, whatever the estimate |
| Ksg.MutualInformationSymmetric | on_Model/InfoDyn_lib/Estimators/KSG.py:88-117 | with an estimate symmetric in its two variables, exchanging `For[0]` and `For[1]` changes neither the outcome nor the value |
| Ksg.ConditionalEntropyReads | on_Model/InfoDyn_lib/Estimators/KSG.py:80-91 | whatever the columns, with one variable the conditional entropy uses only the first known one; with two or more it depends only on whether any are known |
| Ksg.ClampCounts | on_Model/InfoDyn_lib/Estimators/KSG.py:152-162 | a fresh array with one count per point: the points within the radius less the point itself, and never below zero |
| Ksg.ClampBounds | on_Model/InfoDyn_lib/Estimators/KSG.py:161 | a clamped count is never negative, and is one less than the matches whenever the point itself matches |
| Ksg.Estimator.constructor | on_Model/InfoDyn_lib/Estimators/KSG.py:56-64 | a new estimator has `k = 10`, jitter `1e-10`, and a fresh source in post-analysis mode with no names or rows |
| Ksg.Estimator.MultipleMutualInformation | on_Model/InfoDyn_lib/Estimators/KSG.py:121-122 | `Multiple_Mutual_Information` returns nothing |
| AbnMain.NameInjective | on_Model/004_ABN_for_GRN/main.py:74-78 | two genes share a node name exactly when they are the same gene |
| AbnMain.Names | on_Model/004_ABN_for_GRN/main.py:74-78 | the node names of a list of genes, each in its place |
| AbnMain.NamePairs | on_Model/004_ABN_for_GRN/main.py:82-94 | the links by node name, each in its place |
| AbnMain.NamesIn | on_Model/004_ABN_for_GRN/main.py:74-78 | a gene's name is among the names exactly when the gene is among the genes |
| AbnMain.NamesDistinct | on_Model/004_ABN_for_GRN/main.py:74-78 | different genes give different names |
| AbnMain.NamePairsDistinct | on_Model/004_ABN_for_GRN/main.py:82-94 | different gene links give different name links |
| AbnMain.AllInNames | on_Model/004_ABN_for_GRN/main.py:79-94 | the links end at nodes by name exactly when they end at them gene by gene |
| AbnMain.AdjacentNames | on_Model/004_ABN_for_GRN/main.py:82-94 | the neighbours a node name gets are the names of its gene's neighbours |
| AbnMain.ArmGenes | on_Model/004_ABN_for_GRN/main.py:75-78 | one chain is `c1 .. c len` |
| AbnMain.GenesAt | on_Model/004_ABN_for_GRN/main.py:74-78 | node `p` is `A` for `p = 0`, `Bp` for `p <= n`, and `C(p-n)` after that; there are `n + m + 1` of them |
| AbnMain.GenesMembers | on_Model/004_ABN_for_GRN/main.py:74-78 | the genes are `A` and the chain genes numbered 1 to the chain's length |
| AbnMain.NodeNamesSpec | on_Model/004_ABN_for_GRN/main.py:49 | `Total_Nodes = n + m + 1` distinct names, which are exactly `A`, `B1 .. Bn` and `C1 .. Cm` |
| AbnMain.IndexList | on_Model/004_ABN_for_GRN/main.py:74-78 | the loops build `index_list`: `A`, then `B1 .. Bn`, then `C1 .. Cm` |
| AbnMain.ArmLinks | on_Model/004_ABN_for_GRN/main.py:82-86 | a chain of `len` genes has `len - 1` links, each from gene `i` to gene `i + 1` |
| AbnMain.Neighbored | on_Model/004_ABN_for_GRN/main.py:82-94 | each node's neighbour list grows by the neighbours the links give it |
| AbnMain.AdjacentAppend | on_Model/004_ABN_for_GRN/main.py:82-94 | links added in two runs give the neighbours of both runs, in order |
| AbnMain.AllInAppend | on_Model/004_ABN_for_GRN/main.py:82-94 | two runs of links all end at nodes exactly when each run does |
| AbnMain.LinkStep | on_Model/004_ABN_for_GRN/main.py:83 | one `Add_a_Link` whose ends are nodes extends the links and neighbour lists by that link; a missing end makes the whole topology fail |
| AbnMain.AddLinks | on_Model/004_ABN_for_GRN/main.py:82-94 | adding the links in turn passes exactly when every link ends at nodes, and otherwise raises the KeyError; on success the links and the neighbour lists are those the links give, and the nodes are unchanged |
| AbnMain.LinkTopology | on_Model/004_ABN_for_GRN/main.py:81-94 | the link half of `Set_Topology` passes exactly when every link ends at nodes; then every node's neighbours are those the figure-8 links give it |
| AbnMain.PlaceNodes | on_Model/004_ABN_for_GRN/main.py:74-79 | the node half of `Set_Topology` gives the network exactly the names of `index_list`, each a fresh node without neighbours, and no links |
| AbnMain.SetTopology | on_Model/004_ABN_for_GRN/main.py:71-94 | `Set_Topology` makes exactly the figure-8 nodes; it passes exactly when every link ends at a node, otherwise it raises the KeyError; on success it stores the links and gives every node its neighbours |
| AbnMain.FromEmpty | on_Model/004_ABN_for_GRN/main.py:79-94 | nodes that start without neighbours end with exactly the neighbours the links give |
| AbnMain.GeneLinksAt | on_Model/004_ABN_for_GRN/main.py:82-94 | the links are the B chain, then the C chain, then the four closing links, `n + m + 2` in all when both chains are non-empty |
| AbnMain.ArmLinksStep | on_Model/004_ABN_for_GRN/main.py:82-86 | a chain of `len + 1` genes is the chain of `len` and one more link |
| AbnMain.AdjacentNone | on_Model/004_ABN_for_GRN/main.py:82-94 | a node no link touches gains no neighbours |
| AbnMain.ArmAdjacent | on_Model/004_ABN_for_GRN/main.py:82-86 | in a chain, gene `i` has its predecessor, then its successor |
| AbnMain.GeneNeighborsOfA | on_Model/004_ABN_for_GRN/main.py:87-94 | `A` is linked to `B1`, `Bn`, `C1` and `Cm`, in that order |
| AbnMain.ClosingAdjacent | on_Model/004_ABN_for_GRN/main.py:87-94 | the closing links give chain gene `i` the hub once for being first and once for being last |
| AbnMain.GeneNeighborsOfArm | on_Model/004_ABN_for_GRN/main.py:81-94 | chain gene `i` is linked to its predecessor, its successor, and `A` once for being first and once for being last |
| AbnMain.NeighborsOfA | on_Model/004_ABN_for_GRN/main.py:87-94 | by name, node `A` is linked to `B1`, `Bn`, `C1` and `Cm`, in that order |
| AbnMain.NeighborsOfArm | on_Model/004_ABN_for_GRN/main.py:81-94 | by name, chain node `i` is linked to its predecessor, its successor and `A`; a chain of one node lists `A` twice |
| AbnMain.TopologyComplete | on_Model/004_ABN_for_GRN/main.py:87-94 | every link ends at a node exactly when both chains are non-empty; an empty chain makes `(B0, A)` or `(C0, A)` the KeyError |
| AbnMain.RegisteredDistinct | on_Model/004_ABN_for_GRN/main.py:82-94 | storing distinct links one by one keeps them all, in order |
| AbnMain.TopologyLinksDistinct | on_Model/004_ABN_for_GRN/main.py:81-94 | with chains of at least two genes, the `n + m + 2` links are all different and all kept, in order |
| AbnMain.ShortChainLink | on_Model/004_ABN_for_GRN/main.py:88-90 | with one B gene, `(B1, A)` and `(Bn, A)` are the same link |
| AbnMain.SetEstimator | on_Model/004_ABN_for_GRN/main.py:101-103 | `Set_Estimator` makes a fresh binning estimator with `Q` states, dimension 4, and its source in realtime, pairwise mode with no statistics |
| AbnMain.Read | on_Model/004_ABN_for_GRN/main.py:107 | reading a state succeeds exactly for a present node and gives its value; a missing node raises the KeyError |
| AbnMain.Shifted | on_Model/004_ABN_for_GRN/main.py:107-115 | the copies into the buffer fail only with the KeyError |
| AbnMain.ShiftedSpec | on_Model/004_ABN_for_GRN/main.py:107-115 | the copies succeed exactly when every node read is present; then each target holds its source's value and every other buffer entry is unchanged |
| AbnMain.ShiftStep | on_Model/004_ABN_for_GRN/main.py:108-110 | one copy of the run: a missing source is the KeyError, otherwise the target is set and the rest follows |
| AbnMain.AbnNext | on_Model/004_ABN_for_GRN/main.py:105-122 | `Dynamics_of_States` raises only the KeyError |
| AbnMain.ShiftChain | on_Model/004_ABN_for_GRN/main.py:107-115 | the loop of one chain gives the chain's copies |
| AbnMain.DynamicsOfStates | on_Model/004_ABN_for_GRN/main.py:105-122 | the method computes exactly the next buffer of the figure-8 rules, or the KeyError |
| AbnMain.ChainDefined | on_Model/004_ABN_for_GRN/main.py:107-115 | one chain's copy succeeds exactly when `A` and every gene of the chain but the last are present |
| AbnMain.ChainFirst | on_Model/004_ABN_for_GRN/main.py:107-112 | after the copy, the first gene of a chain holds `A` |
| AbnMain.ChainNext | on_Model/004_ABN_for_GRN/main.py:108-110 | after the copy, gene `i + 1` of a chain holds gene `i` |
| AbnMain.ChainOthers | on_Model/004_ABN_for_GRN/main.py:107-115 | a chain's copy leaves every buffer entry it does not target unchanged |
| AbnMain.ArmApart | on_Model/004_ABN_for_GRN/main.py:74-78 | a chain gene is never `A`, and never a target of the other chain |
| AbnMain.AbnNextDefined | on_Model/004_ABN_for_GRN/main.py:105-122 | `Dynamics_of_States` raises nothing exactly when every node it reads is present: `A`, every chain gene but the last, `Bn`, and `Cm` when `Bn` is 1 |
| AbnMain.AbnNextHub | on_Model/004_ABN_for_GRN/main.py:116-122 | the new buffer is the two chain copies, then `A = 1` when `Bn = 1` and `Cm = 0`, else `A = 0` |
| AbnMain.AbnNextRules | on_Model/004_ABN_for_GRN/main.py:105-122 | `B1' = A`, `B(i+1)' = Bi`, `C1' = A`, `C(i+1)' = Ci`, and `A' = 1` exactly when `Bn = 1` and `Cm = 0` |
| AbnMain.AbnNextOthers | on_Model/004_ABN_for_GRN/main.py:105-122 | the update writes only the chain genes and `A`; every other buffer entry is unchanged |
| AbnMain.AbnNextGene | on_Model/004_ABN_for_GRN/main.py:105-115 | every chain node takes the value its predecessor had |
| AbnMain.StatesAt | on_Model/004_ABN_for_GRN/main.py:96-99 | in a Boolean state every gene of the network is present and holds 0 or 1 |
| AbnMain.BooleanReadable | on_Model/004_ABN_for_GRN/main.py:105-122 | with both chains non-empty, a Boolean state has every value the update reads |
| AbnMain.BooleanAt | on_Model/004_ABN_for_GRN/main.py:105-122 | from a Boolean state, each node of the update holds 0 or 1 |
| AbnMain.AbnNextBoolean | on_Model/004_ABN_for_GRN/main.py:105-122 | with both chains non-empty, from states in `{0, 1}` the update raises nothing and gives states in `{0, 1}` |
| AbnMain.AbnNextBufferFree | on_Model/004_ABN_for_GRN/main.py:105-122 | the update is synchronous: whether it raises, and every node's new value, depend only on the states, not on the old buffer |

## Left out

- `math.log` is the parameter `ln: real -> real` of every entropy. Measures are exact reals, and floating-point rounding is not modelled.
- `"%0.3f" % v` is the parameter `Render`. It gives the printed sign and the thousandths; how Python rounds is left to it. `"%0.4f" % state` is exact (`Records.Exact4`), because states are integers.
- `float()` is the parameter `toFloat`. The round-trip lemmas assume only that it reads the fixed-point texts the writers print as the values those texts denote (`PlotResults.ReadsFixed`, `Ksg.ReadsStates`).
- The file system is a map from path to contents:
  - `open`, `close` and `encoding="utf-8"` are not modelled;
  - an `OSError` other than a missing file is not modelled;
  - `os.path.exists` is membership in the map.
- PlotResults.LoadLinkSeries, PlotResults.LoadNodeSeries: the `os.path.join(directory, fname)` of plot_results.py:96 and :112 is dropped. The series are read from the file name alone.
- PlotResults.DigitRun, PlotResults.MatchTime, Text.IsDigit, Text.ParseNat: the `\d` of `_TIME_RE` (plot_results.py:26) and the `int()` of line 62 accept every Unicode decimal digit (category Nd), but the model knows only ASCII `'0'..'9'`. A line whose time stamp uses other decimal digits, such as Arabic-Indic ones, is read by the source and skipped by the model. The writers only ever print ASCII digits, so the round trips are unaffected.
- PlotResults.FileLines splits only at `'\n'`. The universal-newline translation of `'\r'` and `'\r\n'` when a file is read is not modelled.
- `random.randint` is the parameter `Draws`, a stream of values by position. `random.seed(time.time())` is not modelled.
- Driver.DrawStates: the ValueError `random.randint(0, Q - 1)` raises when `Q <= 0` (004_ABN_for_GRN/main.py:98, ABN Model_Basics.py:112) is not modelled. The model takes whatever the stream gives, and `Driver.DrawnInRange` puts states in range only when the draws are.
- AbnModelBasics.Model.InitStateSpace: takes the same stream of draws, with the same gap for `Q <= 0`.
- `print` (the progress lines of `Generate_Data`) is not modelled.
- The plotting in plot_results.py (`plot_multi_series`, `main` with `argparse` and `matplotlib`) is output only.
- KSG numerics:
  - `Entropy`, the digamma formulas of `Mutual_Information`, `_Standardize`, `_Add_Jitter` and the nearest-neighbour search of `_Calculate_kNN_Epsilon` and `_Count_within_Epsilon` are floating-point work.
  - The model takes the entropy as the parameter `h` of `Ksg.ConditionalEntropy`, and the estimate that follows the column lookups as the parameter `i` of `Ksg.MutualInformation`.
  - `Ksg.ClampCounts` takes the number of neighbours found within the radius as input.
- Ksg.ConditionalEntropy, Ksg.MutualInformation: `Entropy`, `Conditional_Entropy` and `Mutual_Information` each first rebind `self.Source.Ensemble` to the 2-D array `_as_2D` makes of it (KSG.py:67, 81, 89). These are pure functions of the names, so the rebinding is not modelled, and neither is its consequence: a later `Update_Source_Realtime` without a new `Init_Source_Realtime` would raise the AttributeError of `ndarray.append` (KSG.py:34), where `Ksg.Source.UpdateSourceRealtime` appends a row. The `_as_2D` ValueError of a ragged ensemble is not modelled either.
- Ksg.ShapeCheck follows NumPy releases in which `numpy.asarray` on ragged rows raises a ValueError. Older releases built an object array instead, which is not modelled.
- Ksg.As2D models an array by its shape and its values only. dtypes and views are not modelled.
- ModelBasics.ReplayTimes: `int(Time_Limit / Save_Interval)` is a float division then a truncation. The model uses the integer quotient, which agrees except where the float quotient is rounded (values above 2^53).
- `Total_Nodes` (main.py:49, Model_Basics.py:76 and :91) is set but never read by the core, so the model does not carry it. `Q` is taken as given, and a `Q` below 1 is not rejected.
- ModelBasics.EstimateE: `Estimate_E` raises at its first line (Model_Basics.py:223), because `H0'` is never stored. So the flow sum of lines 224-237 (directions `1`/`2`, `Delta_H0`, `Alpha_1`) can never run and is not modelled. For the same reason `Post_Estimation_for_E` never writes a record line; it stops after the `E|` header of the first node.
- The hooks `Set_Topology`, `Set_Estimator`, `Init_State_Space` and `Dynamics_of_States` of the root `Model_Basic` raise NotImplementedError (Model_Basics.py:260-270). In the driver models they are parameters: the network, the estimator and the functions `init` and `dyn`. The figure-8 versions of main.py are modelled in `AbnMain` and connected through those parameters. The NotImplementedError itself is not modelled.
- `ABN_Model.__init__` and `Register_Properties` (main.py:43-69) choose constants: `Q = 2`, `N_B`, `N_C`, a time limit of 40, 10000 replicates and the save directory. The driver models take these as constructor arguments, and `Register_Properties` as the properties map it fills. `Plot_Data` is `pass`.
- ModelBasics.Model.ReplayStep: the binning source inherits `Init_Source_Post_Analysis` from `Estimator_Basics.Source`, where it is `pass`. So `Post_Analysis` loads nothing from the snapshot file: the model records which file and time would be read, and recalculates from the statistics already there. Reading the snapshot file is modelled only for the KSG source (`Ksg.Source.InitSourcePostAnalysis`).
- The KSG source is modelled alone, because no driver in the core selects it. The root driver is modelled with the binning estimator that main.py chooses.
- Model 005_Three_Nodes_GRN and the other model folders (ODEs over floats, `scipy` parameters) are not part of this model.

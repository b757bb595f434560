# GHVFDT in Dafny

This project models the core of GHVFDT, a streaming Hoeffding decision tree for
two-class problems that chooses splits by the Hellinger distance between the
per-class Gaussian estimates of each numeric attribute, and proves properties of
that model.

The model follows the Java classes one module each:

- **Engine:** `ghvfdt.dfy` models `GHVFDT`, the class that trains, splits, activates and deactivates leaves, and predicts.
  - Its state is read as a `TreeState` value, and each operation has a specification function.
  - The class `Ghvfdt.GHVFDT` holds the fields the Java class mutates. Its methods are proved to do exactly what those functions say.
  - The central property is the counter invariant `Valid`: `decisionNodeCount`, `activeLeafNodeCount` and `inactiveLeafNodeCount` equal the numbers of decision nodes, active leaves and inactive leaves reachable from the root. It is proved to hold after construction and `resetLearning`, and to be kept by training, splitting, activation, deactivation and `deactivateAllLeaves`.
- **Tree and node hierarchy:** `nodes.dfy` and `tree.dfy`.
  - Nodes are values owned by the slot that holds them, and a node's position is its path of branch indices from the root.
  - `Trees.ReplaceAt` writes a slot: the root for the empty path, otherwise `setChild` on the parent.
  - `Trees.Tally` counts the reachable node kinds.
- **Split-suggestion pipeline:** `observer.dfy` (`GHNumericAttributeClassObserver`), `split_suggestion.dfy`, `split_test.dfy`, `split_criterion.dfy` and `gaussian_estimator.dfy`.
  - The Gaussian estimator works over exact reals.
- **Containers:** `double_vector.dfy` and `auto_expand_vector.dfy` are classes over an array and a sequence.
- **Classifier:** `classifier.dfy` (`maxIndex`).
- **Instances:** `instance.dfy` models `Instance`.
- **Input files:** `arff.dfy` covers the ARFF line parsing and the validity scan. `base_object.dfy` covers the conversions to primitive arrays.

Doubles are `Doubles.Double`: a real, plus the two infinities and NaN, with IEEE comparisons. Finite arithmetic is exact: there is no rounding, no overflow to an infinity and no -0.0 (see "## Left out"). The Java `(int)` cast is `Doubles.ToInt`.

Two details of the source are kept as written and meet in the split test. The observer of attribute `i` is fed `value(i)` (`ActiveLearningNode.java`, line 136), but a `NumericAttributeBinaryTest` on attribute `i` reads `value(i + 1)` (`NumericAttributeBinaryTest.java`, line 81). So a split learned from feature `i` routes instances on feature `i + 1`. `Nodes.SplitReadsNextFeature` states this for every collected suggestion.

Square root, logarithm, the normal distribution function and the closed-form Hellinger and Hoeffding formulas are oracle fields of `MathOracles.MathLib`, passed as a parameter. Nothing about their numeric values is assumed beyond what a lemma's `requires` states. `Double.parseDouble` and `Integer.parseInt` are oracle fields of `Arff.NumberParsers`.

## Model

All source paths are under `GHVFDT/Java/src/cs/man/ac/uk/`, written in full.

| member | source | states |
|---|---|---|
| Doubles.Compare | GHVFDT/Java/src/cs/man/ac/uk/split/AttributeSplitSuggestion.java:137-140 | `Double.compare`: -1, 0 or 1; 0 exactly for equal values; for non-NaN values negative iff less and positive iff greater |
| Doubles.CompareOrder | GHVFDT/Java/src/cs/man/ac/uk/split/AttributeSplitSuggestion.java:139 | the comparison is antisymmetric and transitive, so ordering by merit is a total preorder |
| Doubles.ToInt | GHVFDT/Java/src/cs/man/ac/uk/data/ARFFFile.java:215 | the `(int)` cast of a double: NaN gives 0, in-range values are truncated toward zero, every result lies in the 32-bit range |
| Doubles.Add | GHVFDT/Java/src/cs/man/ac/uk/observers/GHNumericAttributeClassObserver.java:281 | IEEE addition: NaN in gives NaN out, two finite values add exactly |
| Doubles.Scale | GHVFDT/Java/src/cs/man/ac/uk/observers/GHNumericAttributeClassObserver.java:281 | multiplying by a positive factor keeps a value finite iff it was, and scales a finite value exactly |
| Vectors.Put | GHVFDT/Java/src/cs/man/ac/uk/utils/DoubleVector.java:93-99 | writing entry i grows the length to max(old, i+1), sets entry i and keeps every other entry, padding with the fill value |
| Vectors.Resize | GHVFDT/Java/src/cs/man/ac/uk/utils/DoubleVector.java:170-180 | the resized vector has length l and keeps the old entries below l, zero beyond the old length |
| Vectors.SumAddTo | GHVFDT/Java/src/cs/man/ac/uk/utils/DoubleVector.java:107-113 | adding v to an entry (growing as needed) raises the sum of values by exactly v |
| Vectors.SumPadZeros | GHVFDT/Java/src/cs/man/ac/uk/utils/DoubleVector.java:93-99 | zero padding does not change the sum of values |
| Vectors.SumUpdate | GHVFDT/Java/src/cs/man/ac/uk/utils/DoubleVector.java:128-135 | overwriting entry i changes the sum by the new value minus the old |
| Vectors.SumNonNegative | GHVFDT/Java/src/cs/man/ac/uk/utils/DoubleVector.java:128-135 | a vector of non-negative entries has a non-negative sum |
| Vectors.NonZeroCount | GHVFDT/Java/src/cs/man/ac/uk/utils/DoubleVector.java:140-149 | the count of non-zero entries is at most the length |
| Vectors.NonZeroCountZero | GHVFDT/Java/src/cs/man/ac/uk/utils/DoubleVector.java:140-149 | the count is 0 exactly when every entry is 0 |
| Vectors.NonZeroCountAtMostOne | GHVFDT/Java/src/cs/man/ac/uk/tree/nodes/Node.java:127-130 | fewer than two non-zero entries exactly when no two distinct entries are both non-zero |
| DoubleVectors.DoubleVector.constructor | GHVFDT/Java/src/cs/man/ac/uk/utils/DoubleVector.java:56 | a new vector is empty |
| DoubleVectors.DoubleVector.FromArray | GHVFDT/Java/src/cs/man/ac/uk/utils/DoubleVector.java:62-66 | copies the array's contents into a fresh array |
| DoubleVectors.DoubleVector.FromVector | GHVFDT/Java/src/cs/man/ac/uk/utils/DoubleVector.java:72-75 | copies another vector's contents into a fresh array |
| DoubleVectors.DoubleVector.NumValues | GHVFDT/Java/src/cs/man/ac/uk/utils/DoubleVector.java:86 | the length of the contents |
| DoubleVectors.DoubleVector.GetValue | GHVFDT/Java/src/cs/man/ac/uk/utils/DoubleVector.java:120-123 | the stored entry for an index in range, 0.0 for any other index, negative ones included |
| DoubleVectors.DoubleVector.SetArrayLength | GHVFDT/Java/src/cs/man/ac/uk/utils/DoubleVector.java:170-180 | the contents become `Resize(old, l)` in a fresh array |
| DoubleVectors.DoubleVector.SetValue | GHVFDT/Java/src/cs/man/ac/uk/utils/DoubleVector.java:93-99 | the contents become `Put(old, i, v, 0.0)` |
| DoubleVectors.DoubleVector.AddToValue | GHVFDT/Java/src/cs/man/ac/uk/utils/DoubleVector.java:107-113 | the contents become the old ones grown with zeros and with v added at i |
| DoubleVectors.DoubleVector.SumOfValues | GHVFDT/Java/src/cs/man/ac/uk/utils/DoubleVector.java:128-135 | the loop returns the sum of the contents |
| DoubleVectors.DoubleVector.NumNonZeroEntries | GHVFDT/Java/src/cs/man/ac/uk/utils/DoubleVector.java:140-149 | the loop returns the number of non-zero entries |
| DoubleVectors.DoubleVector.GetArrayCopy | GHVFDT/Java/src/cs/man/ac/uk/utils/DoubleVector.java:154-159 | a fresh array equal to the contents |
| DoubleVectors.DoubleVector.GetArrayRef | GHVFDT/Java/src/cs/man/ac/uk/utils/DoubleVector.java:164 | the stored array itself, not a copy |
| AutoExpandVectors.Inserted | GHVFDT/Java/src/cs/man/ac/uk/utils/AutoExpandVector.java:66-76 | inserting at pos pads with nulls up to pos, puts the element at pos and shifts the rest up by one |
| AutoExpandVectors.AutoExpandVector.constructor | GHVFDT/Java/src/cs/man/ac/uk/utils/AutoExpandVector.java:54 | a new vector is empty |
| AutoExpandVectors.AutoExpandVector.WithCapacity | GHVFDT/Java/src/cs/man/ac/uk/utils/AutoExpandVector.java:60 | the size argument is capacity only: the vector is empty |
| AutoExpandVectors.AutoExpandVector.Size | GHVFDT/Java/src/cs/man/ac/uk/utils/AutoExpandVector.java:38 | the number of elements |
| AutoExpandVectors.AutoExpandVector.Get | GHVFDT/Java/src/cs/man/ac/uk/utils/AutoExpandVector.java:82-85 | the element for an index in range, null for a negative index or one at or beyond the size |
| AutoExpandVectors.AutoExpandVector.Append | GHVFDT/Java/src/cs/man/ac/uk/utils/AutoExpandVector.java:105-110 | appends one element and reports true |
| AutoExpandVectors.AutoExpandVector.Insert | GHVFDT/Java/src/cs/man/ac/uk/utils/AutoExpandVector.java:66-76 | the elements become `Inserted(old, pos, obj)` |
| AutoExpandVectors.AutoExpandVector.Set | GHVFDT/Java/src/cs/man/ac/uk/utils/AutoExpandVector.java:91-99 | beyond the size: null padding, the element at pos, null returned; within: replaced in place, the old element returned, size kept |
| AutoExpandVectors.AutoExpandVector.AppendAll | GHVFDT/Java/src/cs/man/ac/uk/utils/AutoExpandVector.java:116-121 | appends the collection; true iff it was non-empty |
| AutoExpandVectors.AutoExpandVector.InsertAll | GHVFDT/Java/src/cs/man/ac/uk/utils/AutoExpandVector.java:127-131 | inserts the collection at the index; true iff it was non-empty |
| AutoExpandVectors.AutoExpandVector.Clear | GHVFDT/Java/src/cs/man/ac/uk/utils/AutoExpandVector.java:137-141 | empties the vector |
| AutoExpandVectors.AutoExpandVector.RemoveAt | GHVFDT/Java/src/cs/man/ac/uk/utils/AutoExpandVector.java:147-152 | removes and returns the element at the index, closing the gap |
| Classifiers.MaxIndex | GHVFDT/Java/src/cs/man/ac/uk/classifier/Classifier.java:82-95 | 0 for an empty array; otherwise an index in range whose entry is at least every entry, and every earlier entry is strictly smaller (the first maximum) |
| Instances.Instance.constructor | GHVFDT/Java/src/cs/man/ac/uk/data/Instance.java:45-55 | a new instance has label -1, no features and weight 1.0 |
| Instances.Instance.GetClassLabel | GHVFDT/Java/src/cs/man/ac/uk/data/Instance.java:65 | the label |
| Instances.Instance.GetFeature | GHVFDT/Java/src/cs/man/ac/uk/data/Instance.java:71-82 | the feature only for 0 < f < size; NaN otherwise, index 0 included |
| Instances.Instance.GetFeatures | GHVFDT/Java/src/cs/man/ac/uk/data/Instance.java:88-99 | the feature vector |
| Instances.Instance.SetClassLabel | GHVFDT/Java/src/cs/man/ac/uk/data/Instance.java:105 | sets the label and leaves the features |
| Instances.Instance.SetFeature | GHVFDT/Java/src/cs/man/ac/uk/data/Instance.java:111-125 | true and feature f replaced exactly when 0 < f < size; otherwise false and nothing changes |
| Instances.Instance.SetFeatures | GHVFDT/Java/src/cs/man/ac/uk/data/Instance.java:131-139 | the features become exactly the given values |
| Instances.Instance.AddFeature | GHVFDT/Java/src/cs/man/ac/uk/data/Instance.java:145 | appends one value |
| Instances.Instance.RemoveFeature | GHVFDT/Java/src/cs/man/ac/uk/data/Instance.java:150 | removes the feature at the index, closing the gap |
| Instances.Instance.NumAttributes | GHVFDT/Java/src/cs/man/ac/uk/data/Instance.java:221 | the feature count |
| Instances.Instance.Weight | GHVFDT/Java/src/cs/man/ac/uk/data/Instance.java:187-188 | the weight |
| Instances.Instance.ClassIsMissing | GHVFDT/Java/src/cs/man/ac/uk/data/Instance.java:193-199 | true iff the label is -1; -2 is not missing |
| Instances.Instance.IsMissing | GHVFDT/Java/src/cs/man/ac/uk/data/Instance.java:204-216 | true iff the feature is NaN; infinities are not missing |
| Instances.Instance.ClassValue | GHVFDT/Java/src/cs/man/ac/uk/data/Instance.java:227 | the label as a double |
| Instances.Instance.Value | GHVFDT/Java/src/cs/man/ac/uk/data/Instance.java:232-238 | the feature at the index, agreeing with `getFeature` above index 0 |
| Gaussian.WithObservation | GHVFDT/Java/src/cs/man/ac/uk/data/GaussianEstimator.java:107-132 | infinite or NaN values change nothing; with no positive weight yet, mean = value and weight = the given weight with the scatter untouched; otherwise the weight grows by exactly the given weight |
| Gaussian.Variance | GHVFDT/Java/src/cs/man/ac/uk/data/GaussianEstimator.java:89-92 | 0 while the weight is at most 1; otherwise variance times (weight - 1) is the scatter; non-negative for a non-negative scatter |
| Gaussian.ProbabilityDensity | GHVFDT/Java/src/cs/man/ac/uk/data/GaussianEstimator.java:139-155 | 0 without positive weight; with zero standard deviation 1.0 iff the value is the mean, else 0.0; otherwise the Gaussian density |
| Gaussian.ProbabilityDensityAt | GHVFDT/Java/src/cs/man/ac/uk/data/GaussianEstimator.java:139-155 | the density of a finite value; 0 for infinities; NaN exactly for a NaN value on the density branch |
| Gaussian.EstimatedWeights | GHVFDT/Java/src/cs/man/ac/uk/data/GaussianEstimator.java:170-185 | greater >= 0; less + equal + greater = weight when the clamp does not fire; equal = density times weight |
| Gaussian.PointMassWeights | GHVFDT/Java/src/cs/man/ac/uk/data/GaussianEstimator.java:170-185 | with zero variance the whole weight goes to less, equal or greater as the value is below, at or above the mean |
| Gaussian.ObserveAll | GHVFDT/Java/src/cs/man/ac/uk/data/GaussianEstimator.java:107-132 | feeding positive weights keeps the total weight non-negative |
| Gaussian.RunningMatchesBatch | GHVFDT/Java/src/cs/man/ac/uk/data/GaussianEstimator.java:119-131 | after any stream with positive weights, the weight, weight times mean and scatter equal the batch sums over the finite values |
| Gaussian.FirstAgrees | GHVFDT/Java/src/cs/man/ac/uk/data/GaussianEstimator.java:127-131 | the first finite observation restarts the statistics in agreement with the batch sums |
| Gaussian.StepAgrees | GHVFDT/Java/src/cs/man/ac/uk/data/GaussianEstimator.java:119-126 | one Welford step keeps agreement with the batch sums |
| Gaussian.WelfordUpdate | GHVFDT/Java/src/cs/man/ac/uk/data/GaussianEstimator.java:119-126 | the update, which uses the new mean in its second factor, moves weighted sum and scatter exactly as the batch formulas do |
| Gaussian.ConstantStream | GHVFDT/Java/src/cs/man/ac/uk/data/GaussianEstimator.java:119-131 | a stream repeating one finite value with positive weights leaves mean = that value, scatter 0 and variance 0 |
| Gaussian.ScatterNonDecreasing | GHVFDT/Java/src/cs/man/ac/uk/data/GaussianEstimator.java:119-126 | an observation with positive weight never lowers the scatter |
| Gaussian.MeanStaysInRange | GHVFDT/Java/src/cs/man/ac/uk/data/GaussianEstimator.java:119-131 | the mean stays between the least and greatest finite values observed |
| Gaussian.ConvexStep | GHVFDT/Java/src/cs/man/ac/uk/data/GaussianEstimator.java:122-124 | one running-mean step with positive weights moves the mean towards the new value and never out of an interval holding both |
| Gaussian.GaussianEstimator.constructor | GHVFDT/Java/src/cs/man/ac/uk/data/GaussianEstimator.java:51-61 | all three fields start at zero |
| Gaussian.GaussianEstimator.GetTotalWeightObserved | GHVFDT/Java/src/cs/man/ac/uk/data/GaussianEstimator.java:74 | the weight field |
| Gaussian.GaussianEstimator.GetMean | GHVFDT/Java/src/cs/man/ac/uk/data/GaussianEstimator.java:79 | the mean field |
| Gaussian.GaussianEstimator.GetVariance | GHVFDT/Java/src/cs/man/ac/uk/data/GaussianEstimator.java:89-92 | `Variance` of the fields |
| Gaussian.GaussianEstimator.AddObservation | GHVFDT/Java/src/cs/man/ac/uk/data/GaussianEstimator.java:107-132 | the fields become `WithObservation` of the old ones |
| SplitTests.InstAttIndex | GHVFDT/Java/src/cs/man/ac/uk/split/NumericAttributeBinaryTest.java:81 | the attribute read is attIndex + 1 when attIndex >= -1, attIndex itself otherwise |
| SplitTests.BranchForInstance | GHVFDT/Java/src/cs/man/ac/uk/split/NumericAttributeBinaryTest.java:79-92 | -1, 0 or 1; -1 exactly for a missing value; at the threshold 0 iff equal values pass; otherwise 0 iff below the threshold |
| SplitTests.ResultKnownForInstance | GHVFDT/Java/src/cs/man/ac/uk/split/InstanceConditionalTest.java:52-55 | the branch is known exactly when the value read is not missing |
| SplitTests.LeftIffAtMostThreshold | GHVFDT/Java/src/cs/man/ac/uk/split/NumericAttributeBinaryTest.java:86-91 | with equal values passing, a present value goes to branch 0 iff it compares at most the threshold |
| SplitSuggestions.NumSplits | GHVFDT/Java/src/cs/man/ac/uk/split/AttributeSplitSuggestion.java:87-90 | the number of branch distributions supplied |
| SplitSuggestions.ResultingClassDistributionFromSplit | GHVFDT/Java/src/cs/man/ac/uk/split/AttributeSplitSuggestion.java:128-131 | equal to branch i's distribution |
| SplitSuggestions.CompareTo | GHVFDT/Java/src/cs/man/ac/uk/split/AttributeSplitSuggestion.java:137-140 | orders by merit: 0 iff equal merits; for non-NaN merits negative iff less and positive iff greater |
| SplitSuggestions.Insert | GHVFDT/Java/src/cs/man/ac/uk/classifier/GHVFDT.java:336 | insertion adds exactly the new suggestion to the multiset |
| SplitSuggestions.SortByMerit | GHVFDT/Java/src/cs/man/ac/uk/classifier/GHVFDT.java:336 | `Arrays.sort` is a permutation of its input |
| SplitSuggestions.InsertKeepsSorted | GHVFDT/Java/src/cs/man/ac/uk/classifier/GHVFDT.java:336 | insertion into a merit-sorted sequence keeps it sorted |
| SplitSuggestions.SortIsSorted | GHVFDT/Java/src/cs/man/ac/uk/classifier/GHVFDT.java:336 | the sorted sequence is ascending by merit |
| SplitSuggestions.InsertLast | GHVFDT/Java/src/cs/man/ac/uk/classifier/GHVFDT.java:336 | the stable insertion puts the new suggestion last unless the old last has strictly greater merit |
| SplitSuggestions.SortLastIsLastBest | GHVFDT/Java/src/cs/man/ac/uk/classifier/GHVFDT.java:336-349 | the last sorted suggestion is the last one of maximal merit in the input order |
| SplitSuggestions.LastBestKept | GHVFDT/Java/src/cs/man/ac/uk/classifier/GHVFDT.java:349 | a later suggestion of strictly lower merit leaves the last best unchanged |
| SplitSuggestions.LastBestIsNew | GHVFDT/Java/src/cs/man/ac/uk/classifier/GHVFDT.java:349 | a later suggestion of merit at least the best becomes the last best |
| SplitCriterion.DistSums | GHVFDT/Java/src/cs/man/ac/uk/split/GHDSplitCriterion.java:214-225 | one sum per branch, each the total of that branch |
| SplitCriterion.CountAbove | GHVFDT/Java/src/cs/man/ac/uk/split/GHDSplitCriterion.java:226-234 | the count lies in [0, number of branches] |
| SplitCriterion.NumSubsetsGreaterThanFrac | GHVFDT/Java/src/cs/man/ac/uk/split/GHDSplitCriterion.java:211-235 | the nested loops return the number of branches whose share of the total is strictly above minFrac, between 0 and the number of branches |
| SplitCriterion.AllEmptyCountsNone | GHVFDT/Java/src/cs/man/ac/uk/split/GHDSplitCriterion.java:226-232 | when every branch sum is 0 (every share NaN) the count is 0 |
| SplitCriterion.CountAboveAntitone | GHVFDT/Java/src/cs/man/ac/uk/split/GHDSplitCriterion.java:226-232 | raising minFrac never raises the count |
| SplitCriterion.ComputeHellinger | GHVFDT/Java/src/cs/man/ac/uk/split/GHDSplitCriterion.java:102-129 | 0 for fewer than two branches or when an entry [0][0], [0][1], [1][0] or [1][1] is absent; otherwise the count formula on those four entries |
| SplitCriterion.MeritOfSplit | GHVFDT/Java/src/cs/man/ac/uk/split/GHDSplitCriterion.java:88-95 | minus infinity when fewer than two branches exceed 0.01 of the weight (so always for fewer than two branches), else `ComputeHellinger`; the pre-split distribution plays no part |
| SplitCriterion.RangeOfMerit | GHVFDT/Java/src/cs/man/ac/uk/split/GHDSplitCriterion.java:158-162 | log2 of max(length, 2): log2(2) for lengths up to 2 |
| Observers.ObservedAttributeClass | GHVFDT/Java/src/cs/man/ac/uk/observers/GHNumericAttributeClassObserver.java:105-139 | NaN changes nothing; the first value of a class creates its estimator with min = max = value; later values only lower min or raise max; other classes are untouched |
| Observers.ObserveKeepsRange | GHVFDT/Java/src/cs/man/ac/uk/observers/GHNumericAttributeClassObserver.java:112-133 | after an observation min <= value <= max for its class, min never rises and max never falls, and every observed class keeps an estimator |
| Observers.ProbabilityOfAttributeValueGivenClass | GHVFDT/Java/src/cs/man/ac/uk/observers/GHNumericAttributeClassObserver.java:145-157 | 0.0 for a class without estimator, else that estimator's density |
| Observers.TreeSetAddAbove | GHVFDT/Java/src/cs/man/ac/uk/observers/GHNumericAttributeClassObserver.java:283-284 | adding a value above every member of the sorted set appends it |
| Observers.BinValue | GHVFDT/Java/src/cs/man/ac/uk/observers/GHNumericAttributeClassObserver.java:277-284 | the i-th computed split value is strictly inside the range iff the range is a finite non-empty interval, and then it is the i-th candidate |
| Observers.BinOffsets | GHVFDT/Java/src/cs/man/ac/uk/observers/GHNumericAttributeClassObserver.java:281 | bin offsets lie strictly inside (0, range) and increase with the bin |
| Observers.CandidatesIncreasing | GHVFDT/Java/src/cs/man/ac/uk/observers/GHNumericAttributeClassObserver.java:274-290 | at most 10 candidates, strictly increasing, each strictly between min and max, and some exist iff min < max are both finite |
| Observers.RangeBounds | GHVFDT/Java/src/cs/man/ac/uk/observers/GHNumericAttributeClassObserver.java:253-272 | the scanned min and max bound every class with an estimator and are attained by one; with no estimator min stays +infinity |
| Observers.SplitPointSuggestions | GHVFDT/Java/src/cs/man/ac/uk/observers/GHNumericAttributeClassObserver.java:248-295 | the loops return exactly `SplitPoints` of the observer |
| Observers.SplitPointsShape | GHVFDT/Java/src/cs/man/ac/uk/observers/GHNumericAttributeClassObserver.java:248-295 | at most 10 values, strictly increasing, strictly between the least class min and greatest class max; none without estimators or when min = max |
| Observers.ClassShareConserves | GHVFDT/Java/src/cs/man/ac/uk/observers/GHNumericAttributeClassObserver.java:319-332 | the right share is non-negative, and left plus right is the class weight unless the clamp fired |
| Observers.RouteClass | GHVFDT/Java/src/cs/man/ac/uk/observers/GHNumericAttributeClassObserver.java:312-333 | routing one class keeps two branches and grows each at most to the class index + 1 |
| Observers.RouteClassEffect | GHVFDT/Java/src/cs/man/ac/uk/observers/GHNumericAttributeClassObserver.java:314-333 | the class's own entries gain its left and right shares (all right when min > split, all left when max <= split, less+equal vs greater otherwise); other entries are unchanged |
| Observers.SplitDists | GHVFDT/Java/src/cs/man/ac/uk/observers/GHNumericAttributeClassObserver.java:304-337 | two branch distributions no longer than the number of classes |
| Observers.SplitDistsPerClass | GHVFDT/Java/src/cs/man/ac/uk/observers/GHNumericAttributeClassObserver.java:304-337 | entry i of each branch is class i's share, 0 for classes without an estimator |
| Observers.RouteInto | GHVFDT/Java/src/cs/man/ac/uk/observers/GHNumericAttributeClassObserver.java:312-333 | the two vectors' contents become `RouteClass` of the old contents |
| Observers.ClassDistsResultingFromBinarySplit | GHVFDT/Java/src/cs/man/ac/uk/observers/GHNumericAttributeClassObserver.java:304-337 | the loop returns exactly `SplitDists` |
| Observers.CandidateMerit | GHVFDT/Java/src/cs/man/ac/uk/observers/GHNumericAttributeClassObserver.java:184-196 | minus infinity unless classes 0 and 1 both have estimators |
| Observers.BestSuggestionShape | GHVFDT/Java/src/cs/man/ac/uk/observers/GHNumericAttributeClassObserver.java:169-207 | null iff there are no candidates; otherwise two branches, a test on attIndex at the smallest candidate with equal values passing, and merit minus infinity unless classes 0 and 1 have estimators |
| Observers.BestEvaluatedSplitSuggestion | GHVFDT/Java/src/cs/man/ac/uk/observers/GHNumericAttributeClassObserver.java:169-207 | the loop with its best-so-far variable returns exactly `BestSuggestion` |
| Observers.FeatureHellingerDistance | GHVFDT/Java/src/cs/man/ac/uk/observers/GHNumericAttributeClassObserver.java:212-224 | the Gaussian Hellinger distance of classes 0 and 1, or 1 when either estimator is missing |
| Observers.NumericAttributeClassObserver.constructor | GHVFDT/Java/src/cs/man/ac/uk/observers/GHNumericAttributeClassObserver.java:68-88 | starts with empty min, max and estimator vectors |
| Observers.NumericAttributeClassObserver.ObserveAttributeClass | GHVFDT/Java/src/cs/man/ac/uk/observers/GHNumericAttributeClassObserver.java:105-139 | the state becomes `ObservedAttributeClass` of the old state |
| Nodes.NewActiveLearningNode | GHVFDT/Java/src/cs/man/ac/uk/tree/nodes/ActiveLearningNode.java:77-82 | seeded with the given distribution, uninitialised, no observers, and no new weight since the last split check |
| Nodes.NewSplitNode | GHVFDT/Java/src/cs/man/ac/uk/tree/nodes/SplitNode.java:69-74 | holds the test and distribution; the size reserves capacity only, so it has no children |
| Nodes.GetObservedClassDistribution | GHVFDT/Java/src/cs/man/ac/uk/tree/nodes/Node.java:77-80 | equal to the stored distribution |
| Nodes.GetClassVotes | GHVFDT/Java/src/cs/man/ac/uk/tree/nodes/Node.java:93-96 | the observed distribution, whatever the instance |
| Nodes.IsLeaf | GHVFDT/Java/src/cs/man/ac/uk/tree/nodes/Node.java:107 | true for every node but a decision node |
| Nodes.PureIffAtMostOneClass | GHVFDT/Java/src/cs/man/ac/uk/tree/nodes/Node.java:127-130 | pure iff no two distinct classes both have non-zero weight; an empty distribution is pure |
| Nodes.NumChildren | GHVFDT/Java/src/cs/man/ac/uk/tree/nodes/SplitNode.java:97 | the number of child slots |
| Nodes.GetChild | GHVFDT/Java/src/cs/man/ac/uk/tree/nodes/SplitNode.java:107 | null for an index outside [0, numChildren), else that slot |
| Nodes.SetChild | GHVFDT/Java/src/cs/man/ac/uk/tree/nodes/SplitNode.java:99-105 | fails exactly at or beyond maxBranches (and below 0); otherwise slot index holds the child, the other slots and the test are unchanged |
| Nodes.InstanceChildIndex | GHVFDT/Java/src/cs/man/ac/uk/tree/nodes/SplitNode.java:115 | the test's branch, between -1 and maxBranches - 1 |
| Nodes.FilterInstanceToLeaf | GHVFDT/Java/src/cs/man/ac/uk/tree/nodes/SplitNode.java:127-141 | a leaf answers itself with the given parent and branch; a missing value stops at the decision node; an empty slot answers null with its parent and branch |
| Nodes.ObservedAttributeCount | GHVFDT/Java/src/cs/man/ac/uk/tree/nodes/ActiveLearningNode.java:126 | the number of observed attributes is the feature count minus one: the last is never observed |
| Nodes.LearningAddsWeight | GHVFDT/Java/src/cs/man/ac/uk/tree/nodes/ActiveLearningNode.java:124 | learning adds the weight at the class entry only, so the weight seen grows by exactly the weight; the leaf kind is kept |
| Nodes.ObserveAttributesEffect | GHVFDT/Java/src/cs/man/ac/uk/tree/nodes/ActiveLearningNode.java:126-137 | attribute i < k gets an observer (a fresh one if none) that saw the instance's value i; other slots are unchanged |
| Nodes.ActiveLearningObserves | GHVFDT/Java/src/cs/man/ac/uk/tree/nodes/ActiveLearningNode.java:118-137 | observers are recreated on the first call only; every attribute but the last is observed with value(i), the last is untouched |
| Nodes.LearnFromInstance | GHVFDT/Java/src/cs/man/ac/uk/tree/nodes/ActiveLearningNode.java:116-138 | the loop yields `LearnedFromInstance`, for active and inactive leaves alike |
| Nodes.ObserveAttribute | GHVFDT/Java/src/cs/man/ac/uk/tree/nodes/ActiveLearningNode.java:127-136 | the observer of attribute `i`, created on first use, has seen the value; the vector only grows to reach slot `i` and no other slot changes (`Put`) |
| Nodes.BestSplitSuggestions | GHVFDT/Java/src/cs/man/ac/uk/tree/nodes/ActiveLearningNode.java:146-165 | the non-null entries of the observers' best suggestions (`ObserverBests`), at most one per attribute |
| Nodes.PresentInOrder | GHVFDT/Java/src/cs/man/ac/uk/tree/nodes/ActiveLearningNode.java:151-162 | when every non-null entry tests the attribute of its own position, each kept entry is the entry at the position it tests, and the kept entries are in strictly increasing attribute order |
| Nodes.PresentComplete | GHVFDT/Java/src/cs/man/ac/uk/tree/nodes/ActiveLearningNode.java:151-162 | every non-null entry below `k` is kept |
| Nodes.BestSplitSuggestionsShape | GHVFDT/Java/src/cs/man/ac/uk/tree/nodes/ActiveLearningNode.java:151-162 | the suggestions are two-way tests, one per attribute at most, on attributes whose observer exists, in strictly increasing attribute order |
| Nodes.BestSplitSuggestionsExact | GHVFDT/Java/src/cs/man/ac/uk/tree/nodes/ActiveLearningNode.java:151-162 | every entry is the best suggestion of the observer of the attribute it tests, and every non-null observer with a non-null best suggestion contributes it |
| Nodes.SplitReadsNextFeature | GHVFDT/Java/src/cs/man/ac/uk/split/NumericAttributeBinaryTest.java:81 | a collected suggestion tests the attribute `a` of the observer it came from, and that test reads feature `a + 1`, while observer `a` was fed feature `a` |
| Nodes.GetBestSplitSuggestions | GHVFDT/Java/src/cs/man/ac/uk/tree/nodes/ActiveLearningNode.java:146-165 | the loop returns exactly `BestSplitSuggestions` and changes nothing |
| Trees.ReplaceAt | GHVFDT/Java/src/cs/man/ac/uk/classifier/GHVFDT.java:389-392 | after writing, the slot holds the new node; a write below the root keeps the root a decision node with its distribution |
| Trees.ReplaceElsewhere | GHVFDT/Java/src/cs/man/ac/uk/tree/nodes/SplitNode.java:99-105 | writing a slot leaves every slot neither above nor below it unchanged |
| Trees.ReplaceTally | GHVFDT/Java/src/cs/man/ac/uk/classifier/GHVFDT.java:383-392 | writing a slot removes the counts of what it held and adds those of the new node |
| Trees.ReachableActiveCounted | GHVFDT/Java/src/cs/man/ac/uk/classifier/GHVFDT.java:508 | a reachable active leaf makes the active tally at least 1 |
| Trees.OccupiedWritable | GHVFDT/Java/src/cs/man/ac/uk/tree/nodes/SplitNode.java:99-105 | in a tree whose nodes have at most maxBranches slots, every occupied slot can be written without `setChild` failing |
| Trees.ReplaceShaped | GHVFDT/Java/src/cs/man/ac/uk/tree/nodes/SplitNode.java:99-105 | writing keeps every decision node within maxBranches slots |
| Trees.FilterLocates | GHVFDT/Java/src/cs/man/ac/uk/tree/nodes/SplitNode.java:127-141 | routing answers a slot of the tree: the node found sits there, or the slot is empty below its parent |
| Trees.FindSound | GHVFDT/Java/src/cs/man/ac/uk/classifier/GHVFDT.java:472-486 | every entry found is a learning node at its slot, no entry lies above another, and the active entries number the active tally |
| Trees.FindFromRoot | GHVFDT/Java/src/cs/man/ac/uk/classifier/GHVFDT.java:462-467 | from the root: learning entries at distinct slots, as many active ones as the active tally |
| Ghvfdt.Placed | GHVFDT/Java/src/cs/man/ac/uk/classifier/GHVFDT.java:389-392 | the new node sits at the slot afterwards, at the root when there is no parent |
| Ghvfdt.PlacedTally | GHVFDT/Java/src/cs/man/ac/uk/classifier/GHVFDT.java:389-392 | placing trades the slot's old counts for the new node's |
| Ghvfdt.PlacedElsewhere | GHVFDT/Java/src/cs/man/ac/uk/classifier/GHVFDT.java:389-392 | placing leaves unrelated slots unchanged |
| Ghvfdt.PlacedShaped | GHVFDT/Java/src/cs/man/ac/uk/classifier/GHVFDT.java:389-392 | placing a node of at most maxBranches slots keeps the tree so shaped and the slot writable again |
| Ghvfdt.DeactivatedKeepsValid | GHVFDT/Java/src/cs/man/ac/uk/classifier/GHVFDT.java:430-441 | replacing an active leaf by an inactive one with the same distribution, active - 1 and inactive + 1, keeps the counters exact |
| Ghvfdt.ActivatedKeepsValid | GHVFDT/Java/src/cs/man/ac/uk/classifier/GHVFDT.java:446-457 | replacing an inactive leaf by a fresh active one with the same distribution, active + 1 and inactive - 1, keeps the counters exact |
| Ghvfdt.RawSuggestions | GHVFDT/Java/src/cs/man/ac/uk/classifier/GHVFDT.java:335 | every suggestion has a test and two branches |
| Ghvfdt.SortedSuggestions | GHVFDT/Java/src/cs/man/ac/uk/classifier/GHVFDT.java:335-336 | sorted ascending by merit and a permutation of the raw suggestions |
| Ghvfdt.SortKeepsTwoWay | GHVFDT/Java/src/cs/man/ac/uk/classifier/GHVFDT.java:336 | sorting keeps every suggestion two-way with a test |
| Ghvfdt.ShouldSplit | GHVFDT/Java/src/cs/man/ac/uk/classifier/GHVFDT.java:338-357 | no suggestion means no split and a single suggestion always splits; with two or more, the Hoeffding comparison of the two best merits decides |
| Ghvfdt.NewSplitShape | GHVFDT/Java/src/cs/man/ac/uk/classifier/GHVFDT.java:370-378 | the new decision node holds the test and the leaf's distribution, with one fresh active child per branch seeded with that branch's distribution: one decision node and numSplits active leaves |
| Ghvfdt.TallyActiveLeaves | GHVFDT/Java/src/cs/man/ac/uk/classifier/GHVFDT.java:383-385 | k active children count k active leaves |
| Ghvfdt.SeededSplitNode | GHVFDT/Java/src/cs/man/ac/uk/classifier/GHVFDT.java:370-378 | the loop calling `setChild` builds exactly `NewSplitFrom` |
| Ghvfdt.InstalledSuggestion | GHVFDT/Java/src/cs/man/ac/uk/classifier/GHVFDT.java:360-370 | an installed split comes from a suggestion with a test and two branches |
| Ghvfdt.PureLeafKept | GHVFDT/Java/src/cs/man/ac/uk/classifier/GHVFDT.java:330 | a pure leaf is never split |
| Ghvfdt.SplitNeverDeactivates | GHVFDT/Java/src/cs/man/ac/uk/classifier/GHVFDT.java:360-366 | every suggestion has a test, so the null-test deactivation never happens; a mixed leaf is replaced exactly when `ShouldSplit` holds |
| Ghvfdt.DecisionFromSorted | GHVFDT/Java/src/cs/man/ac/uk/classifier/GHVFDT.java:337-366 | for a mixed leaf, a failed Hoeffding test keeps the leaf, and a passed one installs the two-way split of the last sorted suggestion |
| Ghvfdt.FewSuggestions | GHVFDT/Java/src/cs/man/ac/uk/classifier/GHVFDT.java:341 | no suggestion: the leaf stays; one suggestion: it always splits on it |
| Ghvfdt.SplitOnLastBest | GHVFDT/Java/src/cs/man/ac/uk/classifier/GHVFDT.java:349-370 | a split uses the last suggestion of maximal merit in attribute order |
| Ghvfdt.InstallKeepsValid | GHVFDT/Java/src/cs/man/ac/uk/classifier/GHVFDT.java:370-392 | installing the decision node with decision + 1 and active - 1 + numSplits keeps the counters exact |
| Ghvfdt.SplitAttemptKeepsValid | GHVFDT/Java/src/cs/man/ac/uk/classifier/GHVFDT.java:327-396 | every outcome of `split` keeps the counters exact |
| Ghvfdt.LearnedKeepsValid | GHVFDT/Java/src/cs/man/ac/uk/classifier/GHVFDT.java:222-257 | learning at a reachable leaf, and the split attempt after the grace period, keep the counters exact |
| Ghvfdt.SameKindKeepsValid | GHVFDT/Java/src/cs/man/ac/uk/classifier/GHVFDT.java:228 | a leaf that keeps its kind when it learns, written back into its slot, keeps the counters equal to the reachable node kinds and sits in that slot |
| Ghvfdt.GraceCheckedKeepsValid | GHVFDT/Java/src/cs/man/ac/uk/classifier/GHVFDT.java:232-256 | the grace-period check, with or without a split attempt, keeps the counters equal to the reachable node kinds |
| Ghvfdt.RoutedToLeaf | GHVFDT/Java/src/cs/man/ac/uk/classifier/GHVFDT.java:206-219 | the instance is delivered to a writable slot of the tree, and the node returned is the node in that slot |
| Ghvfdt.GHVFDT.RouteToLeaf | GHVFDT/Java/src/cs/man/ac/uk/classifier/GHVFDT.java:206-219 | the fields become the routed state, and the slot and node returned are the ones `RoutedToLeaf` delivers |
| Ghvfdt.FillSlotKeepsValid | GHVFDT/Java/src/cs/man/ac/uk/classifier/GHVFDT.java:211-219 | putting a fresh active leaf into an empty slot and counting it keeps the node counters exact and the tree binary |
| Ghvfdt.RoutingKeepsValid | GHVFDT/Java/src/cs/man/ac/uk/classifier/GHVFDT.java:211-219 | filling an empty slot with a fresh active leaf and counting it keeps the counters equal to the reachable node kinds |
| Ghvfdt.EmptySlotFilled | GHVFDT/Java/src/cs/man/ac/uk/classifier/GHVFDT.java:211-219 | an empty slot on the route receives a fresh active leaf at the routed slot; only the root and the active count (+1) change |
| Ghvfdt.TrainKeepsValid | GHVFDT/Java/src/cs/man/ac/uk/classifier/GHVFDT.java:190-260 | `trainOnInstance` keeps the counters equal to the reachable node kinds |
| Ghvfdt.NoGrowthNoSplit | GHVFDT/Java/src/cs/man/ac/uk/classifier/GHVFDT.java:232 | without `growthAllowed` training adds no decision node and no inactive leaf |
| Ghvfdt.UntrainableIgnored | GHVFDT/Java/src/cs/man/ac/uk/classifier/GHVFDT.java:192-197 | weight <= 0 or a missing class leaves the state unchanged |
| Ghvfdt.StopsAtDecisionNode | GHVFDT/Java/src/cs/man/ac/uk/classifier/GHVFDT.java:207-222 | an instance whose route stops at a decision node is not learned from: the state is unchanged |
| Ghvfdt.FreshLeafPure | GHVFDT/Java/src/cs/man/ac/uk/classifier/GHVFDT.java:214-228 | a fresh leaf that learned one instance is pure and has seen exactly its weight |
| Ghvfdt.FreshLeafLearns | GHVFDT/Java/src/cs/man/ac/uk/classifier/GHVFDT.java:222-256 | a fresh leaf learning its first instance is never split, even past the grace period: counters unchanged, an active leaf with that weight in the slot |
| Ghvfdt.FirstInstance | GHVFDT/Java/src/cs/man/ac/uk/classifier/GHVFDT.java:200-204 | the first trainable instance makes the root an active leaf that has seen it, with active count 1 |
| Ghvfdt.EmptySlotGetsLeaf | GHVFDT/Java/src/cs/man/ac/uk/classifier/GHVFDT.java:211-219 | an empty slot on the route gets a fresh active leaf that learns the instance; active + 1, the other counters unchanged |
| Ghvfdt.TrainedOnStream | GHVFDT/Java/src/cs/man/ac/uk/classifier/GHVFDT.java:190-260 | without growth the tree stays at most one leaf over a whole stream |
| Ghvfdt.StaysLeaf | GHVFDT/Java/src/cs/man/ac/uk/classifier/GHVFDT.java:200-232 | without growth a tree of at most one leaf stays so after training |
| Ghvfdt.FreshTreeNeverSplits | GHVFDT/Java/src/cs/man/ac/uk/classifier/GHVFDT.java:152 | a freshly constructed tree (growth not allowed) never gets a decision node, whatever the stream, and keeps its counters exact |
| Ghvfdt.StreamKeepsCounts | GHVFDT/Java/src/cs/man/ac/uk/classifier/GHVFDT.java:190-260 | training without growth on a stream keeps the counters exact and the decision count fixed |
| Ghvfdt.DeactivationStep | GHVFDT/Java/src/cs/man/ac/uk/classifier/GHVFDT.java:506-514 | one iteration of `deactivateAllLeaves` keeps the loop's progress invariant |
| Ghvfdt.DeactivationDone | GHVFDT/Java/src/cs/man/ac/uk/classifier/GHVFDT.java:502-515 | after the loop the active count is 0, the inactive count absorbed it, and no active leaf is reachable |
| Ghvfdt.NoActiveLeft | GHVFDT/Java/src/cs/man/ac/uk/classifier/GHVFDT.java:502-515 | exact counters with active count 0 mean no reachable active leaf |
| Ghvfdt.PredictionFromRoute | GHVFDT/Java/src/cs/man/ac/uk/classifier/GHVFDT.java:270-281 | the prediction is the distribution of the node routed to, or of its parent for an empty slot |
| Ghvfdt.FirstLargestUnique | GHVFDT/Java/src/cs/man/ac/uk/classifier/GHVFDT.java:291-294 | the first largest class is unique, so `classify` is determined by the votes |
| Ghvfdt.GHVFDT.constructor | GHVFDT/Java/src/cs/man/ac/uk/classifier/GHVFDT.java:112-152 | no root, zero counters, growth not allowed, grace period 200, confidence 1e-7, tie threshold 0.05, binary splits on |
| Ghvfdt.GHVFDT.SetGracePeriod | GHVFDT/Java/src/cs/man/ac/uk/classifier/GHVFDT.java:164 | sets only the grace period |
| Ghvfdt.GHVFDT.SetSplitConfidence | GHVFDT/Java/src/cs/man/ac/uk/classifier/GHVFDT.java:169 | sets only the split confidence |
| Ghvfdt.GHVFDT.SetTieThreshold | GHVFDT/Java/src/cs/man/ac/uk/classifier/GHVFDT.java:174 | sets only the tie threshold |
| Ghvfdt.GHVFDT.SetBinarySplits | GHVFDT/Java/src/cs/man/ac/uk/classifier/GHVFDT.java:179 | sets only the binary-splits flag |
| Ghvfdt.GHVFDT.ResetLearning | GHVFDT/Java/src/cs/man/ac/uk/classifier/GHVFDT.java:521-528 | empties the root, zeroes the three counters and allows growth; the counters are then exact |
| Ghvfdt.GHVFDT.DeactivateLearningNode | GHVFDT/Java/src/cs/man/ac/uk/classifier/GHVFDT.java:430-441 | the state becomes `Deactivated` of the old state |
| Ghvfdt.GHVFDT.ActivateLearningNode | GHVFDT/Java/src/cs/man/ac/uk/classifier/GHVFDT.java:446-457 | the state becomes `Activated` of the old state |
| Ghvfdt.GHVFDT.Split | GHVFDT/Java/src/cs/man/ac/uk/classifier/GHVFDT.java:327-396 | the state becomes `SplitAttempted` of the old state |
| Ghvfdt.GHVFDT.ChooseSplit | GHVFDT/Java/src/cs/man/ac/uk/classifier/GHVFDT.java:329-366 | nothing is chosen exactly when `SplitDecision` keeps the leaf; a chosen suggestion is two-way, carries a test, and its split node is the one `SplitDecision` installs |
| Ghvfdt.OutcomeKeepsValid | GHVFDT/Java/src/cs/man/ac/uk/classifier/GHVFDT.java:368-396 | keeping a reachable active leaf, or replacing it by a two-way split, keeps the leaf and decision-node counters equal to the tree's own tallies |
| Ghvfdt.GHVFDT.InstallSplitNode | GHVFDT/Java/src/cs/man/ac/uk/classifier/GHVFDT.java:370-392 | the new decision node is placed in the leaf's slot, with decision + 1 and active - 1 + numSplits |
| Ghvfdt.GHVFDT.TrainOnInstance | GHVFDT/Java/src/cs/man/ac/uk/classifier/GHVFDT.java:190-260 | the state becomes `TrainedOn` of the old state; an untrainable instance changes nothing |
| Ghvfdt.GHVFDT.LearnAt | GHVFDT/Java/src/cs/man/ac/uk/classifier/GHVFDT.java:222-256 | the state becomes `Learned` of the old state: the leaf in the slot learns, then the grace-period check runs |
| Ghvfdt.GHVFDT.CheckGracePeriod | GHVFDT/Java/src/cs/man/ac/uk/classifier/GHVFDT.java:232-256 | the state becomes `GraceChecked` of the old state: only an active leaf past its grace period, with growth allowed, gets a split attempt |
| Ghvfdt.GHVFDT.Predict | GHVFDT/Java/src/cs/man/ac/uk/classifier/GHVFDT.java:267-286 | returns `Prediction`: empty without a root |
| Ghvfdt.GHVFDT.Classify | GHVFDT/Java/src/cs/man/ac/uk/classifier/GHVFDT.java:291-294 | the first class with the most votes, leaving the tree unchanged |
| Ghvfdt.GHVFDT.CorrectlyClassifies | GHVFDT/Java/src/cs/man/ac/uk/classifier/GHVFDT.java:299-302 | true iff the instance's label is the first class with the most votes |
| Ghvfdt.GHVFDT.CollectLearningNodes | GHVFDT/Java/src/cs/man/ac/uk/classifier/GHVFDT.java:472-486 | the recursion appends exactly `FindLearningNodes` to the list |
| Ghvfdt.GHVFDT.CollectFromChildren | GHVFDT/Java/src/cs/man/ac/uk/classifier/GHVFDT.java:479-484 | the loop over a decision node's children appends, child by child in branch order, the learning nodes below each |
| Ghvfdt.GHVFDT.FindAllLearningNodes | GHVFDT/Java/src/cs/man/ac/uk/classifier/GHVFDT.java:462-467 | every learning node of the tree at its slot, as many active ones as counted |
| Ghvfdt.GHVFDT.DeactivateAllLeaves | GHVFDT/Java/src/cs/man/ac/uk/classifier/GHVFDT.java:502-515 | the new tree is `AllDeactivated` of the old one: each active leaf's slot holds an inactive leaf with its distribution, every other node is unchanged; the active count is 0, the inactive count grew by the old active count, and the counters stay exact |
| Trees.DeactivateOneLeaf | GHVFDT/Java/src/cs/man/ac/uk/classifier/GHVFDT.java:430-441 | replacing one reachable active leaf by an inactive leaf with its distribution leaves the `AllDeactivated` image of the tree unchanged |
| Trees.NoActiveUnchanged | GHVFDT/Java/src/cs/man/ac/uk/classifier/GHVFDT.java:502-515 | a tree with no reachable active leaf is its own `AllDeactivated` image |
| Ghvfdt.StepKeepsImage | GHVFDT/Java/src/cs/man/ac/uk/classifier/GHVFDT.java:508-513 | one pass of the loop of `deactivateAllLeaves` keeps the root and its `AllDeactivated` image |
| Ghvfdt.GHVFDT.DeactivateEntry | GHVFDT/Java/src/cs/man/ac/uk/classifier/GHVFDT.java:508-513 | the state becomes `AfterStep` of the old state: the `i`th entry is deactivated in its slot if it is an active leaf, and nothing changes otherwise |
| BaseObjects.ToPrimitiveDouble | GHVFDT/Java/src/cs/man/ac/uk/obj/BaseObject.java:99-112 | a fresh array, empty for a null or empty list, else of the list's length with result[i] = list[i] |
| BaseObjects.ToPrimitiveIntList | GHVFDT/Java/src/cs/man/ac/uk/obj/BaseObject.java:119-132 | the same for an integer list |
| BaseObjects.Ascending | GHVFDT/Java/src/cs/man/ac/uk/obj/BaseObject.java:149 | the keys in the order a `TreeMap` hands them out: strictly increasing, each key exactly once |
| BaseObjects.ValueRank | GHVFDT/Java/src/cs/man/ac/uk/obj/BaseObject.java:146-154 | the value of key k sits at the index equal to the number of smaller keys: index i is the i-th smallest label, not label i |
| BaseObjects.ToPrimitiveIntMap | GHVFDT/Java/src/cs/man/ac/uk/obj/BaseObject.java:139-157 | a fresh array of the map's values in ascending key order, of the map's size; empty for a null map |
| Arff.IndexOf | GHVFDT/Java/src/cs/man/ac/uk/data/ARFFFile.java:304 | -1 iff the character is absent, otherwise its first position |
| Arff.RemoveComment | GHVFDT/Java/src/cs/man/ac/uk/data/ARFFFile.java:299-311 | null stays null; a line without `%` is unchanged; otherwise the prefix before the first `%` |
| Arff.PiecesJoin | GHVFDT/Java/src/cs/man/ac/uk/data/ARFFFile.java:268 | joining the pieces with the separator gives the line back, and no piece holds the separator |
| Arff.Split | GHVFDT/Java/src/cs/man/ac/uk/data/ARFFFile.java:268 | `String.split`: the whole line without a separator, else the pieces with trailing empty ones dropped |
| Arff.SplitRoundTrip | GHVFDT/Java/src/cs/man/ac/uk/data/ARFFFile.java:268 | the split pieces plus the dropped empty ones are all the pieces, and they join back to the line |
| Arff.ParseAll | GHVFDT/Java/src/cs/man/ac/uk/data/ARFFFile.java:277-284 | a value iff every component parses, then one double per component in order |
| Arff.LineData | GHVFDT/Java/src/cs/man/ac/uk/data/ARFFFile.java:262-293 | a result only for a non-null line with components, one double per component |
| Arff.DoesLineContainValidData | GHVFDT/Java/src/cs/man/ac/uk/data/ARFFFile.java:262-293 | the loop over the array returns exactly `LineData` |
| Arff.ScanCountsExamples | GHVFDT/Java/src/cs/man/ac/uk/data/ARFFFile.java:209-213 | on success `examples` is the number of data lines, and every data line parsed |
| Arff.BadLineFails | GHVFDT/Java/src/cs/man/ac/uk/data/ARFFFile.java:237-243 | a data line that does not parse makes the scan fail |
| Arff.ScanFeatureCounts | GHVFDT/Java/src/cs/man/ac/uk/data/ARFFFile.java:214-234 | on success every data line has the recorded feature count or none at all |
| Arff.MismatchFails | GHVFDT/Java/src/cs/man/ac/uk/data/ARFFFile.java:226-234 | two data lines with different non-zero feature counts make the scan fail |
| Arff.ScanCountsLabels | GHVFDT/Java/src/cs/man/ac/uk/data/ARFFFile.java:215-224 | on success each label's count is the number of data lines with that label |
| Arff.NoRecovery | GHVFDT/Java/src/cs/man/ac/uk/data/ARFFFile.java:233-242 | once a line fails the whole scan fails |
| Arff.ArffFile.constructor | GHVFDT/Java/src/cs/man/ac/uk/data/ARFFFile.java:53-57 | default fields, then the scan: valid iff the scan succeeds, with its counts |
| Arff.ArffFile.CheckValidity | GHVFDT/Java/src/cs/man/ac/uk/data/ARFFFile.java:178-256 | true iff `ScanLines` succeeds; then examples, features, per-label counts in ascending label order and isValid are set; on failure nothing changes |
| Arff.ArffFile.ScanLine | GHVFDT/Java/src/cs/man/ac/uk/data/ARFFFile.java:195-236 | one pass of the loop body is `ScanStep` |
| Arff.ArffFile.CreateInstanceFromData | GHVFDT/Java/src/cs/man/ac/uk/data/ARFFFile.java:146-172 | null for an invalid file or null data; otherwise features all entries but the last and label the last cast to int; an empty array throws |
| Arff.ArffFile.CreateInstanceFromLine | GHVFDT/Java/src/cs/man/ac/uk/data/ARFFFile.java:103-143 | null for an invalid file, a null line or a feature that does not parse; otherwise the parsed features and the parsed label, -2 when the label does not parse; no components throws |

## Left out

- `computeHoeffdingBound`, the Gaussian and count-based Hellinger formulas, `log2`, `Math.sqrt`, the exponential branch of `probabilityDensity` and `StatsUtils.normalProbability` are oracle fields of `MathLib`. No numeric fact is proved about them, monotonicity of the bound included. `StatsUtils.java` is not part of this model.
- File reading is not modelled: a file is the sequence of its lines. This covers the `BufferedReader`, `IOException`, the `finally` block, `prepareFile`, `DataFile`'s reading methods and `toString`.
- `Double.parseDouble` and `Integer.parseInt` are oracles.
- `String.split` is defined for the one-character separator `,` only.
- `processError` only prints and is not modelled.
- `setCommentSymbol` is not modelled: `removeComment` always cuts at `%`, which is what the source does whatever the symbol.
- Object identity and aliasing are not modelled.
  - Nodes are values, and a slot is addressed by its path from the root.
  - In the source, `trainOnInstance` records `weightSeenAtLastSplitEvaluation` on the leaf object even after `split` has replaced it. That write cannot be observed, so the model records it only when the leaf stays in the tree.
  - Copies returned by the getters are equal values. That they are independent arrays is shown only where arrays are modelled (`DoubleVector`, `BaseObject`).
- Ghvfdt.GHVFDT.Split: the null-test branch (deactivation) is modelled as unreachable, because every suggestion the observer produces carries a test.
- Ghvfdt.GHVFDT.TrainOnInstance requires every test on the route to read an attribute inside the feature vector, and trainable labels to be at least 0.
  - Where Java would throw instead (an out-of-range attribute, or `addToValue` at label -2), the model has no result.
  - `Predict`, `Classify` and `CorrectlyClassifies` carry the same routing precondition.
- Nodes.LearnedFromInstance requires a positive weight, the only weight the engine passes.
- Observers.ClassDistsResultingFromBinarySplit requires a finite split value, the only kind the candidate generator produces.
- The `binarySplits` flag is stored and set but never consulted, as in the source.
- `newNumericClassObserver` always yields the Gaussian observer. `NullAttributeClassObserver` and the interface files are not part of this model.
- The test drivers (`DataFileTests`, `ClassifierTest`, `GHVFDTTester`) are not part of this model.
- `maxBranches` is 2, the value for a binary numeric test. `InstanceConditionalBinaryTest` is not part of this model.
- Arff.ArffFile.CreateInstanceFromLine and CreateInstanceFromData report the `ArrayIndexOutOfBoundsException` Java throws for an empty component list or array as a `thrown` flag.
- Integer counters (`examples`, the node counts) are unbounded: 32-bit overflow is not modelled.
- Finite double arithmetic is exact real arithmetic: no rounding, no overflow to an infinity, and no -0.0. The candidate count and "candidates exist iff min < max" therefore hold over reals only. In Java a range too narrow to divide makes every split value round to min or max, for example max the next double after min. A range that overflows, for example min -1e308 and max 1e308, makes every split value infinite. Either way Java produces no candidates. The members below inherit this.
- Observers.BinValue: the i-th computed value is the i-th candidate over reals; with rounding it can fall on min or max and be dropped.
- Observers.CandidatesIncreasing: "at most 10, strictly increasing, strictly inside, non-empty iff min < max are finite" holds over reals, not for narrow or overflowing Java ranges.
- Observers.SplitPointsShape: the bound, order and interior property hold over reals; Java can return no candidates where the model returns some.
- Doubles.Compare: 0.0 and -0.0 are the same value, whereas `Double.compare` orders -0.0 below 0.0.

# Top-K selection and record handling of the in-browser ML demos

The repository is a set of browser demos around a tensor library. Two parts
of it are the repository's own sequential logic, and this project models and
proves both:

- **Top-K class selection** in the image-classification demo
  (`getTopKClasses`). Every logit is paired with its position. The pairs are
  sorted in place by value, largest first. The first K pairs are copied into
  two preallocated buffers, one for values and one for indices. Each index is
  then turned into a class name. Module `ImageClassifierTask` (`top_k.dfy`)
  follows this step by step. It has a loop that pushes the pairs, an in-place
  sort on an `array`, a loop that fills the two typed buffers (`array<real>`
  and `array<int>`), and a loop that pushes the labelled results. The
  contract says what a correct top-K answer is (`IsTopK`):
  - K entries;
  - each value is read at its own in-range index;
  - the indices are pairwise distinct;
  - the values never increase from front to back;
  - no logit that was left out is larger than any selected one.

  The two ways the source throws are modelled as errors:
  - a K that is not a valid typed-array length (negative, or above
    2^53 − 1) makes allocating the typed buffer fail;
  - a K larger than the number of logits, but small enough to allocate,
    reads a missing pair.

  A lemma shows that any two correct answers report the same values. So the
  probabilities shown never depend on how the host sort orders equal logits.
- **Record handling in the linear-regression demo** (module `Linear2d`,
  `linear2d.dfy`). This part is pure sequence transformation:
  - the projection of each car to `{mpg, horsepower}` and the filter that drops
    incomplete records;
  - the records turned into scatter-plot points;
  - the `inputs`/`labels` columns;
  - the zip of the prediction grid into points.

  The filter is characterised against an independent definition: the
  increasing list of positions of the complete cars. The scatter-plot `values`
  are computed from the dataset before `convertToTensor` shuffles it in place;
  the `originalPoints` of the second plot are computed from it after the
  shuffle. A lemma shows that the second plot's points are therefore a
  rearrangement of the first plot's.

Module `Wrappers` (`wrappers.dfy`) holds the `Option` and `Result` types.
`Option` stands for JavaScript's `null`/`undefined`. `Result` stands for an
operation that throws.

## Model

| member | source | states |
|---|---|---|
| `ImageClassifierTask.PairWithIndices` | src/Module/ImageClassifier/Task/index.ts:75-78 | the pushed list has one entry per logit, and entry i is (values[i], i) |
| `ImageClassifierTask.SortByValueDescending` | src/Module/ImageClassifier/Task/index.ts:80-82 | after the in-place sort the pairs are in non-increasing order of value and are a permutation (same multiset) of the pairs before |
| `ImageClassifierTask.SelectTopK` | src/Module/ImageClassifier/Task/index.ts:73-89 | a topK that is negative or above 2^53 − 1, the largest typed-array length, fails with InvalidLength; a valid topK above the number of logits fails with MissingEntry; otherwise the two buffers hold a correct top-K answer: topK entries, each value equal to the logit at its own in-range index, pairwise distinct indices, non-increasing values, and every unselected logit no larger than every selected value |
| `ImageClassifierTask.GetTopKClasses` | src/Module/ImageClassifier/Task/index.ts:69-101 | the same two error cases; otherwise the result is, entry by entry, the class name of a correct top-K answer's index paired with that index's logit, so it has exactly topK entries in non-increasing order of probability |
| `ImageClassifierTask.SortedPairsGiveTopK` | src/Module/ImageClassifier/Task/index.ts:80-89 | the first k entries of any descending permutation of the (value, index) pairs form a correct top-K answer |
| `ImageClassifierTask.TopKValuesBounded` | src/Module/ImageClassifier/Task/index.ts:80-89 | position by position, one correct top-K answer's values are no larger than another's |
| `ImageClassifierTask.TopKValuesUnique` | src/Module/ImageClassifier/Task/index.ts:80-89 | any two correct top-K answers list the same values, so the probabilities do not depend on how the sort orders ties |
| `ImageClassifierTask.TopOneIsMaximum` | src/Module/ImageClassifier/Task/index.ts:80-89 | the first selected value is at least every logit |
| `Linear2d.ProjectAll` | src/Module/Linear2d/index.tsx:30-33 | one record per car, in order, with mpg = Miles_per_Gallon and horsepower = Horsepower of the car at the same position |
| `Linear2d.KeepComplete` | src/Module/Linear2d/index.tsx:34 | the filter never lengthens the list, and every record it returns was in its input and has both mpg and horsepower present |
| `Linear2d.KeptPositions` | src/Module/Linear2d/index.tsx:34 | reference list of the positions the filter keeps: strictly increasing, in range, and a position is listed exactly when its record is complete |
| `Linear2d.KeepCompleteAtKeptPositions` | src/Module/Linear2d/index.tsx:34 | the filter's output is the input read at the kept positions, in order |
| `Linear2d.GetDataSelectsCompleteCars` | src/Module/Linear2d/index.tsx:30-34 | getData returns exactly the cars whose two fields are both non-null, in their original order, each as its own (mpg, horsepower) |
| `Linear2d.KeepCompleteOfComplete` | src/Module/Linear2d/index.tsx:34 | filtering a list of complete records returns it unchanged |
| `Linear2d.KeepCompleteIdempotent` | src/Module/Linear2d/index.tsx:34 | filtering twice is the same as filtering once |
| `Linear2d.ToPoints` | src/Module/Linear2d/index.tsx:40-43 | `values` has one point per record, and point i is (horsepower of record i, mpg of record i) |
| `Linear2d.PlottedPointsAreDefined` | src/Module/Linear2d/index.tsx:30-43 | every point plotted from getData's records has both coordinates present |
| `Linear2d.ShuffledPointsArePermutation` | src/Module/Linear2d/index.tsx:154-157 | for any in-place shuffle of the records (line 83), `originalPoints` holds the same points the same number of times as `values` |
| `Linear2d.Inputs` | src/Module/Linear2d/index.tsx:85 | `inputs` has one entry per record, and entry i is record i's horsepower |
| `Linear2d.LabelsAsWritten` | src/Module/Linear2d/index.tsx:86 | as written, `labels` equals `inputs`: both are the horsepower column |
| `Linear2d.Labels` | src/Module/Linear2d/index.tsx:86 | corrected `labels`: one entry per record, entry i is record i's mpg |
| `Linear2d.TrainingPairsArePlottedPoints` | src/Module/Linear2d/index.tsx:85-86 | with the corrected labels, the training pairs (inputs[i], labels[i]) are exactly the points of the horsepower-against-mpg plot |
| `Linear2d.LabelsAsWrittenMissMpg` | src/Module/Linear2d/index.tsx:86 | for one car with horsepower 130 and mpg 18, the labels as written differ from its mpg |
| `Linear2d.PredictedPoints` | src/Module/Linear2d/index.tsx:150-152 | `predictedPoints` has one point per grid value; point i has x = xs[i], and y = preds[i], or undefined when preds is shorter |
| `Linear2d.PredictedPointsDefined` | src/Module/Linear2d/index.tsx:140-152 | corollary of `PredictedPoints`: when there is one prediction per grid value, as with the 100-point grid, both coordinates of every point are defined and are xs[i] and preds[i] |

## Findings

| source | as written | input that shows it | evidently intended | confidence | as-written member | corrected member |
|---|---|---|---|---|---|---|
| src/Module/Linear2d/index.tsx:86 | `labels` is built from `d.horsepower`, the same column as `inputs` | one record with horsepower 130 and mpg 18: labels are [130] but the plotted y is 18 | `labels` from `d.mpg`, the quantity plotted on the y axis ("MPG") and un-normalised with the label range at line 145 | high; not executed | `Linear2d.LabelsAsWritten` (with `Linear2d.LabelsAsWrittenMissMpg`) | `Linear2d.Labels` (with `Linear2d.TrainingPairsArePlottedPoints`) |

## Left out

- The network download, warm-up and prediction (`mobilenetDemo`, `predict`), the pixel normalisation by 127.5, the timing with `performance.now()` and the status text. These are calls into the tensor library, a clock and the DOM.
- `showResults`: DOM construction and `toFixed` formatting only.
- `logits.data()`: the logits are given as a sequence of reals.
- Float32 rounding of `topkValues`, NaN logits and the `b.value - a.value` comparator's behaviour on them. Values are exact reals, so the comparator's sign is plain comparison.
- ImageClassifierTask.SortByValueDescending: the host's `Array.prototype.sort` is not modelled. It is stood in for by a selection sort with the same contract: a descending permutation. Since ES2019 the sort must be stable, so the source lists tied logits in index order on every conforming host. The model leaves the order of ties open as a modelling choice. `TopKValuesUnique` shows the reported values do not depend on that order, but the class names of tied logits can.
- ImageClassifierTask.SelectTopK: only integer `topK` is modelled; a fractional `topK` is not. The typed-array constructor truncates it (2.5 gives buffers of length 2) while the copy loop still runs up to the fraction, so one write is silently dropped, or the read of a missing pair throws when there are too few logits. Only the language's length limit (2^53 − 1) is modelled. Real hosts refuse much smaller buffers (around 2^32 elements) with a RangeError; for a K between that limit and 2^53 − 1 that also exceeds the number of logits, the model reports MissingEntry where the host fails allocation. `topkIndices` is an Int32Array. An index of 2^31 or more is stored wrapped (2^31 becomes −2^31), so with more than 2^31 logits the stored index, and the class name read with it (`undefined`), differ from the model, which keeps indices as unbounded integers.
- ImageClassifierTask.GetTopKClasses: requires the class-name table to have an entry for every logit position. The contents of `IMAGENET_CLASSES` (src/Module/ImageClassifier/file/imagenet_classes) are not part of this model. An index past the table's end would yield `undefined` in the source. `topkIndices` is an Int32Array. An index of 2^31 or more is stored wrapped (2^31 becomes −2^31), so with more than 2^31 logits the stored index, and the class name read with it (`undefined`), differ from the model, which keeps indices as unbounded integers.
- The `Car` fields other than horsepower and mpg are carried in the datatype but not used.
- The download of the cars dataset (`fetch`, `json()`).
- `tf.util.shuffle`: a library shuffle, treated as an arbitrary permutation in `ShuffledPointsArePermutation`.
- The min-max normalisation and un-normalisation of the tensors (floating point, with a division by zero when all values are equal), the linear grid `tf.linspace`, model creation, training and chart rendering.
- The convolutional digit demo, the pretrained-network wrapper component and the server training script: calls into the tensor library and the DOM only.

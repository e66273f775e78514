# Touch detector model

This is a Dafny model of the touch detector in Spike Recorder's engine, the
`TouchDetector` class. It sits beside the live signal stream and works in
three stages:

- **Buffering.** The acquisition path pushes raw `int16_t` samples into a
  60000-slot ring buffer. The buffer has a write head and a saturating count.
- **Gated update.** The application calls `update(sampleRate)`. Once a full
  window is buffered, and at most every half second, `update` takes the
  latest window and computes five features of it: RMS, peak-to-peak,
  standard deviation, the 90th percentile of the absolute values, and the
  mean absolute value. It first normalizes the samples and removes their DC
  mean.
- **Decision.** The features are standardized with the embedded scaler and
  passed through the embedded random forest. The averaged leaf probability
  sets the detected flag under a threshold rule. A cooldown limits how often
  a new detection can start. A probability at or below the threshold clears
  the flag at once.

The project is organised as follows:

- `numeric.dfy` (`Numeric`): the C++ float-to-int cast (truncation toward
  zero) and `Min`.
- `ring_buffer.dfy` (`RingBuffer`): the sample type, the capacity, and two
  views of the store. `View` is what the buffer holds, oldest first.
  `Overwrite` is what a run of writes leaves in the slots. The modular index
  facts about both are proved here.
- `model_data.dfy` (`ModelData`): the embedded model artifact, with the
  well-formedness conditions the detector relies on.
- `features.dfy` (`FeatureExtraction`): the five statistics, as functions over
  exact reals, with their properties. It also holds the accumulator-loop
  methods of `extractFeatures`, each proved against those functions.
- `forest.dfy` (`Forest`): z-score scaling, the tree walk, the forest average,
  and `runForest` as a loop proved against them.
- `detection.dfy` (`Detection`): the threshold rule with cooldown, and what it
  guarantees over a stream of pushes and predictions.
- `touch_detector.dfy` (`TouchDetection`): the detector object.
  - It is a class with the source's fields. The buffer is an `array` that
    `PushSamples` writes in place.
  - A pure `Step` function describes one `update` on the scalar state, with
    lemmas about gating and cadence. `Update` is proved equal to `Step`
    applied to the probability the forest gives for the latest window.

The accessors `IsTouchDetected`, `HasEnoughData`, `IsEnabled` and
`GetThreshold` are functions that read one field. Dafny functions cannot
change state, so these accessors are `const` by construction.

## Model

| member | source | states |
|---|---|---|
| Numeric.Trunc | src/engine/TouchDetector.cpp:42 | the float-to-int cast truncates toward zero: the result is the integer nearest to x in the direction of zero, within 1 of x |
| Numeric.Min | src/engine/TouchDetector.cpp:43 | the clamp yields the smaller of its operands and is one of them |
| RingBuffer.View | src/engine/TouchDetector.cpp:106-111 | the buffered contents, oldest first, read by walking back `count` slots from the head with wrap-around; there are exactly `count` of them |
| RingBuffer.Retain | src/engine/TouchDetector.cpp:31-33 | the buffer holds min(n, 60000) of the n samples ever pushed: the count saturates at the capacity |
| RingBuffer.RetainIsSuffix | src/engine/TouchDetector.cpp:28-34 | what the buffer retains is the newest part of the stream, in order |
| RingBuffer.RetainPush | src/engine/TouchDetector.cpp:29-33 | forgetting the oldest samples one push at a time is the same as forgetting them at the end |
| RingBuffer.Slot | src/engine/TouchDetector.cpp:30 | the write position wraps into [0, 60000) |
| RingBuffer.ViewSuffix | src/engine/TouchDetector.cpp:106-111 | reading w slots behind the head, in index order, gives the newest w buffered samples, oldest first |
| RingBuffer.ViewPush | src/engine/TouchDetector.cpp:29-33 | one loop iteration (write at the head, advance the head mod C, grow the count until full) appends the sample to the buffered contents, dropping the oldest once full |
| RingBuffer.AdvanceCursors | src/engine/TouchDetector.cpp:30-33 | one loop iteration moves the head from (head0 + i) % C to (head0 + i + 1) % C and the saturating count from min(C, count0 + i) to min(C, count0 + i + 1); `WriteSamples` chains these steps in its loop invariant |
| RingBuffer.Overwrite | src/engine/TouchDetector.cpp:28-30 | the store after the write loop puts each sample at the head and advances it mod C; the store keeps its 60000 slots (`OverwriteSlots` says which value each slot holds) |
| RingBuffer.OverwriteSlots | src/engine/TouchDetector.cpp:29-30 | after writing s from the head, slot (head + k) % C holds s[k] for each of the last C positions, so a later sample wins the slot; slots not written keep their old values |
| RingBuffer.OverwriteView | src/engine/TouchDetector.cpp:28-34 | after writing s, the new head is (head + \|s\|) % C, the new count is min(C, count + \|s\|), and the contents are the newest C samples of the old contents followed by s |
| FeatureExtraction.Statistics | src/engine/TouchDetector.cpp:121-164 | the five features of a centred window: sqrt of the mean square, max minus min, sqrt of the mean squared deviation, element PercentileIndex(n) of the ascending absolute values, and the mean absolute value (its properties are the lemmas below and `ComputeFeatures`) |
| FeatureExtraction.FeaturesOf | src/engine/TouchDetector.cpp:95-167 | the feature vector of a window is the statistics of the window with its own mean removed (`ExtractFeatures` is proved to compute it; `OffsetInvariant` and `ConstantWindow` state what it ignores) |
| FeatureExtraction.Normalize | src/engine/TouchDetector.cpp:111 | each sample divided by 32768 lies in [-1, 1), and the integer sample is recovered by multiplying back |
| FeatureExtraction.SumSquares | src/engine/TouchDetector.cpp:122-125 | the sum of squares is non-negative |
| FeatureExtraction.SumSquaredDeviations | src/engine/TouchDetector.cpp:143-146 | the sum of squared deviations is non-negative |
| FeatureExtraction.SumAbs | src/engine/TouchDetector.cpp:160-163 | the sum of absolute values is non-negative |
| FeatureExtraction.MinOf | src/engine/TouchDetector.cpp:129-133 | the running minimum is an element of the window and at most every element |
| FeatureExtraction.MaxOf | src/engine/TouchDetector.cpp:129-133 | the running maximum is an element of the window and at least every element |
| FeatureExtraction.SortAscending | src/engine/TouchDetector.cpp:154 | the sorted copy has the length of its input |
| FeatureExtraction.SortAscendingSorts | src/engine/TouchDetector.cpp:154 | the sort yields an ascending permutation (same multiset) of the absolute values |
| FeatureExtraction.SortedUnique | src/engine/TouchDetector.cpp:154 | two ascending lists with the same multiset are equal, so any correct sort gives the same result |
| FeatureExtraction.PercentileIndex | src/engine/TouchDetector.cpp:155-156 | the percentile index (int)(0.9 * n), clamped to n - 1, is a valid index |
| FeatureExtraction.PercentileIndexIsFloor | src/engine/TouchDetector.cpp:155-156 | over exact reals the index is floor(9n/10) and the clamp never fires |
| FeatureExtraction.PercentileOfAnySort | src/engine/TouchDetector.cpp:149-157 | indexing any ascending permutation of the absolute values at the percentile index gives the model's 90th-percentile feature |
| FeatureExtraction.RemoveMean | src/engine/TouchDetector.cpp:116-119 | the loop subtracts the mean from every element of the window in place and changes nothing else |
| FeatureExtraction.RootMeanSquare | src/engine/TouchDetector.cpp:121-126 | the accumulator loop computes sqrt(sum of squares / n) of the window |
| FeatureExtraction.PeakToPeak | src/engine/TouchDetector.cpp:128-134 | the min/max loop computes the window maximum minus the window minimum |
| FeatureExtraction.StandardDeviation | src/engine/TouchDetector.cpp:136-147 | the two loops compute sqrt(sum of squared deviations from the window's own mean / n) |
| FeatureExtraction.Percentile90 | src/engine/TouchDetector.cpp:149-157 | the absolute-value loop, sort and index give element PercentileIndex(n) of the ascending absolute values |
| FeatureExtraction.MeanAbsolute | src/engine/TouchDetector.cpp:159-164 | the loop computes the mean absolute value of the window |
| FeatureExtraction.ComputeFeatures | src/engine/TouchDetector.cpp:121-164 | the five feature computations on the centred window give exactly the statistics of that window |
| FeatureExtraction.SumOffset | src/engine/TouchDetector.cpp:117-119 | subtracting c from each of n samples lowers the sum by n * c |
| FeatureExtraction.CenteredSumsToZero | src/engine/TouchDetector.cpp:115-119 | after DC removal the window sums, and averages, to zero |
| FeatureExtraction.StdDevMatchesRms | src/engine/TouchDetector.cpp:136-147 | the standard deviation, computed from the window's own mean, equals the RMS, because the window is already centred |
| FeatureExtraction.OffsetInvariant | src/engine/TouchDetector.cpp:115-119 | adding a constant DC offset to the whole window changes neither the centred window nor any feature |
| FeatureExtraction.FeatureBounds | src/engine/TouchDetector.cpp:128-164 | peak-to-peak >= 0, mean-abs >= 0, and the percentile lies between 0 and the largest absolute value |
| FeatureExtraction.ZeroWindow | src/engine/TouchDetector.cpp:121-164 | an all-zero window has zero peak-to-peak, percentile and mean-abs, and RMS = std-dev = sqrt(0) |
| FeatureExtraction.ConstantWindow | src/engine/TouchDetector.cpp:115-164 | a window of one repeated value scores the same as silence |
| Forest.Scale | src/engine/TouchDetector.cpp:65-70 | one z-score per feature, in feature order |
| Forest.ScaleInverse | src/engine/TouchDetector.cpp:66-70 | scaling loses nothing: scaled * scale + mean recovers each feature |
| Forest.Walk | src/engine/TouchDetector.cpp:176-184 | the walk (left when the feature is <= the threshold, right otherwise) ends at a leaf at or after the start node |
| Forest.TreeProbability | src/engine/TouchDetector.cpp:173-187 | a tree's vote, read at the leaf reached from node 0, lies in [0, 1] |
| Forest.SumOfVotes | src/engine/TouchDetector.cpp:186-187 | the sum of the trees' leaf votes, accumulated tree by tree (`SumOfVotesBounds` bounds it; `RunForest`'s loop is proved to compute it) |
| Forest.ForestProbability | src/engine/TouchDetector.cpp:186-190 | the forest's probability is the summed votes divided by the number of trees (`ForestProbabilityInUnit` and `UnanimousForest` state its range and its unanimous case) |
| Forest.SumOfVotesBounds | src/engine/TouchDetector.cpp:186-187 | the summed votes of N trees lie in [0, N] |
| Forest.ForestProbabilityInUnit | src/engine/TouchDetector.cpp:190 | the averaged vote lies in [0, 1] |
| Forest.UnanimousForest | src/engine/TouchDetector.cpp:186-190 | when every tree votes p, the forest outputs p |
| Forest.RunForest | src/engine/TouchDetector.cpp:169-191 | the nested loops return the mean of the trees' leaf probabilities, which lies in [0, 1] |
| Detection.CooldownSamples | src/engine/TouchDetector.cpp:77 | the cooldown in samples is cooldownSeconds * sampleRate truncated: a non-negative integer within 1 below the product when both are non-negative |
| Detection.Detect | src/engine/TouchDetector.cpp:77-83 | the threshold rule with cooldown: the flag can be set only when the probability exceeds the threshold, and the detection counter is either reset to 0 or left as it was |
| Detection.DetectCases | src/engine/TouchDetector.cpp:77-83 | the threshold rule: detected afterwards iff p > threshold and (cooldown elapsed or already detected); the counter resets only on a new detection; p <= threshold clears the flag |
| Detection.SecondClearIsRedundant | src/engine/TouchDetector.cpp:84-90 | after the rule, "cooldown elapsed, detected and p <= threshold" never holds, so the second clearing block changes nothing |
| Detection.CounterBounded | src/engine/TouchDetector.cpp:77-83 | over any stream of pushes and predictions, the samples-since-detection counter never exceeds the samples actually pushed |
| Detection.CooldownSeparatesDetections | src/engine/TouchDetector.cpp:77-80 | after a detection starts, the next one can start only once more than cooldownSamples samples have been pushed |
| Detection.LowProbabilityClears | src/engine/TouchDetector.cpp:81-83 | a prediction at or below the threshold clears the flag, cooldown or not |
| TouchDetection.Step | src/engine/TouchDetector.cpp:39-93 | one `update` on the scalar state; it never moves the buffer cursors or changes the threshold, cooldown or enabled flag, and it either keeps or resets the detection counter (the lemmas below state its gating and cadence) |
| TouchDetection.WindowSamples | src/engine/TouchDetector.cpp:42-43 | the window length is at most the capacity and, in range, is the truncation of WINDOW_SIZE_SECONDS * sampleRate |
| TouchDetection.InvalidRateIsNoOp | src/engine/TouchDetector.cpp:40 | a non-positive rate returns false and leaves all state unchanged |
| TouchDetection.FilledTracksWindow | src/engine/TouchDetector.cpp:45-50 | the has-enough-data flag becomes bufferCount >= windowSamples; with too little data only that flag changes and no prediction runs |
| TouchDetection.CadenceGate | src/engine/TouchDetector.cpp:52-59 | a prediction runs iff a full window is buffered and at least sampleRate/2 samples arrived since the last one; it resets that counter and stores the probability; otherwise probability, flag and both counters are unchanged |
| TouchDetection.ProbabilityOnlyUsedWhenPredicting | src/engine/TouchDetector.cpp:55-62 | when no prediction runs, the outcome does not depend on the window's probability |
| TouchDetection.EnabledIsAdvisory | src/engine/TouchDetector.h:30-31 | update neither reads nor writes the enabled flag |
| TouchDetection.SecondUpdateIsNoOp | src/engine/TouchDetector.cpp:53-59 | two updates with no push in between: the second runs no prediction and changes nothing (for any rate other than 1) |
| TouchDetection.RateOneAlwaysPredicts | src/engine/TouchDetector.cpp:53-58 | at rate 1 the hop is 0, so every update with a full window predicts |
| TouchDetection.TouchDetector.constructor | src/engine/TouchDetector.cpp:10-25 | head = count = 0; filled, detected and enabled false; probability 0; threshold 0.7; cooldown 2.0; all counters 0; model loaded; a zeroed 60000-slot buffer holding no samples |
| TouchDetection.TouchDetector.PushSamples | src/engine/TouchDetector.cpp:27-37 | head and count advance as the loop does (count saturating at C); both sample counters grow by count; nothing else changes; the slots are overwritten as Overwrite says, and the contents become the newest C samples of old contents + samples[..count] |
| TouchDetection.TouchDetector.WriteSamples | src/engine/TouchDetector.cpp:28-34 | the write loop moves head and count, overwrites the slots, and changes no other field |
| TouchDetection.TouchDetector.LatestWindowIsNewest | src/engine/TouchDetector.cpp:103-111 | the window extractFeatures reads is the newest w buffered samples, oldest first |
| TouchDetection.TouchDetector.Update | src/engine/TouchDetector.cpp:39-93 | the new state and the return value are Step of the old state, with the forest's probability for the latest window; the buffer is untouched |
| TouchDetection.TouchDetector.ApplyThreshold | src/engine/TouchDetector.cpp:74-90 | stores the probability and sets the flag and the detection counter as the threshold rule says; nothing else changes |
| TouchDetection.TouchDetector.WindowProbability | src/engine/TouchDetector.cpp:61-73 | the forest's probability for the scaled features of the latest w buffered samples, which lies in [0, 1] |
| TouchDetection.TouchDetector.Predict | src/engine/TouchDetector.cpp:61-73 | extract, scale and run the forest on the latest window; the result is the window's probability and lies in [0, 1] |
| TouchDetection.TouchDetector.ExtractFeatures | src/engine/TouchDetector.cpp:95-167 | the features are the statistics of the normalized, centred latest window |
| TouchDetection.TouchDetector.CopyWindow | src/engine/TouchDetector.cpp:103-113 | the copy loop, reading from (head - w + C) % C and wrapping, yields the normalized latest window in chronological order and its sum |
| TouchDetection.TouchDetector.TouchProbability | src/engine/TouchDetector.h:27 | the stored probability always lies in [0, 1] |
| TouchDetection.TouchDetector.IsTouchDetected | src/engine/TouchDetector.h:26 | returns the detected flag, whose value `Step` and `DetectCases` state |
| TouchDetection.TouchDetector.HasEnoughData | src/engine/TouchDetector.h:29 | returns the has-enough-data flag, whose value `FilledTracksWindow` states |
| TouchDetection.TouchDetector.IsModelLoaded | src/engine/TouchDetector.h:28 | the model is always loaded |
| TouchDetection.TouchDetector.SetEnabled | src/engine/TouchDetector.h:31 | sets only the enabled flag; isEnabled then returns it |
| TouchDetection.TouchDetector.IsEnabled | src/engine/TouchDetector.h:30 | returns the enabled flag, which only `SetEnabled` changes |
| TouchDetection.TouchDetector.SetThreshold | src/engine/TouchDetector.h:34-35 | sets only the threshold; getThreshold then returns it |
| TouchDetection.TouchDetector.GetThreshold | src/engine/TouchDetector.h:35 | returns the threshold, which only `SetThreshold` changes |
| TouchDetection.TouchDetector.SetCooldownSeconds | src/engine/TouchDetector.h:36 | sets only the cooldown |

## Left out

- Floating point.
  - `float` and `double` are modelled as exact `real`.
  - The `(float)` narrowing of the probability and the `0.7f`/`2.0f` literals become exact values.
  - Rounding, NaN and infinities are not modelled.
- `std::sqrt` and `std::fabs`.
  - The square root is a function the detector is given at construction (`sqrt`). The model assumes nothing about it, so RMS and standard deviation are stated as "sqrt of" their radicands.
  - `fabs` is the exact absolute value.
- `std::sort`.
  - `FeatureExtraction.Percentile90` indexes a sorted copy (a functional insertion sort) instead of sorting its scratch vector in place.
  - `SortedUnique` shows that every ascending permutation gives the same percentile.
- `TouchModelData.h` is not part of this model.
  - Its trees, scaler and window duration are a constructor parameter (`model`) that satisfies `WellFormedModel`.
  - That predicate requires: children strictly after their parent, features in 0..4, leaf probabilities in [0, 1], non-zero scales, at least one tree.
- `Detection.CooldownSamples`: the cast of `cooldownSeconds * sampleRate` to `int` is undefined in C++ when the product is out of the `int` range; the model truncates exactly and does not model that case.
- `TouchDetection.WindowSamples`:
  - it states the truncation only when `WINDOW_SIZE_SECONDS * sampleRate` lies in [0, 60000);
  - the cast of an out-of-range product is undefined in C++ and is not modelled.
- `TouchDetection.TouchDetector.Update` requires a window of at least one sample only for calls that reach a prediction: a positive rate and at least sampleRate/2 samples since the last one. On such a call with a window of 0 samples, `extractFeatures` divides by zero and reads `window[0]` of an empty vector; with a negative window, constructing the `std::vector` throws. Neither is modelled. Calls that stop earlier are modelled for every window length.
- `TouchDetection.TouchDetector.PushSamples` requires `0 <= count <= |samples|`. The `samples` argument becomes a sequence. A negative `count` (which would lower both counters) and 32-bit overflow of the counters are not modelled; the counters are unbounded integers.
- `update` is split into helper methods (`Predict`, `ApplyThreshold`) and `extractFeatures` into one method per feature (`CopyWindow`, `RemoveMean`, `ComputeFeatures` and the five statistics). Each keeps the source's loop. `pushSamples` is split in the same way: its write loop is `WriteSamples`.
- The second clearing block of `update` (lines 84-90) is written as one boolean assignment with the same effect. `SecondClearIsRedundant` shows it never changes the flag.
- `IsTouchDetected`, `HasEnoughData`, `IsEnabled` and `GetThreshold` return a field and have no contracts of their own. No invariant constrains those fields on their own; the setter contracts and `Step`'s lemmas state what they hold.
- `src/Game.h`, the application shell that owns a detector, is not part of this model.

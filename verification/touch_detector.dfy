/** The touch detector object: a ring buffer of raw samples fed by the
    acquisition path, and a gated `Update` that, on a half-second cadence,
    extracts features from the latest window, runs the forest and updates the
    detected flag under the cooldown rule. */
module TouchDetection {
  import opened Numeric
  import opened RingBuffer
  import opened ModelData
  import opened FeatureExtraction
  import opened Forest
  import opened Detection

  /** Every scalar field of the detector, for stating what an operation changes. */
  datatype DetectorState = DetectorState(
    bufferHead: int,
    bufferCount: int,
    bufferFilled: bool,
    touchDetected: bool,
    touchProbability: real,
    threshold: real,
    cooldownSeconds: real,
    enabled: bool,
    samplesSinceLastPrediction: int,
    samplesSinceLastDetection: int,
    hopSamples: int)

  /** `(int)(WINDOW_SIZE_SECONDS * sampleRate)`, clamped to the capacity. */
  function WindowSamples(model: TouchModel, sampleRate: int): (w: int)
    ensures w <= TouchBufferSize
    ensures 0.0 <= model.windowSizeSeconds * sampleRate as real < TouchBufferSize as real ==>
              w as real <= model.windowSizeSeconds * sampleRate as real < w as real + 1.0
  {
    Min(Trunc(model.windowSizeSeconds * sampleRate as real), TouchBufferSize)
  }

  /** One call of `update(sampleRate)` on the scalar state, given the window
      length and the probability the forest gives for the latest window (used
      only when a prediction runs). Returns the new state and whether a
      prediction ran. */
  function Step(s: DetectorState, sampleRate: int, windowSamples: int, probability: real): (r: (DetectorState, bool))
    ensures r.0.bufferHead == s.bufferHead && r.0.bufferCount == s.bufferCount
    ensures r.0.threshold == s.threshold && r.0.cooldownSeconds == s.cooldownSeconds && r.0.enabled == s.enabled
    ensures r.0.samplesSinceLastDetection == s.samplesSinceLastDetection || r.0.samplesSinceLastDetection == 0
  {
    if sampleRate <= 0 then (s, false)
    else if s.bufferCount < windowSamples then (s.(bufferFilled := false), false)
    else
      var gated := s.(bufferFilled := true, hopSamples := sampleRate / 2);
      if gated.samplesSinceLastPrediction < gated.hopSamples then (gated, false)
      else
        var (detected, since) :=
          Detect(probability, s.threshold, s.touchDetected, s.samplesSinceLastDetection,
                 CooldownSamples(s.cooldownSeconds, sampleRate));
        (gated.(samplesSinceLastPrediction := 0, touchProbability := probability,
                touchDetected := detected, samplesSinceLastDetection := since), true)
  }

  // ---------------------------------------------------------------------------
  // What one update does
  // ---------------------------------------------------------------------------

  /** A non-positive sample rate makes `update` a no-op that reports no prediction. */
  lemma InvalidRateIsNoOp(s: DetectorState, sampleRate: int, windowSamples: int, probability: real)
    requires sampleRate <= 0
    ensures Step(s, sampleRate, windowSamples, probability) == (s, false)
  {
  }

  /** With a valid rate, the has-enough-data flag records whether a full window
      is buffered; with too little data nothing else changes. */
  lemma FilledTracksWindow(s: DetectorState, sampleRate: int, windowSamples: int, probability: real)
    requires sampleRate > 0
    ensures var (s', predicted) := Step(s, sampleRate, windowSamples, probability);
      && (s'.bufferFilled <==> s.bufferCount >= windowSamples)
      && (s.bufferCount < windowSamples ==> s' == s.(bufferFilled := false) && !predicted)
  {
  }

  /** The cadence gate: a prediction runs exactly when a full window is
      buffered and at least sampleRate/2 samples arrived since the last one;
      then the counter restarts and the probability is stored, otherwise the
      probability and the detected flag stay as they were. */
  lemma CadenceGate(s: DetectorState, sampleRate: int, windowSamples: int, probability: real)
    requires sampleRate > 0
    ensures var (s', predicted) := Step(s, sampleRate, windowSamples, probability);
      && (predicted <==> s.bufferCount >= windowSamples && s.samplesSinceLastPrediction >= sampleRate / 2)
      && (predicted ==> s'.samplesSinceLastPrediction == 0 && s'.touchProbability == probability)
      && (!predicted ==> s'.touchProbability == s.touchProbability && s'.touchDetected == s.touchDetected
                         && s'.samplesSinceLastPrediction == s.samplesSinceLastPrediction
                         && s'.samplesSinceLastDetection == s.samplesSinceLastDetection)
  {
  }

  /** The probability the forest would give matters only when a prediction runs. */
  lemma ProbabilityOnlyUsedWhenPredicting(s: DetectorState, sampleRate: int, windowSamples: int, p: real, q: real)
    requires !Step(s, sampleRate, windowSamples, p).1
    ensures Step(s, sampleRate, windowSamples, p) == Step(s, sampleRate, windowSamples, q)
  {
  }

  /** `enabled` is advisory: `update` neither reads nor writes it. */
  lemma EnabledIsAdvisory(s: DetectorState, b: bool, sampleRate: int, windowSamples: int, probability: real)
    ensures var (s', predicted) := Step(s, sampleRate, windowSamples, probability);
      Step(s.(enabled := b), sampleRate, windowSamples, probability) == (s'.(enabled := b), predicted)
  {
  }

  /** Two updates with no push in between: the second reports no prediction and
      changes nothing, as long as the hop is at least one sample. */
  lemma SecondUpdateIsNoOp(s: DetectorState, sampleRate: int, windowSamples: int, p: real, q: real)
    requires sampleRate != 1
    ensures var (s', _) := Step(s, sampleRate, windowSamples, p);
      Step(s', sampleRate, windowSamples, q) == (s', false)
  {
  }

  /** At sampleRate 1 the hop is 0 samples, so every update with a full window
      runs a prediction, back to back. */
  lemma RateOneAlwaysPredicts(s: DetectorState, windowSamples: int, probability: real)
    requires s.samplesSinceLastPrediction >= 0
    ensures Step(s, 1, windowSamples, probability).1 <==> s.bufferCount >= windowSamples
  {
  }

  // ---------------------------------------------------------------------------
  // The detector object
  // ---------------------------------------------------------------------------

  class TouchDetector {
    /** The embedded model artifact and the platform's square root. */
    const model: TouchModel
    const sqrt: real -> real

    /** The rolling sample buffer and its cursors. */
    const buffer: array<Int16>
    var bufferHead: int       // next write position
    var bufferCount: int      // samples held, saturating at the capacity
    var bufferFilled: bool    // a full window was available at the last update

    var modelLoaded: bool
    var touchDetected: bool
    var touchProbability: real
    var threshold: real
    var cooldownSeconds: real
    var enabled: bool

    var samplesSinceLastPrediction: int
    var samplesSinceLastDetection: int
    var hopSamples: int

    ghost predicate Valid()
      reads this
    {
      && buffer.Length == TouchBufferSize
      && Cursors(bufferHead, bufferCount)
      && modelLoaded
      && WellFormedModel(model)
      && 0.0 <= touchProbability <= 1.0
      && samplesSinceLastPrediction >= 0
      && samplesSinceLastDetection >= 0
    }

    ghost function State(): DetectorState
      reads this
    {
      DetectorState(bufferHead, bufferCount, bufferFilled, touchDetected, touchProbability,
                    threshold, cooldownSeconds, enabled,
                    samplesSinceLastPrediction, samplesSinceLastDetection, hopSamples)
    }

    /** The buffered samples, oldest first. */
    ghost function Contents(): seq<Int16>
      reads this`bufferHead, this`bufferCount, buffer
      requires buffer.Length == TouchBufferSize && Cursors(bufferHead, bufferCount)
    {
      View(buffer[..], bufferHead, bufferCount)
    }

    /** The w most recently pushed samples, oldest first. */
    ghost function LatestWindow(w: int): seq<Int16>
      reads this`bufferHead, this`bufferCount, buffer
      requires buffer.Length == TouchBufferSize && Cursors(bufferHead, bufferCount)
      requires 0 <= w <= bufferCount
    {
      View(buffer[..], bufferHead, w)
    }

    /** The window `extractFeatures` reads is the newest w buffered samples,
        oldest first. */
    lemma LatestWindowIsNewest(w: int)
      requires buffer.Length == TouchBufferSize && Cursors(bufferHead, bufferCount)
      requires 0 <= w <= bufferCount
      ensures LatestWindow(w) == Contents()[bufferCount - w..]
    {
      ViewSuffix(buffer[..], bufferHead, bufferCount, w);
    }

    /** The probability the forest assigns to the latest window of w samples. */
    ghost function WindowProbability(w: int): (p: real)
      reads this`bufferHead, this`bufferCount, buffer
      requires buffer.Length == TouchBufferSize && Cursors(bufferHead, bufferCount)
      requires WellFormedModel(model)
      requires 1 <= w <= bufferCount
      ensures 0.0 <= p <= 1.0
    {
      var feat := FeaturesOf(Normalize(LatestWindow(w)), sqrt);
      var scaled := Scale(feat, model.scalerMean, model.scalerScale);
      ForestProbabilityInUnit(model.trees, scaled);
      ForestProbability(model.trees, scaled)
    }

    constructor (model: TouchModel, sqrt: real -> real)
      requires WellFormedModel(model)
      ensures Valid() && fresh(buffer)
      ensures this.model == model && this.sqrt == sqrt
      ensures State() == DetectorState(0, 0, false, false, 0.0, 0.7, 2.0, false, 0, 0, 0)
      ensures forall i :: 0 <= i < buffer.Length ==> buffer[i] == 0
      ensures Contents() == []
    {
      this.model := model;
      this.sqrt := sqrt;
      bufferHead := 0;
      bufferCount := 0;
      bufferFilled := false;
      modelLoaded := true;
      touchDetected := false;
      touchProbability := 0.0;
      threshold := 0.7;
      cooldownSeconds := 2.0;
      enabled := false;
      samplesSinceLastPrediction := 0;
      samplesSinceLastDetection := 0;
      hopSamples := 0;
      buffer := new Int16[TouchBufferSize](_ => 0);
    }

    /** `pushSamples(samples, count)`: writes the first `count` samples at the
        cursor, wrapping around, and advances both elapsed-sample counters. */
    method PushSamples(samples: seq<Int16>, count: int)
      requires Valid()
      requires 0 <= count <= |samples|
      modifies this, buffer
      ensures Valid()
      ensures State() == old(State()).(
                bufferHead := (old(bufferHead) + count) % TouchBufferSize,
                bufferCount := Min(TouchBufferSize, old(bufferCount) + count),
                samplesSinceLastPrediction := old(samplesSinceLastPrediction) + count,
                samplesSinceLastDetection := old(samplesSinceLastDetection) + count)
      ensures buffer[..] == Overwrite(old(buffer[..]), old(bufferHead), samples[..count])
      ensures Contents() == Retain(old(Contents()) + samples[..count])
    {
      ghost var b0, head0, c0 := buffer[..], bufferHead, bufferCount;
      WriteSamples(samples, count);
      OverwriteView(b0, head0, c0, samples[..count]);
      samplesSinceLastPrediction := samplesSinceLastPrediction + count;
      samplesSinceLastDetection := samplesSinceLastDetection + count;
    }

    /** The write loop of `pushSamples`: one sample per slot, moving the cursor
        and growing the count until the buffer is full. */
    method WriteSamples(samples: seq<Int16>, count: int)
      requires Valid()
      requires 0 <= count <= |samples|
      modifies this, buffer
      ensures Valid()
      ensures State() == old(State()).(
                bufferHead := (old(bufferHead) + count) % TouchBufferSize,
                bufferCount := Min(TouchBufferSize, old(bufferCount) + count))
      ensures buffer[..] == Overwrite(old(buffer[..]), old(bufferHead), samples[..count])
    {
      ghost var b0, head0, c0 := buffer[..], bufferHead, bufferCount;
      for i := 0 to count
        invariant bufferHead == (head0 + i) % TouchBufferSize
        invariant bufferCount == Min(TouchBufferSize, c0 + i)
        invariant buffer[..] == Overwrite(b0, head0, samples[..i])
        invariant State() == old(State()).(bufferHead := bufferHead, bufferCount := bufferCount)
        invariant modelLoaded == old(modelLoaded)
      {
        assert samples[..i + 1][..i] == samples[..i];
        assert Overwrite(b0, head0, samples[..i + 1]) == Overwrite(b0, head0, samples[..i])[bufferHead := samples[i]];
        AdvanceCursors(head0, c0, i);
        buffer[bufferHead] := samples[i];
        bufferHead := (bufferHead + 1) % TouchBufferSize;
        if bufferCount < TouchBufferSize {
          bufferCount := bufferCount + 1;
        }
      }
    }

    /** `update(sampleRate)`: the gated prediction step. Returns whether a new
        prediction ran. */
    method Update(sampleRate: int) returns (predicted: bool)
      requires Valid()
      requires sampleRate > 0 && samplesSinceLastPrediction >= sampleRate / 2 ==> WindowSamples(model, sampleRate) >= 1
      modifies this
      ensures Valid()
      ensures var w := WindowSamples(model, sampleRate);
        (State(), predicted) ==
          Step(old(State()), sampleRate, w,
               if sampleRate > 0 && 1 <= w <= old(bufferCount) then old(WindowProbability(w)) else 0.0)
    {
      if sampleRate <= 0 {
        return false;
      }

      var windowSamples := WindowSamples(model, sampleRate);

      if bufferCount < windowSamples {
        bufferFilled := false;
        return false;
      }
      bufferFilled := true;

      hopSamples := sampleRate / 2;
      if samplesSinceLastPrediction < hopSamples {
        return false;
      }
      samplesSinceLastPrediction := 0;

      ghost var gated := State();
      assert gated == old(State()).(bufferFilled := true, hopSamples := sampleRate / 2, samplesSinceLastPrediction := 0);
      var probability := Predict(windowSamples);
      assert probability == old(WindowProbability(windowSamples));
      ApplyThreshold(probability, sampleRate);
      return true;
    }

    /** The end of `update` once a probability is in: stores it and applies
        the threshold with cooldown, including the source's second clearing
        check (which never fires, see SecondClearIsRedundant). */
    method ApplyThreshold(probability: real, sampleRate: int)
      requires Valid() && 0.0 <= probability <= 1.0
      modifies this
      ensures Valid()
      ensures var (detected, since) :=
          Detect(probability, old(threshold), old(touchDetected), old(samplesSinceLastDetection),
                 CooldownSamples(old(cooldownSeconds), sampleRate));
        State() == old(State()).(touchProbability := probability, touchDetected := detected,
                                 samplesSinceLastDetection := since)
    {
      touchProbability := probability;

      var cooldownSamples := CooldownSamples(cooldownSeconds, sampleRate);
      SecondClearIsRedundant(probability, threshold, touchDetected, samplesSinceLastDetection, cooldownSamples);
      if probability > threshold && samplesSinceLastDetection > cooldownSamples {
        touchDetected := true;
        samplesSinceLastDetection := 0;
      } else if probability <= threshold {
        touchDetected := false;
      }
      // the second clearing check, as one assignment: it clears the flag when
      // the cooldown has elapsed, the flag is set and the probability is at or
      // below the threshold (which by then is never the case)
      touchDetected := touchDetected && !(samplesSinceLastDetection > cooldownSamples && probability <= threshold);
    }

    /** The prediction part of `update`: features of the latest window,
        standardized with the embedded scaler, through the forest. */
    method Predict(windowSamples: int) returns (probability: real)
      requires Valid()
      requires 0 < windowSamples <= bufferCount
      ensures probability == WindowProbability(windowSamples)
      ensures 0.0 <= probability <= 1.0
    {
      var feat := ExtractFeatures(windowSamples);
      var scaled := Scale(feat, model.scalerMean, model.scalerScale);
      probability := RunForest(model, scaled);
    }

    /** `extractFeatures(windowSamples)`: copies the latest window out of the
        ring while summing it, removes the window's mean in place, then
        computes the five statistics of the result. */
    method ExtractFeatures(windowSamples: int) returns (feat: Features)
      requires Valid()
      requires 0 < windowSamples <= bufferCount
      ensures feat == FeaturesOf(Normalize(LatestWindow(windowSamples)), sqrt)
    {
      ghost var x := Normalize(LatestWindow(windowSamples));
      var window, sum := CopyWindow(windowSamples);
      // DC offset removal
      var mean := sum / windowSamples as real;
      assert mean == Mean(x);
      RemoveMean(window, mean);
      assert window[..] == Centered(x);
      feat := ComputeFeatures(window, sqrt);
    }

    /** The copy loop of `extractFeatures`: reads the latest window from
        readPos = (head - windowSamples + C) % C onwards, wrapping around,
        normalizes each sample to [-1, 1) and sums them. */
    method CopyWindow(windowSamples: int) returns (window: array<real>, sum: real)
      requires Valid()
      requires 0 < windowSamples <= bufferCount
      ensures fresh(window)
      ensures window[..] == Normalize(LatestWindow(windowSamples))
      ensures sum == Sum(window[..])
    {
      ghost var x := Normalize(LatestWindow(windowSamples));
      window := new real[windowSamples];
      var readPos := (bufferHead - windowSamples + TouchBufferSize) % TouchBufferSize;
      sum := 0.0;
      for i := 0 to windowSamples
        invariant forall k :: 0 <= k < i ==> window[k] == x[k]
        invariant sum == Sum(x[..i])
      {
        var idx := (readPos + i) % TouchBufferSize;
        ModAdd(bufferHead - windowSamples + TouchBufferSize, i);
        window[i] := buffer[idx] as real / 32768.0;
        sum := sum + window[i];
        SumStep(x, i);
      }
      assert x[..windowSamples] == x;
      assert window[..] == x;
    }

    // --- Accessors ---

    function IsTouchDetected(): bool
      reads this
    {
      touchDetected
    }

    /** The last computed probability, always a probability. */
    function TouchProbability(): (p: real)
      reads this
      requires Valid()
      ensures 0.0 <= p <= 1.0
    {
      touchProbability
    }

    /** The model is compiled in, so it is always loaded. */
    function IsModelLoaded(): (loaded: bool)
      reads this
      requires Valid()
      ensures loaded
    {
      modelLoaded
    }

    function HasEnoughData(): bool
      reads this
    {
      bufferFilled
    }

    function IsEnabled(): bool
      reads this
    {
      enabled
    }

    function GetThreshold(): real
      reads this
    {
      threshold
    }

    // --- Configuration ---

    method SetEnabled(enabled: bool)
      requires Valid()
      modifies this
      ensures Valid()
      ensures State() == old(State()).(enabled := enabled)
      ensures IsEnabled() == enabled
    {
      this.enabled := enabled;
    }

    method SetThreshold(threshold: real)
      requires Valid()
      modifies this
      ensures Valid()
      ensures State() == old(State()).(threshold := threshold)
      ensures GetThreshold() == threshold
    {
      this.threshold := threshold;
    }

    method SetCooldownSeconds(seconds: real)
      requires Valid()
      modifies this
      ensures Valid()
      ensures State() == old(State()).(cooldownSeconds := seconds)
    {
      cooldownSeconds := seconds;
    }
  }
}

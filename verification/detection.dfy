/** The thresholding rule that turns a fresh probability into the detected flag,
    with the cooldown that rate-limits new detections, and what it guarantees
    over a whole stream of pushes and predictions. */
module Detection {
  import opened Numeric

  /** `(int)(seconds * sampleRate)`: the cooldown length in samples. */
  function CooldownSamples(cooldownSeconds: real, sampleRate: int): (cooldown: int)
    ensures 0.0 <= cooldownSeconds && 0 <= sampleRate ==>
              0 <= cooldown && cooldown as real <= cooldownSeconds * sampleRate as real < cooldown as real + 1.0
  {
    Trunc(cooldownSeconds * sampleRate as real)
  }

  /** A new detection starts: the probability is above the threshold and the
      cooldown since the last one has elapsed. */
  predicate Fires(probability: real, threshold: real, sinceDetection: int, cooldown: int) {
    probability > threshold && sinceDetection > cooldown
  }

  /** The new (detected, samples-since-detection) pair. A start resets the
      counter; a probability at or below the threshold clears the flag
      whatever the cooldown; otherwise nothing changes. */
  function Detect(probability: real, threshold: real, detected: bool, sinceDetection: int, cooldown: int)
    : (r: (bool, int))
    ensures r.0 ==> probability > threshold
    ensures r.1 == 0 || r.1 == sinceDetection
  {
    if Fires(probability, threshold, sinceDetection, cooldown) then (true, 0)
    else if probability <= threshold then (false, sinceDetection)
    else (detected, sinceDetection)
  }

  /** The outcome of the rule in its three cases. */
  lemma DetectCases(probability: real, threshold: real, detected: bool, since: int, cooldown: int)
    ensures var (d, s) := Detect(probability, threshold, detected, since, cooldown);
      && (d <==> probability > threshold && (since > cooldown || detected))
      && (s == 0 || s == since)
      && (s != since ==> probability > threshold && since > cooldown)
      && (probability <= threshold ==> !d)
  {
  }

  /** The source re-checks, after the rule, "cooldown elapsed, detected, and
      probability at or below threshold" in order to clear the flag. That
      condition never holds after the rule, so the re-check changes nothing. */
  lemma SecondClearIsRedundant(probability: real, threshold: real, detected: bool, since: int, cooldown: int)
    ensures var (d, s) := Detect(probability, threshold, detected, since, cooldown);
      !(s > cooldown && d && probability <= threshold)
  {
  }

  // ---------------------------------------------------------------------------
  // Streams of pushes and predictions
  // ---------------------------------------------------------------------------

  /** What reaches the detection counter: a push of n samples, or a prediction
      that yields a probability. */
  datatype Event = Push(n: nat) | Prediction(probability: real)

  /** The samples pushed by a stream of events. */
  function Elapsed(events: seq<Event>): nat {
    if |events| == 0 then 0
    else
      var last := events[|events| - 1];
      Elapsed(events[..|events| - 1]) + (if last.Push? then last.n else 0)
  }

  /** The (detected, samples-since-detection) pair after a stream of events,
      for a fixed threshold and cooldown. */
  function Run(start: (bool, int), events: seq<Event>, threshold: real, cooldown: int): (bool, int) {
    if |events| == 0 then start
    else
      var (d, c) := Run(start, events[..|events| - 1], threshold, cooldown);
      match events[|events| - 1]
      case Push(n) => (d, c + n)
      case Prediction(p) => Detect(p, threshold, d, c, cooldown)
  }

  /** The counter never runs ahead of the samples actually pushed. */
  lemma {:induction false} CounterBounded(start: (bool, int), events: seq<Event>, threshold: real, cooldown: int)
    requires start.1 >= 0
    ensures Run(start, events, threshold, cooldown).1 <= start.1 + Elapsed(events)
  {
    if |events| > 0 {
      CounterBounded(start, events[..|events| - 1], threshold, cooldown);
    }
  }

  /** Rate limit: after a detection starts (counter 0), the next one can only
      start once more than `cooldown` samples have been pushed, however long
      the probability stays above the threshold in between. */
  lemma CooldownSeparatesDetections(events: seq<Event>, k: int, threshold: real, cooldown: int)
    requires 0 <= k < |events| && events[k].Prediction?
    requires Fires(events[k].probability, threshold, Run((true, 0), events[..k], threshold, cooldown).1, cooldown)
    ensures Elapsed(events[..k]) > cooldown
  {
    CounterBounded((true, 0), events[..k], threshold, cooldown);
  }

  /** A prediction at or below the threshold clears the flag at once, in any
      state, cooldown or not. */
  lemma LowProbabilityClears(start: (bool, int), events: seq<Event>, threshold: real, cooldown: int)
    requires |events| > 0 && events[|events| - 1].Prediction?
    requires events[|events| - 1].probability <= threshold
    ensures !Run(start, events, threshold, cooldown).0
  {
  }
}

/**
 * The boundary queue and the buffer indexing of SoundSampler.kt. Each full
 * recorder buffer is split into two halves; in each half five windows of 2048
 * samples are taken, the peak frequency of each window is kept when it is
 * above 650 Hz, and the average of the kept peaks is the half's detected
 * frequency. The detected frequency goes to the listener and into a queue of
 * the last five, whose majority vote signals the start and the end of a
 * transmission.
 *
 * The recorder, the capture thread and the FFT are not modelled: the samples
 * a read delivers and the peak frequency of a window are parameters.
 */
module Sampler {
  import opened Guesses
  import opened AlphanumEncoder

  /** A 16-bit PCM sample, as a `ShortArray` holds it. */
  newtype Short = x: int | -32768 <= x < 32768

  /** The listener's callbacks, as the sampler invokes them. */
  datatype Callback = HeardStartTransmission | HeardEndTransmission | HeardFrequency(freq: real)

  const WindowsToTake: int := 5
  const MinBufferSize: int := 5120
  const SuggestedWindowSize: int := 2048
  const FrequencyThreshold: real := 650.0
  const QueueSize: int := 5
  const QueueThresholdSize: int := 3

  // ---------------------------------------------------------------------------
  // Buffer size, halves and windows
  // ---------------------------------------------------------------------------

  /** `bufferSize` in `init`: the recorder's suggestion, raised to 5120 when smaller. */
  function BufferSize(suggestedBufferSize: int): (n: int)
    ensures n >= MinBufferSize && n >= suggestedBufferSize
    ensures n == MinBufferSize || n == suggestedBufferSize
  {
    if suggestedBufferSize < MinBufferSize then MinBufferSize else suggestedBufferSize
  }

  /** `sliceArray(0 until size / 2)`. */
  function FirstHalf(buffer: seq<Short>): (h: seq<Short>)
    ensures |h| == |buffer| / 2
    ensures forall i :: 0 <= i < |h| ==> h[i] == buffer[i]
  {
    buffer[..|buffer| / 2]
  }

  /** `sliceArray(size / 2 until size)`. */
  function SecondHalf(buffer: seq<Short>): (h: seq<Short>)
    ensures |h| == |buffer| - |buffer| / 2
    ensures forall i :: 0 <= i < |h| ==> h[i] == buffer[|buffer| / 2 + i]
  {
    buffer[|buffer| / 2..]
  }

  /** The two halves partition the buffer, and each holds at least 2560 samples of a buffer of the chosen size. */
  lemma HalvesPartition(buffer: seq<Short>)
    ensures FirstHalf(buffer) + SecondHalf(buffer) == buffer
    ensures |FirstHalf(buffer)| == |buffer| / 2 && |SecondHalf(buffer)| == |buffer| - |buffer| / 2
    ensures |buffer| >= MinBufferSize ==> |FirstHalf(buffer)| >= 2560 && |SecondHalf(buffer)| >= 2560
  {
    assert FirstHalf(buffer) + SecondHalf(buffer) == buffer;
  }

  /**
   * `intervalSize`: the samples beyond one window, divided into six. The
   * operands are not negative for the halves the sampler is given, so
   * truncating and Euclidean division agree.
   */
  function IntervalSize(len: int): (d: int)
    requires len >= SuggestedWindowSize
    ensures d >= 0 && (WindowsToTake + 1) * d <= len - SuggestedWindowSize
  {
    (len - SuggestedWindowSize) / (WindowsToTake + 1)
  }

  /** Every sample index `j + intervalSize * i` the window loop reads lies inside the half. */
  lemma WindowIndexInBounds(len: int, i: int, j: int)
    requires len >= SuggestedWindowSize
    requires 0 <= i < WindowsToTake && 0 <= j < SuggestedWindowSize
    ensures 0 <= j + IntervalSize(len) * i < len
  {
    var d := IntervalSize(len);
    assert d * i <= d * WindowsToTake by {
      assert d * (WindowsToTake - i) >= 0;
    }
  }

  /** Window `i`: the 2048 samples from offset `intervalSize * i`. */
  function Window(half: seq<Short>, i: int): (w: seq<Short>)
    requires |half| >= SuggestedWindowSize && 0 <= i < WindowsToTake
    ensures |w| == SuggestedWindowSize
  {
    WindowIndexInBounds(|half|, i, SuggestedWindowSize - 1);
    half[IntervalSize(|half|) * i..IntervalSize(|half|) * i + SuggestedWindowSize]
  }

  /** The peaks of the first `n` windows that are above the threshold, in window order. */
  function PeaksAbove(half: seq<Short>, peak: seq<Short> -> real, n: int): (ps: seq<real>)
    requires |half| >= SuggestedWindowSize && 0 <= n <= WindowsToTake
    ensures |ps| <= n
    ensures forall k :: 0 <= k < |ps| ==> ps[k] > FrequencyThreshold
  {
    if n == 0 then []
    else
      var f := peak(Window(half, n - 1));
      PeaksAbove(half, peak, n - 1) + (if f > FrequencyThreshold then [f] else [])
  }

  function Sum(xs: seq<real>): real {
    if xs == [] then 0.0 else Sum(xs[..|xs| - 1]) + xs[|xs| - 1]
  }

  /**
   * `average()` of the kept peaks; for an empty list it is NaN, which the
   * model leaves to the caller as `emptyAverage`.
   */
  function Average(xs: seq<real>, emptyAverage: real): (a: real)
    ensures xs == [] ==> a == emptyAverage
    ensures xs != [] ==> a * (|xs| as real) == Sum(xs)
  {
    if xs == [] then emptyAverage else Sum(xs) / (|xs| as real)
  }

  /** The average of peaks that are all above the threshold is above it too. */
  lemma {:induction false} AverageAboveThreshold(xs: seq<real>, emptyAverage: real)
    requires xs != [] && forall k :: 0 <= k < |xs| ==> xs[k] > FrequencyThreshold
    ensures Average(xs, emptyAverage) > FrequencyThreshold
  {
    SumAbove(xs);
  }

  lemma {:induction false} SumAbove(xs: seq<real>)
    requires forall k :: 0 <= k < |xs| ==> xs[k] > FrequencyThreshold
    ensures xs != [] ==> Sum(xs) > FrequencyThreshold * (|xs| as real)
    ensures Sum(xs) >= FrequencyThreshold * (|xs| as real)
  {
    if xs != [] {
      SumAbove(xs[..|xs| - 1]);
    }
  }

  // ---------------------------------------------------------------------------
  // The boundary queue
  // ---------------------------------------------------------------------------

  /** The last `n` elements of `xs`, or all of them when there are fewer. */
  function LastN(xs: seq<real>, n: nat): (r: seq<real>)
    ensures |r| == if |xs| < n then |xs| else n
    ensures r == xs[|xs| - |r|..]
  {
    if |xs| <= n then xs else xs[|xs| - n..]
  }

  /** Appending to the last five and dropping the oldest when there are six gives the last five of the longer history. */
  lemma LastNStep(xs: seq<real>, x: real)
    ensures var w := LastN(xs, QueueSize) + [x];
      LastN(xs + [x], QueueSize) == if |w| > QueueSize then w[1..] else w
  {
    var w := LastN(xs, QueueSize) + [x];
    var ys := xs + [x];
    if |w| > QueueSize {
      assert w[1..] == ys[|ys| - QueueSize..];
    } else {
      assert w == ys;
    }
  }

  /** The callback the queue's vote triggers: Start when it wins, otherwise End when it wins, otherwise none. */
  ghost function BoundaryCall(queue: seq<real>): (r: seq<Callback>)
    ensures |r| <= 1
    ensures forall c :: c in r ==> !c.HeardFrequency?
  {
    if StartVote(ClassifyAll(queue), QueueThresholdSize) then [HeardStartTransmission]
    else if EndVote(ClassifyAll(queue), QueueThresholdSize) then [HeardEndTransmission]
    else []
  }

  /**
   * With a queue of at most five and a threshold of three, the vote is a
   * count: Start is signalled iff three or more tones classify as Start, End
   * iff three or more classify as End, and never both.
   */
  lemma BoundaryCallByCount(queue: seq<real>)
    requires |queue| <= QueueSize
    ensures |BoundaryCall(queue)| <= 1
    ensures BoundaryCall(queue) == [HeardStartTransmission] <==>
      CountOf(ClassifyAll(queue), StartTransmissionClass) >= QueueThresholdSize
    ensures BoundaryCall(queue) == [HeardEndTransmission] <==>
      CountOf(ClassifyAll(queue), EndTransmissionClass) >= QueueThresholdSize
  {
    var gs := ClassifyAll(queue);
    StrictMajorityDecides(gs, QueueThresholdSize);
    VotesExclude(gs, QueueThresholdSize);
    CountsAddUp(gs);
  }

  /** A class's count over `p + q` is at least its count over the suffix `q`. */
  lemma {:induction false} CountOfSuffix(p: seq<Guess>, q: seq<Guess>, k: GuessClass)
    ensures CountOf(p + q, k) >= CountOf(q, k)
    decreases |q|
  {
    if q != [] {
      var q0 := q[..|q| - 1];
      assert (p + q)[..|p + q| - 1] == p + q0;
      CountOfSuffix(p, q0, k);
    }
  }

  /** Three guesses of class `k` count three. */
  lemma CountOfThree(q: seq<Guess>, k: GuessClass)
    requires |q| == 3 && forall j :: 0 <= j < 3 ==> ClassOf(q[j]) == k
    ensures CountOf(q, k) == 3
  {
    assert q[..1][..0] == [];
    assert CountOf(q[..1], k) == 1;
    assert q[..2][..1] == q[..1];
    assert CountOf(q[..2], k) == 2;
    assert q[..3] == q;
  }

  /** A window of at most five guesses whose last three are Start votes for a start. */
  lemma ThreeStartsWinVote(gs: seq<Guess>)
    requires 3 <= |gs| <= QueueSize
    requires forall j :: |gs| - 3 <= j < |gs| ==> gs[j].StartTransmission?
    ensures StartVote(gs, QueueThresholdSize)
  {
    var p, q := gs[..|gs| - 3], gs[|gs| - 3..];
    assert gs == p + q;
    forall j | 0 <= j < 3 ensures ClassOf(q[j]) == StartTransmissionClass {
      assert q[j] == gs[|gs| - 3 + j];
    }
    CountOfThree(q, StartTransmissionClass);
    CountOfSuffix(p, q, StartTransmissionClass);
    StrictMajorityDecides(gs, QueueThresholdSize);
  }

  /**
   * The signal is level-triggered: as long as the last three detected
   * frequencies classify as Start, every call signals Start again.
   */
  lemma RepeatedStartKeepsSignalling(heard: seq<real>)
    requires |heard| >= 3
    requires forall j :: |heard| - 3 <= j < |heard| ==> Classify(heard[j]).StartTransmission?
    ensures BoundaryCall(LastN(heard, QueueSize)) == [HeardStartTransmission]
  {
    var w := LastN(heard, QueueSize);
    forall j | |w| - 3 <= j < |w| ensures Classify(w[j]).StartTransmission? {
      assert w[j] == heard[|heard| - |w| + j];
    }
    StartTonesWinVote(w);
  }

  /** A queue of three to five tones whose last three classify as Start votes for a start. */
  lemma StartTonesWinVote(w: seq<real>)
    requires 3 <= |w| <= QueueSize
    requires forall j :: |w| - 3 <= j < |w| ==> Classify(w[j]).StartTransmission?
    ensures StartVote(ClassifyAll(w), QueueThresholdSize)
  {
    var gs := ClassifyAll(w);
    assert forall j :: |gs| - 3 <= j < |gs| ==> gs[j] == Classify(w[j]);
    ThreeStartsWinVote(gs);
  }

  /**
   * The test at the end of `manageLastHeardFrequencies`: Start is asked
   * first, and End (evaluated lazily) only when Start does not hold.
   */
  method CheckBoundary(queue: seq<real>) returns (signal: seq<Callback>)
    ensures signal == BoundaryCall(queue)
  {
    var isStart := IsStartTransmission(queue, QueueThresholdSize);
    if isStart {
      signal := [HeardStartTransmission];
    } else {
      var isEnd := IsEndTransmission(queue, QueueThresholdSize);
      signal := if isEnd then [HeardEndTransmission] else [];
    }
  }

  /**
   * The sampler's queue and the listener it reports to. `calls` records every
   * callback the listener has received; `heard` every detected frequency, and
   * the queue is always the last five of them.
   */
  class SoundSampler {
    /** `lastHeardFrequencies`: the most recent detected frequencies, oldest first. */
    var lastHeardFrequencies: seq<real>
    /** The callbacks the listener has received, in order. */
    var calls: seq<Callback>
    /** Every frequency `manageLastHeardFrequencies` has received, in order. */
    ghost var heard: seq<real>

    ghost predicate Valid()
      reads this
    {
      lastHeardFrequencies == LastN(heard, QueueSize)
    }

    constructor ()
      ensures Valid()
      ensures lastHeardFrequencies == [] && calls == [] && heard == []
    {
      var none: seq<real> := [];
      assert LastN(none, QueueSize) == none;
      lastHeardFrequencies := none;
      calls := [];
      heard := none;
    }

    /**
     * `manageLastHeardFrequencies`: append the new frequency, drop the oldest
     * when there are more than five, then signal Start when the queue votes
     * for it, and otherwise End when it votes for that.
     */
    method ManageLastHeardFrequencies(newFrequency: real)
      requires Valid()
      modifies this
      ensures Valid()
      ensures heard == old(heard) + [newFrequency]
      ensures lastHeardFrequencies == LastN(old(heard) + [newFrequency], QueueSize)
      ensures |lastHeardFrequencies| <= QueueSize
      ensures calls == old(calls) + BoundaryCall(lastHeardFrequencies)
    {
      LastNStep(heard, newFrequency);
      lastHeardFrequencies := lastHeardFrequencies + [newFrequency];
      if |lastHeardFrequencies| > QueueSize {
        lastHeardFrequencies := lastHeardFrequencies[1..];
      }
      heard := heard + [newFrequency];
      var signal := CheckBoundary(lastHeardFrequencies);
      calls := calls + signal;
    }

    /**
     * `audioBufferUpdated`: take five windows of the half, keep the peaks
     * above the threshold, report their average to the listener, then hand it
     * to the queue.
     */
    method AudioBufferUpdated(freqBuffer: seq<Short>, peak: seq<Short> -> real, emptyAverage: real)
      requires Valid()
      requires |freqBuffer| >= SuggestedWindowSize
      modifies this
      ensures Valid()
      ensures var average := Average(PeaksAbove(freqBuffer, peak, WindowsToTake), emptyAverage);
        && heard == old(heard) + [average]
        && calls == old(calls) + [HeardFrequency(average)] + BoundaryCall(lastHeardFrequencies)
    {
      var highestFrequencies := HighestFrequencies(freqBuffer, peak);
      var average := Average(highestFrequencies, emptyAverage);
      calls := calls + [HeardFrequency(average)];
      ManageLastHeardFrequencies(average);
    }

    /**
     * One turn of the capture loop: the recorder fills the buffer with
     * `samples`, then each half in turn is processed.
     */
    method ReadAndProcess(buffer: array<Short>, samples: seq<Short>, peak: seq<Short> -> real, emptyAverage: real)
      requires Valid()
      requires buffer.Length >= MinBufferSize && |samples| == buffer.Length
      modifies this, buffer
      ensures Valid()
      ensures buffer[..] == samples
      ensures var first := Average(PeaksAbove(FirstHalf(samples), peak, WindowsToTake), emptyAverage);
        var second := Average(PeaksAbove(SecondHalf(samples), peak, WindowsToTake), emptyAverage);
        && heard == old(heard) + [first, second]
        && calls == old(calls)
                    + [HeardFrequency(first)] + BoundaryCall(LastN(old(heard) + [first], QueueSize))
                    + [HeardFrequency(second)] + BoundaryCall(LastN(old(heard) + [first, second], QueueSize))
    {
      Read(buffer, samples);
      HalvesPartition(samples);
      ghost var first := Average(PeaksAbove(FirstHalf(samples), peak, WindowsToTake), emptyAverage);
      ghost var second := Average(PeaksAbove(SecondHalf(samples), peak, WindowsToTake), emptyAverage);
      AudioBufferUpdated(buffer[..buffer.Length / 2], peak, emptyAverage);
      assert heard == old(heard) + [first];
      AudioBufferUpdated(buffer[buffer.Length / 2..], peak, emptyAverage);
      assert heard == old(heard) + [first, second];
    }
  }

  /** `audioRecord.read(buffer, 0, bufferSize)`: the recorder fills the whole buffer with `samples`. */
  method Read(buffer: array<Short>, samples: seq<Short>)
    requires |samples| == buffer.Length
    modifies buffer
    ensures buffer[..] == samples
  {
    for k := 0 to buffer.Length
      invariant buffer[..k] == samples[..k]
    {
      buffer[k] := samples[k];
    }
  }

  /**
   * The window loop of `audioBufferUpdated`: for each of the five windows,
   * copy its 2048 samples into a fresh buffer, take the peak frequency and
   * keep it when it is above the threshold.
   */
  method HighestFrequencies(freqBuffer: seq<Short>, peak: seq<Short> -> real) returns (highestFrequencies: seq<real>)
    requires |freqBuffer| >= SuggestedWindowSize
    ensures highestFrequencies == PeaksAbove(freqBuffer, peak, WindowsToTake)
  {
    highestFrequencies := [];
    for i := 0 to WindowsToTake
      invariant highestFrequencies == PeaksAbove(freqBuffer, peak, i)
    {
      var fftBuffer := FillWindow(freqBuffer, i);
      var firstFrequency := peak(fftBuffer[..]);
      if firstFrequency > FrequencyThreshold {
        highestFrequencies := highestFrequencies + [firstFrequency];
      }
    }
  }

  /** The inner copy loop of `audioBufferUpdated`: window `i` of the half into a fresh FFT buffer. */
  method FillWindow(freqBuffer: seq<Short>, i: int) returns (fftBuffer: array<Short>)
    requires |freqBuffer| >= SuggestedWindowSize && 0 <= i < WindowsToTake
    ensures fresh(fftBuffer)
    ensures fftBuffer[..] == Window(freqBuffer, i)
  {
    var windowSize := SuggestedWindowSize;
    var spareBuffer := |freqBuffer| - SuggestedWindowSize;
    var intervalSize := spareBuffer / (WindowsToTake + 1);
    fftBuffer := new Short[windowSize];
    var bufferOffset := intervalSize * i;
    WindowIndexInBounds(|freqBuffer|, i, windowSize - 1);
    ghost var window := Window(freqBuffer, i);
    assert forall k :: 0 <= k < windowSize ==> window[k] == freqBuffer[bufferOffset + k];
    for j := 0 to windowSize
      modifies fftBuffer
      invariant forall k :: 0 <= k < j ==> fftBuffer[k] == window[k]
    {
      fftBuffer[j] := freqBuffer[j + bufferOffset];
    }
  }

  /** `val buffer = ShortArray(bufferSize)` in `init`: a zeroed buffer of the chosen size. */
  method AllocateBuffer(suggestedBufferSize: int) returns (buffer: array<Short>)
    ensures fresh(buffer)
    ensures buffer.Length == BufferSize(suggestedBufferSize)
    ensures forall k :: 0 <= k < buffer.Length ==> buffer[k] == 0
  {
    var bufferSize := if suggestedBufferSize < MinBufferSize then MinBufferSize else suggestedBufferSize;
    buffer := new Short[bufferSize](_ => 0);
  }
}

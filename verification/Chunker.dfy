/**
 * Cutting a PCM stream into overlapping decode windows (crates/stt/src/chunk.rs).
 *
 * The specification of a window is a slice of the whole stream ever pushed; the
 * class keeps only the part of the stream the next window can still reach.
 */
module Chunking {
  import opened Outcomes

  type Sample = real

  datatype Window = Window(startSample: nat, samples: seq<Sample>, isFinal: bool) {

    /** Sample `i` of the stream stands at its place in the window. */
    predicate Holds(stream: seq<Sample>, i: nat) {
      && startSample <= i < startSample + |samples|
      && i < |stream| && samples[i - startSample] == stream[i]
    }
  }

  /** Samples per window and samples between window starts. */
  datatype Geometry = Geometry(chunkLen: nat, step: nat) {

    ghost predicate Valid() {
      step > 0
    }

    /** Window `k` lies entirely inside the first `len` samples. */
    predicate Ready(len: nat, k: nat) {
      k * step + chunkLen <= len
    }

    /** How many windows lie entirely inside the first `len` samples. */
    function ReadyCount(len: nat): (n: nat)
      requires Valid()
    {
      if len < chunkLen then 0 else (len - chunkLen) / step + 1
    }

    /** The `k`-th full window of the whole stream. */
    function WindowAt(stream: seq<Sample>, k: nat): Window
      requires Ready(|stream|, k)
    {
      Window(k * step, stream[k * step..k * step + chunkLen], false)
    }

    /** What `flush` cuts once `k` full windows have been taken: the rest, if any. */
    function FinalWindow(stream: seq<Sample>, k: nat): Option<Window> {
      if k * step < |stream| then Some(Window(k * step, stream[k * step..], true)) else None
    }

    /** Some window cut from the stream, ready or final, holds sample `i` in its place. */
    ghost predicate Covered(stream: seq<Sample>, i: nat)
      requires Valid()
    {
      || (exists k: nat :: Ready(|stream|, k) && WindowAt(stream, k).Holds(stream, i))
      || (var tail := FinalWindow(stream, ReadyCount(|stream|)); tail.Some? && tail.value.Holds(stream, i))
    }
  }

  /** Conversion to an unsigned integer: truncated, and zero for negatives. */
  function Trunc(x: real): nat {
    if x <= 0.0 then 0 else x.Floor
  }

  const MIN_STEP_SECS: real := 0.1

  function StepSecs(chunkSecs: real, overlapSecs: real): real {
    if chunkSecs - overlapSecs < MIN_STEP_SECS then MIN_STEP_SECS else chunkSecs - overlapSecs
  }

  /** The geometry of a chunker built from durations: the step is floored at a tenth of a second. */
  function GeometryOf(sampleRate: nat, chunkSecs: real, overlapSecs: real): Geometry {
    Geometry(Trunc(chunkSecs * sampleRate as real), Trunc(StepSecs(chunkSecs, overlapSecs) * sampleRate as real))
  }

  /** The floor keeps the windows moving exactly when it spans a whole sample; from 10 Hz up it always does. */
  lemma StepIsPositiveIff(sampleRate: nat, chunkSecs: real, overlapSecs: real)
    ensures GeometryOf(sampleRate, chunkSecs, overlapSecs).Valid() <==> StepSecs(chunkSecs, overlapSecs) * sampleRate as real >= 1.0
    ensures sampleRate >= 10 ==> GeometryOf(sampleRate, chunkSecs, overlapSecs).Valid()
  {
    var secs, rate := StepSecs(chunkSecs, overlapSecs), sampleRate as real;
    if sampleRate >= 10 {
      assert rate >= 10.0;
      RealMulMonotone(MIN_STEP_SECS, secs, rate);
    }
  }

  lemma RealMulMonotone(a: real, b: real, s: real)
    requires a <= b && 0.0 <= s
    ensures a * s <= b * s
  {
  }

  lemma MulMonotone(a: nat, b: nat, s: nat)
    requires a <= b
    ensures a * s <= b * s
  {
  }

  lemma ReadyIsWithin(g: Geometry, len: nat, k: nat)
    requires g.Valid() && g.Ready(len, k)
    ensures k <= len
  {
    MulMonotone(1, g.step, k);
  }

  lemma ReadyCountIsExact(g: Geometry, len: nat, k: nat)
    requires g.Valid()
    ensures g.Ready(len, k) <==> k < g.ReadyCount(len)
  {
    if len >= g.chunkLen {
      var m := len - g.chunkLen;
      var q := m / g.step;
      assert m == q * g.step + m % g.step;
      if k <= q {
        MulMonotone(k, q, g.step);
      } else {
        MulMonotone(q + 1, k, g.step);
        assert (q + 1) * g.step == q * g.step + g.step;
      }
    }
  }

  /** A window that is ready is the same slice however much audio follows it. */
  lemma WindowIsStable(g: Geometry, stream: seq<Sample>, more: seq<Sample>, k: nat)
    requires g.Ready(|stream|, k)
    ensures g.Ready(|stream + more|, k)
    ensures g.WindowAt(stream + more, k) == g.WindowAt(stream, k)
  {
    assert (stream + more)[k * g.step..k * g.step + g.chunkLen] == stream[k * g.step..k * g.step + g.chunkLen];
  }

  /** A ready window holds exactly the samples of its span. */
  lemma WindowHolds(g: Geometry, stream: seq<Sample>, k: nat, i: nat)
    requires g.Ready(|stream|, k)
    ensures g.WindowAt(stream, k).Holds(stream, i) <==> k * g.step <= i < k * g.step + g.chunkLen
  {
    if k * g.step <= i < k * g.step + g.chunkLen {
      assert g.WindowAt(stream, k).samples[i - k * g.step] == stream[i];
    }
  }

  lemma TailHolds(g: Geometry, stream: seq<Sample>, i: nat)
    requires g.Valid() && i < |stream|
    ensures var tail := g.FinalWindow(stream, g.ReadyCount(|stream|));
            (tail.Some? && tail.value.Holds(stream, i)) <==> g.ReadyCount(|stream|) * g.step <= i
  {
    hide Geometry.ReadyCount;
    var from := g.ReadyCount(|stream|) * g.step;
    if from <= i {
      assert g.FinalWindow(stream, g.ReadyCount(|stream|)).value.samples[i - from] == stream[i];
    }
  }

  lemma SampleIsCovered(g: Geometry, stream: seq<Sample>, i: nat)
    requires g.Valid() && i < |stream|
    requires g.step <= g.chunkLen || |stream| <= g.chunkLen
    ensures g.Covered(stream, i)
  {
    var n := g.ReadyCount(|stream|);
    TailHolds(g, stream, i);
    if i < n * g.step {
      var k := WindowAround(g, |stream|, i);
      hide Geometry.ReadyCount, Geometry.Ready, Geometry.WindowAt;
      WindowHolds(g, stream, k, i);
    }
  }

  /** A ready window around a sample that the ready windows pass. */
  lemma WindowAround(g: Geometry, len: nat, i: nat) returns (k: nat)
    requires g.Valid() && i < g.ReadyCount(len) * g.step && i < len
    requires g.step <= g.chunkLen || len <= g.chunkLen
    ensures g.Ready(len, k) && k * g.step <= i < k * g.step + g.chunkLen
  {
    var n := g.ReadyCount(len);
    assert n > 0;
    ReadyCountIsExact(g, len, 0);
    if g.step <= g.chunkLen {
      k := i / g.step;
      assert i == k * g.step + i % g.step;
      if k >= n {
        MulMonotone(n, k, g.step);
        assert false;
      }
      ReadyCountIsExact(g, len, k);
    } else {
      k := 0;
    }
  }

  /** Ready windows plus the flush window cover every sample exactly when windows do not leave gaps. */
  lemma {:induction false} CoversEverySampleIff(g: Geometry, stream: seq<Sample>)
    requires g.Valid()
    ensures (forall i: nat :: i < |stream| ==> g.Covered(stream, i))
            <==> (g.step <= g.chunkLen || |stream| <= g.chunkLen)
  {
    if g.step <= g.chunkLen || |stream| <= g.chunkLen {
      forall i: nat | i < |stream| ensures g.Covered(stream, i) {
        SampleIsCovered(g, stream, i);
      }
    } else {
      var i := g.chunkLen;
      ReadyCountIsExact(g, |stream|, 0);
      MulMonotone(1, g.ReadyCount(|stream|), g.step);
      TailHolds(g, stream, i);
      forall k: nat | g.Ready(|stream|, k)
        ensures !g.WindowAt(stream, k).Holds(stream, i)
      {
        WindowHolds(g, stream, k, i);
        if k > 0 {
          MulMonotone(1, k, g.step);
        }
      }
      assert !g.Covered(stream, i);
    }
  }

  // ---------------------------------------------------------------- which settings leave gaps

  /** `SttConfig::validate`: the overlap must be shorter than the window, and may be negative. */
  predicate Validates(chunkSecs: real, overlapSecs: real) {
    !(overlapSecs >= chunkSecs)
  }

  lemma TruncMonotone(x: real, y: real)
    requires x <= y
    ensures Trunc(x) <= Trunc(y)
  {
  }

  /** These settings reach every sample of every stream. */
  ghost predicate NoGaps(sampleRate: nat, chunkSecs: real, overlapSecs: real)
    requires GeometryOf(sampleRate, chunkSecs, overlapSecs).Valid()
  {
    forall stream: seq<Sample>, i: nat :: i < |stream| ==> GeometryOf(sampleRate, chunkSecs, overlapSecs).Covered(stream, i)
  }

  function Blip(n: nat): (stream: seq<Sample>)
    ensures |stream| == n
  {
    if n == 0 then [] else Blip(n - 1) + [0.0]
  }

  /**
   * In terms of the durations: no sample of any stream is missed exactly when the step, floor
   * included, is no longer than the window once both are whole samples.
   */
  lemma NoGapsIff(sampleRate: nat, chunkSecs: real, overlapSecs: real)
    requires GeometryOf(sampleRate, chunkSecs, overlapSecs).Valid()
    ensures NoGaps(sampleRate, chunkSecs, overlapSecs)
            <==> Trunc(StepSecs(chunkSecs, overlapSecs) * sampleRate as real) <= Trunc(chunkSecs * sampleRate as real)
  {
    hide Trunc, StepSecs, Geometry.Covered;
    var g := GeometryOf(sampleRate, chunkSecs, overlapSecs);
    if g.step <= g.chunkLen {
      forall stream: seq<Sample>, i: nat | i < |stream|
        ensures g.Covered(stream, i)
      {
        CoversEverySampleIff(g, stream);
      }
    } else {
      CoversEverySampleIff(g, Blip(g.chunkLen + 1));
    }
  }

  /** So an overlap of zero or more and a window of a tenth of a second or more never leave gaps. */
  lemma OverlapLeavesNoGaps(sampleRate: nat, chunkSecs: real, overlapSecs: real)
    requires GeometryOf(sampleRate, chunkSecs, overlapSecs).Valid()
    requires overlapSecs >= 0.0 && chunkSecs >= MIN_STEP_SECS
    ensures NoGaps(sampleRate, chunkSecs, overlapSecs)
  {
    hide NoGaps;
    var secs, rate := StepSecs(chunkSecs, overlapSecs), sampleRate as real;
    RealMulMonotone(secs, chunkSecs, rate);
    TruncMonotone(secs * rate, chunkSecs * rate);
    NoGapsIff(sampleRate, chunkSecs, overlapSecs);
  }

  /** Validation passes settings on either side of that which do leave gaps: a negative overlap, or a short window. */
  lemma ValidSettingsWithGaps()
    ensures Validates(1.0, -0.5) && GeometryOf(16000, 1.0, -0.5) == Geometry(16000, 24000)
    ensures Validates(0.05, 0.0) && GeometryOf(16000, 0.05, 0.0) == Geometry(800, 1600)
    ensures !NoGaps(16000, 1.0, -0.5) && !NoGaps(16000, 0.05, 0.0)
  {
    hide NoGaps;
    NoGapsIff(16000, 1.0, -0.5);
    NoGapsIff(16000, 0.05, 0.0);
  }

  /** A negative overlap shorter than a sample leaves none. */
  lemma NegativeOverlapWithoutGaps()
    ensures GeometryOf(16000, 12.0, -0.00001) == Geometry(192000, 192000) && NoGaps(16000, 12.0, -0.00001)
  {
    hide NoGaps;
    NoGapsIff(16000, 12.0, -0.00001);
  }

  /** With a step of no samples, once a window is ready there is always another. */
  lemma ZeroStepNeverRunsOut(g: Geometry, len: nat, k: nat)
    requires g.step == 0 && g.Ready(len, 0)
    ensures g.Ready(len, k)
  {
  }

  class Chunker {
    const geometry: Geometry
    var buf: seq<Sample>
    var bufStart: nat
    var nextStart: nat
    var done: bool
    ghost var stream: seq<Sample>
    ghost var taken: nat

    /**
     * `buf` is the stream from `bufStart` on, and neither cursor subtraction in the
     * methods below can underflow. Without gaps the two cursors coincide.
     */
    ghost predicate Valid()
      reads this
    {
      && bufStart <= nextStart && bufStart <= |stream|
      && buf == stream[bufStart..]
      && nextStart == taken * geometry.step
      && (geometry.step <= geometry.chunkLen ==> bufStart == nextStart)
    }

    constructor (sampleRate: nat, chunkSecs: real, overlapSecs: real)
      ensures Valid() && geometry == GeometryOf(sampleRate, chunkSecs, overlapSecs)
      ensures stream == [] && taken == 0 && !done
    {
      geometry := GeometryOf(sampleRate, chunkSecs, overlapSecs);
      buf, bufStart, nextStart, done := [], 0, 0, false;
      stream, taken := [], 0;
    }

    method Push(pcm: seq<Sample>)
      requires Valid()
      modifies this
      ensures Valid()
      ensures stream == old(stream) + pcm
      ensures taken == old(taken) && done == old(done)
    {
      buf := buf + pcm;
      stream := stream + pcm;
    }

    method TakeReadyWindow() returns (window: Option<Window>)
      requires Valid()
      modifies this
      ensures Valid()
      ensures stream == old(stream) && done == old(done)
      ensures if geometry.Ready(|stream|, old(taken))
              then taken == old(taken) + 1 && window == Some(geometry.WindowAt(stream, old(taken)))
              else taken == old(taken) && window == None
      ensures window == None && geometry.step <= geometry.chunkLen ==> |buf| < geometry.chunkLen
    {
      var relStart: nat := nextStart - bufStart;
      var relEnd := relStart + geometry.chunkLen;
      if relEnd > |buf| {
        return None;
      }
      var samples := buf[relStart..relEnd];
      assert samples == stream[nextStart..nextStart + geometry.chunkLen];
      window := Some(Window(nextStart, samples, false));
      nextStart := nextStart + geometry.step;
      taken := taken + 1;
      FreeConsumed();
    }

    method Flush() returns (window: Option<Window>)
      requires Valid()
      modifies this
      ensures Valid() && done
      ensures stream == old(stream) && taken == old(taken)
      ensures window == if old(done) then None else geometry.FinalWindow(stream, taken)
    {
      if done {
        return None;
      }
      done := true;
      var relStart: nat := nextStart - bufStart;
      if relStart >= |buf| {
        return None;
      }
      assert buf[relStart..] == stream[nextStart..];
      window := Some(Window(nextStart, buf[relStart..], true));
    }

    /** Drops the audio behind the window cursor, or all of it if the cursor is past the end. */
    method FreeConsumed()
      requires bufStart <= nextStart && bufStart <= |stream|
      requires buf == stream[bufStart..] && nextStart == taken * geometry.step
      requires geometry.step <= geometry.chunkLen ==> nextStart <= |stream|
      modifies this`buf, this`bufStart
      ensures Valid()
      ensures bufStart == if nextStart < |stream| then nextStart else |stream|
    {
      var bufEnd := bufStart + |buf|;
      var keepFrom := if nextStart < bufEnd then nextStart else bufEnd;
      var dropN: nat := keepFrom - bufStart;
      if dropN > 0 {
        buf := buf[dropN..];
        bufStart := keepFrom;
      }
    }
  }
}

/** The set-up of `locate`: the duration window around an estimated end,
    its sanity check, the audio range searched, and the confirmation
    window cut around each estimate. */
module LocateWindow {
  import opened Common

  /** `duration_window`: one number for both sides, or explicit parts
      (seconds before and after the estimated end). */
  datatype DurationWindow = Single(seconds: real) | Parts(parts: seq<real>)

  datatype LocateError =
    | WindowTooLong(sum: real)        // AssertionError on the window's sum
    | MissingWindowPart(index: nat)   // IndexError on a short window
    | EmptyTarget                     // IndexError on the first target token

  /** A single number stands for the same span before and after. */
  function Normalise(dw: DurationWindow): (r: seq<real>)
    ensures dw.Single? ==> r == [dw.seconds, dw.seconds]
    ensures dw.Parts? ==> r == dw.parts
  {
    match dw
    case Single(s) => [s, s]
    case Parts(ps) => ps
  }

  function SumR(xs: seq<real>): real
  {
    if |xs| == 0 then 0.0 else xs[0] + SumR(xs[1..])
  }

  /** Samples the cursor moves after an unconfirmed full window: one model
      window less the part before the estimate. */
  function AdjustedChunk(before: real): int
  {
    N_SAMPLES - RoundReal(before * SAMPLE_RATE as real)
  }

  /** The check as written: a window sum in seconds compared with a chunk
      size in samples. */
  function CheckWindowAsWritten(ws: seq<real>): (r: Result<int, LocateError>)
    ensures r.Err? && r.error.WindowTooLong? <==> SumR(ws) >= N_SAMPLES as real
    ensures r.Ok? ==> |ws| > 0 && r.value == AdjustedChunk(ws[0])
  {
    if !(N_SAMPLES as real > SumR(ws)) then Err(WindowTooLong(SumR(ws)))
    else if |ws| == 0 then Err(MissingWindowPart(0))
    else Ok(AdjustedChunk(ws[0]))
  }

  /** The check as written lets a 30 s window through and leaves nothing to
      advance by after an unconfirmed full window: the search would retry
      the same audio forever. */
  lemma AsWrittenAcceptsStallingWindow()
    ensures CheckWindowAsWritten(Normalise(Single(30.0))) == Ok(0)
  {
    assert SumR([30.0, 30.0]) == 60.0;
    RoundRealOfInt(480000);
    assert 30.0 * 16000.0 == 480000 as real;
  }

  /** The intended check: the window, converted to samples, is shorter than
      one model window. */
  function CheckWindow(ws: seq<real>): (r: Result<int, LocateError>)
    ensures r.Err? && r.error.WindowTooLong? <==> RoundReal(SumR(ws) * SAMPLE_RATE as real) >= N_SAMPLES
    ensures r.Ok? ==> |ws| > 0 && r.value == AdjustedChunk(ws[0])
  {
    if !(N_SAMPLES > RoundReal(SumR(ws) * SAMPLE_RATE as real)) then Err(WindowTooLong(SumR(ws)))
    else if |ws| == 0 then Err(MissingWindowPart(0))
    else Ok(AdjustedChunk(ws[0]))
  }

  lemma {:induction false} SumRNonNegative(xs: seq<real>)
    requires forall i :: 0 <= i < |xs| ==> xs[i] >= 0.0
    ensures SumR(xs) >= 0.0
  {
    if |xs| > 0 {
      SumRNonNegative(xs[1..]);
    }
  }

  /** With non-negative parts, a window the intended check accepts always
      moves the cursor forward after an unconfirmed full window; and every
      such window also passes the check as written. */
  lemma CheckWindowAdvances(ws: seq<real>)
    requires forall i :: 0 <= i < |ws| ==> ws[i] >= 0.0
    requires CheckWindow(ws).Ok?
    ensures CheckWindow(ws).value > 0
    ensures CheckWindowAsWritten(ws) == CheckWindow(ws)
  {
    SumRNonNegative(ws[1..]);
    assert SumR(ws) == ws[0] + SumR(ws[1..]);
    RoundRealMonotone(ws[0] * SAMPLE_RATE as real, SumR(ws) * SAMPLE_RATE as real);
    var n := RoundReal(SumR(ws) * SAMPLE_RATE as real);
    assert SumR(ws) * 16000.0 <= n as real + 0.5;
  }

  /** Optional arguments where `0` counts as absent, as `if start:` does. */
  predicate Truthy(x: Option<real>)
  {
    x.Some? && x.value != 0.0
  }

  /** The audio range searched: `end` trims the audio, `start` sets the
      first cursor; both in seconds. */
  function SearchRange(start: Option<real>, end: Option<real>, audioSamples: nat): (r: (int, nat))
    ensures r.1 <= audioSamples
    ensures !Truthy(start) ==> r.0 == 0
    ensures Truthy(start) ==> IsRoundHalfEven(start.value * SAMPLE_RATE as real, r.0)
    ensures !Truthy(end) ==> r.1 == audioSamples
    ensures Truthy(end) && end.value >= 0.0 ==> r.1 == MinI(RoundReal(end.value * SAMPLE_RATE as real), audioSamples)
  {
    var total := if Truthy(end) then SliceLen(audioSamples, 0, RoundReal(end.value * SAMPLE_RATE as real)) else audioSamples;
    var seek := if Truthy(start) then RoundReal(start.value * SAMPLE_RATE as real) else 0;
    assert Truthy(end) && end.value >= 0.0 ==> RoundReal(end.value * SAMPLE_RATE as real) >= 0 by {
      if Truthy(end) && end.value >= 0.0 {
        RoundRealMonotone(0.0, end.value * SAMPLE_RATE as real);
        RoundRealOfInt(0);
      }
    }
    (seek, total)
  }

  /** The samples the search visits, `audio[seek_sample:]` of the trimmed
      audio, are exactly `audio[start:end]` of the original, in samples,
      whenever neither bound is negative. */
  lemma SearchRangeIsSlice(start: Option<real>, end: Option<real>, audioSamples: nat)
    ensures var (seek, total) := SearchRange(start, end, audioSamples);
      var endSample := if Truthy(end) then RoundReal(end.value * SAMPLE_RATE as real) else audioSamples;
      seek >= 0 && endSample >= 0 ==> SliceLen(total, seek, total) == SliceLen(audioSamples, seek, endSample)
  {
  }

  /** The confirmation window around an estimated end `te`, in seconds
      (rounded to milliseconds) and in mel frames. */
  datatype Confirm = Confirm(start: real, end: real, startFrame: int, endFrame: int)

  function ConfirmWindow(te: real, before: real, after: real): (r: Confirm)
    ensures -0.0005 <= MaxR(te - before, 0.0) - r.start <= 0.0005
    ensures -0.0005 <= te + after - r.end <= 0.0005
  {
    var s := RoundTo3(MaxR(te - before, 0.0));
    var e := RoundTo3(te + after);
    Confirm(s, e, RoundReal(s * FRAMES_PER_SECOND as real), RoundReal(e * FRAMES_PER_SECOND as real))
  }

  /** With a non-negative estimate and window, the confirmation window
      starts at or after 0, contains the estimate and its frames are in
      order. */
  lemma ConfirmWindowContains(te: real, before: real, after: real)
    requires te >= 0.0 && before >= 0.0 && after >= 0.0
    ensures var c := ConfirmWindow(te, before, after);
      && 0.0 <= c.start <= RoundTo3(te) <= c.end
      && 0 <= c.startFrame <= c.endFrame
  {
    var c := ConfirmWindow(te, before, after);
    var lo := MaxR(te - before, 0.0);
    RoundTo3Monotone(0.0, lo);
    RoundTo3Monotone(lo, te);
    RoundTo3Monotone(te, te + after);
    RoundRealOfInt(0);
    assert RoundTo3(0.0) == 0.0;
    RoundRealMonotone(0.0, c.start * 100.0);
    RoundRealMonotone(c.start * 100.0, c.end * 100.0);
  }
}

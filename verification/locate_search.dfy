/** The outer loop of `locate`: one model window per iteration, starting at
    the sample cursor. The encoder's estimate of where the target ends, the
    decoder's per-step choices and, in full-segment mode, the end of the
    last timed word are what the model and the word timer report; they come
    in as observations. */
module LocateSearch {
  import opened Common
  import opened LocateWindow
  import opened LocateDecode

  /** `mode`: 0 confirms and times the words of the window, 1 confirms and
      keeps the window's text, 2 reports the estimate unconfirmed. */
  datatype Mode = FullSegment | WindowText | Unconfirmed

  /** What one window reports: the estimated end of the target (seconds
      from the window's start), the decoder's steps, and the end of the last
      timed word (full-segment mode only). */
  datatype WindowObs = WindowObs(targetEnd: real, steps: seq<StepObs>, lastWordEnd: real)

  datatype SearchConfig = SearchConfig(
    mode: Mode,
    decode: DecodeConfig,
    window: seq<real>,     // duration_window, as a list
    adjusted: int,         // adjusted_chunk_size
    total: nat,            // samples in the (trimmed) audio
    count: int)            // 0 for no limit

  /** A match: where the target ends in the whole audio, and the tokens
      decoded around it (none when unconfirmed). */
  datatype Match = Match(end: real, tokens: seq<int>)

  datatype LocState = LocState(seek: int, found: nat, prev: Option<real>)

  /** The loop guard: audio is left and the count is not reached. */
  predicate Continues(cfg: SearchConfig, st: LocState)
  {
    st.seek < cfg.total && (cfg.count == 0 || st.found < cfg.count)
  }

  function SeekSeconds(seek: int): real
  {
    RoundTo3(seek as real / SAMPLE_RATE as real)
  }

  /** Samples moved after a window without a confirmation: one model window
      less the span before the estimate when the window was full, the rest
      of the audio otherwise. */
  function Skip(cfg: SearchConfig, seek: int): int
  {
    var len := SliceLen(cfg.total, seek, seek + N_SAMPLES);
    if len == N_SAMPLES then cfg.adjusted else len
  }

  /** One call of the inner search: the window at the cursor. */
  function LocateOnce(cfg: SearchConfig, st: LocState, w: WindowObs): (r: Result<(LocState, Option<Match>), LocateError>)
    ensures r.Err? <==> cfg.mode != Unconfirmed && (|cfg.window| < 2 || |cfg.decode.text| == 0)
    ensures r.Err? ==> r.error == (if |cfg.window| < 2 then MissingWindowPart(1) else EmptyTarget)
    ensures r.Ok? && cfg.mode == Unconfirmed ==> r.value.0.prev == Some(w.targetEnd)
    ensures r.Ok? && cfg.mode != Unconfirmed ==> r.value.0.prev == st.prev
  {
    var seekSec := SeekSeconds(st.seek);
    if cfg.mode == Unconfirmed then
      var found := st.found + 1;
      var seek :=
        if st.seek + N_SAMPLES >= cfg.total || (cfg.count != 0 && found >= cfg.count) || st.prev == Some(w.targetEnd)
        then cfg.total
        else st.seek + RoundReal(w.targetEnd * SAMPLE_RATE as real);
      Ok((LocState(seek, found, Some(w.targetEnd)), Some(Match(w.targetEnd + seekSec, []))))
    else if |cfg.window| < 2 then Err(MissingWindowPart(1))
    else if |cfg.decode.text| == 0 then Err(EmptyTarget)
    else
      var c := ConfirmWindow(w.targetEnd, cfg.window[0], cfg.window[1]);
      var d := Run(cfg.decode, InitDecode(st.found), w.steps);
      if d.foundTarget then
        var m :=
          if cfg.mode == WindowText then Match(w.targetEnd + seekSec, d.predictions)
          else Match(w.lastWordEnd + seekSec, d.predictions);
        var advance := if cfg.mode == WindowText then c.end else w.lastWordEnd;
        Ok((st.(seek := st.seek + RoundReal(advance * SAMPLE_RATE as real), found := d.found), Some(m)))
      else
        Ok((st.(seek := st.seek + Skip(cfg, st.seek), found := d.found), None))
  }

  /** Observations a well-behaved model produces: non-negative estimates
      and word ends. */
  predicate Sane(w: WindowObs)
  {
    w.targetEnd >= 0.0 && w.lastWordEnd >= 0.0
  }

  /** A window the corrected check accepted: two non-negative parts and a
      positive skip. */
  predicate SaneConfig(cfg: SearchConfig)
  {
    && cfg.adjusted > 0
    && (forall i :: 0 <= i < |cfg.window| ==> cfg.window[i] >= 0.0)
  }

  lemma NonNegativeSamples(x: real)
    requires x >= 0.0
    ensures RoundReal(x * SAMPLE_RATE as real) >= 0
  {
    RoundRealMonotone(0.0, x * SAMPLE_RATE as real);
    RoundRealOfInt(0);
  }

  /** After a window without a confirmation, with the cursor inside the
      audio, the cursor moves forward. */
  lemma SkipAdvances(cfg: SearchConfig, seek: int)
    requires 0 <= seek < cfg.total && cfg.adjusted > 0
    ensures Skip(cfg, seek) > 0
  {
  }

  /** One window: a match is reported exactly when the target was found,
      and then the found count grows by one, otherwise it stays; with sane
      observations the cursor never moves back, and it moves forward after
      a window without a match. */
  lemma {:induction false} LocateOnceSpec(cfg: SearchConfig, st: LocState, w: WindowObs)
    requires LocateOnce(cfg, st, w).Ok?
    ensures var (next, m) := LocateOnce(cfg, st, w).value;
      && next.found == st.found + (if m.Some? then 1 else 0)
      && (cfg.mode == Unconfirmed ==> m.Some?)
      && (m.Some? && cfg.mode == Unconfirmed ==> m.value.tokens == [])
      && (Sane(w) && SaneConfig(cfg) && 0 <= st.seek < cfg.total ==> st.seek <= next.seek)
      && (Sane(w) && SaneConfig(cfg) && 0 <= st.seek < cfg.total && m.None? ==> st.seek < next.seek)
  {
    var (next, m) := LocateOnce(cfg, st, w).value;
    if cfg.mode == Unconfirmed {
      if Sane(w) {
        NonNegativeSamples(w.targetEnd);
      }
    } else {
      var d := Run(cfg.decode, InitDecode(st.found), w.steps);
      RunSpec(cfg.decode, InitDecode(st.found), w.steps);
      assert next.found == d.found;
      if d.foundTarget {
        if Sane(w) && SaneConfig(cfg) {
          var c := ConfirmWindow(w.targetEnd, cfg.window[0], cfg.window[1]);
          ConfirmWindowContains(w.targetEnd, cfg.window[0], cfg.window[1]);
          NonNegativeSamples(c.end);
          NonNegativeSamples(w.lastWordEnd);
        }
      } else if 0 <= st.seek < cfg.total && SaneConfig(cfg) {
        SkipAdvances(cfg, st.seek);
      }
    }
  }

  /** In unconfirmed mode the search ends once the estimate repeats, once
      the count is reached, or once the window reaches the end of the
      audio. */
  lemma UnconfirmedEnds(cfg: SearchConfig, st: LocState, w: WindowObs)
    requires cfg.mode == Unconfirmed
    requires st.prev == Some(w.targetEnd) || (cfg.count > 0 && st.found + 1 >= cfg.count) || st.seek + N_SAMPLES >= cfg.total
    ensures !Continues(cfg, LocateOnce(cfg, st, w).value.0)
  {
  }

  /** The loop, fed one window observation per iteration while it runs. */
  function Search(cfg: SearchConfig, st: LocState, windows: seq<WindowObs>): (r: Result<(LocState, seq<Match>), LocateError>)
    decreases |windows|
  {
    if !Continues(cfg, st) || |windows| == 0 then Ok((st, []))
    else
      match LocateOnce(cfg, st, windows[0])
      case Err(e) => Err(e)
      case Ok((next, m)) =>
        match Search(cfg, next, windows[1..])
        case Err(e) => Err(e)
        case Ok((fin, ms)) => Ok((fin, (if m.Some? then [m.value] else []) + ms))
  }

  /** Over the whole loop: every match is counted once, the count is never
      passed, a window gives at most one match, and the cursor never moves
      back. */
  lemma {:induction false} SearchSpec(cfg: SearchConfig, st: LocState, windows: seq<WindowObs>)
    requires Search(cfg, st, windows).Ok?
    ensures var (fin, ms) := Search(cfg, st, windows).value;
      && fin.found == st.found + |ms|
      && (cfg.count > 0 && st.found <= cfg.count ==> fin.found <= cfg.count)
      && (SaneConfig(cfg) && 0 <= st.seek && (forall i :: 0 <= i < |windows| ==> Sane(windows[i])) ==> st.seek <= fin.seek)
      && |ms| <= |windows|
    decreases |windows|
  {
    if Continues(cfg, st) && |windows| > 0 {
      var (next, m) := LocateOnce(cfg, st, windows[0]).value;
      LocateOnceSpec(cfg, st, windows[0]);
      SearchSpec(cfg, next, windows[1..]);
      if SaneConfig(cfg) && 0 <= st.seek && (forall i :: 0 <= i < |windows| ==> Sane(windows[i])) {
        assert Sane(windows[0]);
        forall i | 0 <= i < |windows[1..]| ensures Sane(windows[1..][i]) {
          assert windows[1..][i] == windows[i + 1];
        }
      }
    }
  }

  /** `locate`: check the window, set the range, then search. */
  function Locate(mode: Mode, decode: DecodeConfig, dw: DurationWindow, start: Option<real>, end: Option<real>,
                  audioSamples: nat, count: int, windows: seq<WindowObs>): (r: Result<seq<Match>, LocateError>)
    ensures CheckWindow(Normalise(dw)).Err? ==> r == Err(CheckWindow(Normalise(dw)).error)
  {
    var ws := Normalise(dw);
    match CheckWindow(ws)
    case Err(e) => Err(e)
    case Ok(adjusted) =>
      var (seek, total) := SearchRange(start, end, audioSamples);
      var cfg := SearchConfig(mode, decode, ws, adjusted, total, count);
      match Search(cfg, LocState(seek, 0, None), windows)
      case Err(e) => Err(e)
      case Ok((_, ms)) => Ok(ms)
  }

  /** With a positive count, `locate` never reports more matches than
      asked for; a range starting at or past the end of the audio gives no
      match. */
  lemma LocateCounts(mode: Mode, decode: DecodeConfig, dw: DurationWindow, start: Option<real>, end: Option<real>,
                     audioSamples: nat, count: int, windows: seq<WindowObs>)
    requires Locate(mode, decode, dw, start, end, audioSamples, count, windows).Ok?
    ensures var ms := Locate(mode, decode, dw, start, end, audioSamples, count, windows).value;
      && (count > 0 ==> |ms| <= count)
      && (SearchRange(start, end, audioSamples).0 >= SearchRange(start, end, audioSamples).1 ==> ms == [])
  {
    var ws := Normalise(dw);
    var adjusted := CheckWindow(ws).value;
    var (seek, total) := SearchRange(start, end, audioSamples);
    var cfg := SearchConfig(mode, decode, ws, adjusted, total, count);
    SearchSpec(cfg, LocState(seek, 0, None), windows);
  }
}
